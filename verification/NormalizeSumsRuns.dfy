/** The normalize-sums processor over whole runs: what each metric that it returns holds. */
module NormalizeSumsRuns {
  import opened Go
  import opened Pdata
  import opened NormalizeSums

  // ------------------------------------------------------------------
  // What is reported, series by series
  // ------------------------------------------------------------------

  /**
   What is reported of `own` when `before` came first. There is no shared history here: each point is judged by the
   automaton on the points of its own series that came before it.
   */
  function Reported(before: seq<Event>, own: seq<Event>): seq<Event> {
    if own == [] then []
    else
      var k := |own| - 1;
      var e := own[k];
      var o := Observe(SeriesAfter(None, PointsOf(e.id, before + own[..k])), e.point).1;
      Reported(before, own[..k]) + (if o.Emitted? then [Event(e.id, o.point)] else [])
  }

  /** The one history map of the processor gives each series the history of its own. */
  lemma {:induction false} ReportedIsEmitted(before: seq<Event>, own: seq<Event>)
    ensures Emissions(Absorb(map[], before), own) == Reported(before, own)
  {
    hide Observe, SeriesAfter, PointsOf, Absorb;
    if own != [] {
      var k := |own| - 1;
      ReportedIsEmitted(before, own[..k]);
      Split(map[], before, own[..k]);
      Independent(map[], before + own[..k], own[k].id);
    }
  }

  /** Of each series exactly what the automaton emits, started where the points before left it. */
  lemma ReportedPerSeries(before: seq<Event>, own: seq<Event>, id: Identifier)
    ensures PointsOf(id, Reported(before, own))
         == SeriesEmits(SeriesAfter(None, PointsOf(id, before)), PointsOf(id, own))
  {
    hide Reported, Absorb, Emissions, SeriesAfter, SeriesEmits, PointsOf;
    ReportedIsEmitted(before, own);
    Independent(Absorb(map[], before), own, id);
    Independent(map[], before, id);
  }

  /** The reports on consecutive pieces are the pieces of the whole report. */
  lemma ReportedSplit(before: seq<Event>, a: seq<Event>, b: seq<Event>)
    ensures Reported(before, a + b) == Reported(before, a) + Reported(before + a, b)
  {
    hide Reported, Absorb, Emissions;
    ReportedIsEmitted(before, a + b);
    ReportedIsEmitted(before, a);
    ReportedIsEmitted(before + a, b);
    Split(Absorb(map[], before), a, b);
    Split(map[], before, a);
  }

  // ------------------------------------------------------------------
  // What is returned, metric by metric
  // ------------------------------------------------------------------

  /** A metric as returned: untouched, or with exactly what is reported of its own points, or dropped if that is nothing. */
  function MetricReturns(before: seq<Event>, res: Attributes, m: Metric): seq<Metric> {
    if !Normalizes(m) then [m]
    else
      var ps := PointsIn(Reported(before, MetricEvents(res, m)));
      if ps == [] then [] else [m.WithPoints(ps)]
  }

  function ScopeReturns(before: seq<Event>, res: Attributes, ms: seq<Metric>): seq<Metric> {
    if ms == [] then []
    else
      var k := |ms| - 1;
      ScopeReturns(before, res, ms[..k]) + MetricReturns(before + ScopeEvents(res, ms[..k]), res, ms[k])
  }

  function ResourceReturns(before: seq<Event>, res: Attributes, scopes: seq<seq<Metric>>): (r: seq<seq<Metric>>)
    ensures |r| == |scopes|
  {
    if scopes == [] then []
    else
      var k := |scopes| - 1;
      ResourceReturns(before, res, scopes[..k])
        + [ScopeReturns(before + ResourceEvents(res, scopes[..k]), res, scopes[k])]
  }

  function BatchReturns(before: seq<Event>, rms: seq<ResourceMetrics>): (r: seq<ResourceMetrics>)
    ensures |r| == |rms|
  {
    if rms == [] then []
    else
      var k := |rms| - 1;
      var rm := rms[k];
      BatchReturns(before, rms[..k])
        + [rm.(scopes := ResourceReturns(before + BatchEvents(rms[..k]), rm.resource, rm.scopes))]
  }

  function RunEvents(batches: seq<seq<ResourceMetrics>>): seq<Event> {
    if batches == [] then []
    else RunEvents(batches[..|batches| - 1]) + BatchEvents(batches[|batches| - 1])
  }

  /** What the calls of a run return, each metric with what is reported of its own points after all that came before it. */
  function RunReturns(batches: seq<seq<ResourceMetrics>>): (r: seq<seq<ResourceMetrics>>)
    ensures |r| == |batches|
  {
    if batches == [] then []
    else
      var k := |batches| - 1;
      RunReturns(batches[..k]) + [BatchReturns(RunEvents(batches[..k]), batches[k])]
  }

  lemma MetricReturnsResult(before: seq<Event>, res: Attributes, m: Metric)
    ensures MetricResult(Absorb(map[], before), res, m) == MetricReturns(before, res, m)
  {
    hide Reported, Absorb, Emissions;
    ReportedIsEmitted(before, MetricEvents(res, m));
  }

  lemma {:induction false} ScopeReturnsResult(before: seq<Event>, res: Attributes, ms: seq<Metric>)
    ensures ScopeResult(Absorb(map[], before), res, ms) == ScopeReturns(before, res, ms)
  {
    hide Absorb, MetricResult, MetricReturns, ScopeEvents;
    if ms != [] {
      var k := |ms| - 1;
      ScopeReturnsResult(before, res, ms[..k]);
      Split(map[], before, ScopeEvents(res, ms[..k]));
      MetricReturnsResult(before + ScopeEvents(res, ms[..k]), res, ms[k]);
    }
  }

  lemma {:induction false} ResourceReturnsResult(before: seq<Event>, res: Attributes, scopes: seq<seq<Metric>>)
    ensures ResourceResult(Absorb(map[], before), res, scopes) == ResourceReturns(before, res, scopes)
  {
    hide Absorb, ScopeResult, ScopeReturns, ResourceEvents;
    if scopes != [] {
      var k := |scopes| - 1;
      ResourceReturnsResult(before, res, scopes[..k]);
      Split(map[], before, ResourceEvents(res, scopes[..k]));
      ScopeReturnsResult(before + ResourceEvents(res, scopes[..k]), res, scopes[k]);
    }
  }

  /** A batch returned by a processor that has seen `before` has each metric with its own report, or not at all. */
  lemma {:induction false} BatchReturnsResult(before: seq<Event>, rms: seq<ResourceMetrics>)
    ensures BatchResult(Absorb(map[], before), rms) == BatchReturns(before, rms)
  {
    hide Absorb, ResourceResult, ResourceReturns, BatchEvents;
    if rms != [] {
      var k := |rms| - 1;
      BatchReturnsResult(before, rms[..k]);
      Split(map[], before, BatchEvents(rms[..k]));
      ResourceReturnsResult(before + BatchEvents(rms[..k]), rms[k].resource, rms[k].scopes);
    }
  }

  /**
   What becomes of every metric: a monotonic Sum whose first point's start time is unset goes out with what is reported
   of its points, and not at all if that is nothing; every other metric goes out as it came.
   */
  lemma ReturnsExactly(before: seq<Event>, res: Attributes, m: Metric)
    ensures var out := MetricReturns(before, res, m);
            if m.data.Sum? && m.data.monotonic && |m.data.points| > 0 && m.data.points[0].startTs == 0 then
              var es := Reported(before, EventsOf(res, m.name, m.data.points));
              |out| == (if es == [] then 0 else 1)
              && forall m' | m' in out :: m' == m.WithPoints(m'.Points()) && m'.Points() == PointsIn(es)
            else out == [m]
  {
    hide Reported;
  }

  /** Two points belong to one series exactly if resource, metric name and labels are the same. */
  lemma SeriesAreSeparate(res: Attributes, name: string, p: Point, res': Attributes, name': string, p': Point)
    ensures EventOf(res, name, p).id == EventOf(res', name', p').id <==> res == res' && name == name' && p.attrs == p'.attrs
    ensures EventOf(res, name, p).point == p
  {
  }

  /** The points of a returned metric are still its own: they read as what is reported of it. */
  lemma ReturnedUnderOwnIdentity(before: seq<Event>, res: Attributes, m: Metric)
    requires Normalizes(m)
    ensures var es := Reported(before, MetricEvents(res, m));
            forall m' | m' in MetricReturns(before, res, m) ::
              m' == m.WithPoints(m'.Points()) && EventsOf(res, m'.name, m'.Points()) == es
  {
    hide Reported, Absorb, Emissions;
    MetricReturnsResult(before, res, m);
    ReportedIsEmitted(before, MetricEvents(res, m));
    ForwardedPoints(Absorb(map[], before), res, m);
  }

  // ------------------------------------------------------------------
  // Whole runs
  // ------------------------------------------------------------------

  /**
   For one identifier the reports on the pieces of a run, put together, are what the automaton emits on that
   identifier's own subsequence of the whole run.
   */
  lemma RunRefinesAutomaton(batches: seq<seq<ResourceMetrics>>, id: Identifier)
    ensures PointsOf(id, Reported([], RunEvents(batches))) == SeriesEmits(None, PointsOf(id, RunEvents(batches)))
  {
    ReportedPerSeries([], RunEvents(batches), id);
    hide Reported, RunEvents, SeriesEmits;
  }

  /** A counter that climbs over a whole run is reported at every point but its first, counted from the first. */
  lemma RunReportsClimbing(batches: seq<seq<ResourceMetrics>>, id: Identifier)
    requires var ps := PointsOf(id, RunEvents(batches)); OneType(ps) && Int64Values(ps) && Climbs(ps) && ps != []
    ensures var ps, out := PointsOf(id, RunEvents(batches)), PointsOf(id, Reported([], RunEvents(batches)));
            |out| == |ps| - 1 && forall i | 0 < i < |ps| :: CountsFrom(ps[0], ps[i], out[i - 1])
  {
    hide RunEvents, Reported, PointsOf, SeriesEmits, CountsFrom, Climbs, OneType;
    RunRefinesAutomaton(batches, id);
    ClimbingEmitsAll(PointsOf(id, RunEvents(batches)));
  }

  lemma RunStep(batches: seq<seq<ResourceMetrics>>, i: nat)
    requires i < |batches|
    ensures var before := RunEvents(batches[..i]);
            && RunEvents(batches[..i + 1]) == before + BatchEvents(batches[i])
            && RunReturns(batches[..i + 1]) == RunReturns(batches[..i]) + [BatchReturns(before, batches[i])]
  {
    assert batches[..i + 1][..i] == batches[..i];
    hide BatchEvents, BatchReturns;
  }

  /**
   A run of the processor. Every call returns its resources and scopes with their metrics in order: those that are
   not normalized as they were, and of the others each with exactly what its own points' series report in it.
   */
  method Run(batches: seq<seq<ResourceMetrics>>) returns (out: seq<seq<ResourceMetrics>>)
    ensures out == RunReturns(batches)
  {
    hide RunEvents, RunReturns, Absorb, BatchEvents, BatchResult, BatchReturns;
    var p := new Processor();
    out := [];
    NoBatches();
    assert batches[..0] == [];
    for i := 0 to |batches|
      invariant p.Valid() && fresh(p) && fresh(p.history.Values)
      invariant p.State() == Absorb(map[], RunEvents(batches[..i]))
      invariant out == RunReturns(batches[..i])
    {
      RunStep(batches, i);
      BatchReturnsResult(RunEvents(batches[..i]), batches[i]);
      Split(map[], RunEvents(batches[..i]), BatchEvents(batches[i]));
      var rms := p.ProcessMetrics(batches[i]);
      out := out + [rms];
    }
    assert batches[..|batches|] == batches;
  }

  lemma NoBatches()
    ensures RunEvents([]) == [] && RunReturns([]) == [] && Absorb(map[], []) == map[]
  {
  }

  // ------------------------------------------------------------------
  // Sums with an unset start time
  // ------------------------------------------------------------------

  predicate HasUnsetStart(m: Metric) {
    m.data.Sum? && exists i :: 0 <= i < |m.data.points| && m.data.points[i].startTs == 0
  }

  /** If a start time is unset at all, the Sum is monotonic and its first point's is. */
  predicate Normalizable(m: Metric) {
    HasUnsetStart(m) ==> m.data.monotonic && m.data.points[0].startTs == 0
  }

  predicate NoUnsetStart(ms: seq<Metric>) {
    forall k | 0 <= k < |ms| :: !HasUnsetStart(ms[k])
  }

  predicate AllNormalizable(ms: seq<Metric>) {
    forall k | 0 <= k < |ms| :: Normalizable(ms[k])
  }

  predicate NoUnsetStartInScopes(scopes: seq<seq<Metric>>) {
    forall j | 0 <= j < |scopes| :: NoUnsetStart(scopes[j])
  }

  predicate AllNormalizableInScopes(scopes: seq<seq<Metric>>) {
    forall j | 0 <= j < |scopes| :: AllNormalizable(scopes[j])
  }

  predicate NoUnsetStartIn(rms: seq<ResourceMetrics>) {
    forall i | 0 <= i < |rms| :: NoUnsetStartInScopes(rms[i].scopes)
  }

  predicate AllNormalizableIn(rms: seq<ResourceMetrics>) {
    forall i | 0 <= i < |rms| :: AllNormalizableInScopes(rms[i].scopes)
  }

  predicate NoUnsetStartInRun(batches: seq<seq<ResourceMetrics>>) {
    forall n | 0 <= n < |batches| :: NoUnsetStartIn(batches[n])
  }

  predicate AllNormalizableInRun(batches: seq<seq<ResourceMetrics>>) {
    forall n | 0 <= n < |batches| :: AllNormalizableIn(batches[n])
  }

  // Each of these holds of a sequence with one more element if it holds of the sequence and of the element.

  lemma OneMoreMetric(ms: seq<Metric>, m: Metric)
    ensures AllNormalizable(ms + [m]) <==> AllNormalizable(ms) && Normalizable(m)
  {
    hide Normalizable;
    assert (ms + [m])[|ms|] == m && forall k | 0 <= k < |ms| :: (ms + [m])[k] == ms[k];
  }

  lemma OneMoreScope(scopes: seq<seq<Metric>>, ms: seq<Metric>)
    ensures NoUnsetStartInScopes(scopes + [ms]) <==> NoUnsetStartInScopes(scopes) && NoUnsetStart(ms)
    ensures AllNormalizableInScopes(scopes + [ms]) <==> AllNormalizableInScopes(scopes) && AllNormalizable(ms)
  {
    hide NoUnsetStart, AllNormalizable;
    assert (scopes + [ms])[|scopes|] == ms && forall j | 0 <= j < |scopes| :: (scopes + [ms])[j] == scopes[j];
  }

  lemma OneMoreResource(rms: seq<ResourceMetrics>, rm: ResourceMetrics)
    ensures NoUnsetStartIn(rms + [rm]) <==> NoUnsetStartIn(rms) && NoUnsetStartInScopes(rm.scopes)
    ensures AllNormalizableIn(rms + [rm]) <==> AllNormalizableIn(rms) && AllNormalizableInScopes(rm.scopes)
  {
    hide NoUnsetStartInScopes, AllNormalizableInScopes;
    assert (rms + [rm])[|rms|] == rm && forall i | 0 <= i < |rms| :: (rms + [rm])[i] == rms[i];
  }

  lemma OneMoreBatch(batches: seq<seq<ResourceMetrics>>, rms: seq<ResourceMetrics>)
    ensures NoUnsetStartInRun(batches + [rms]) <==> NoUnsetStartInRun(batches) && NoUnsetStartIn(rms)
    ensures AllNormalizableInRun(batches + [rms]) <==> AllNormalizableInRun(batches) && AllNormalizableIn(rms)
  {
    hide NoUnsetStartIn, AllNormalizableIn;
    assert (batches + [rms])[|batches|] == rms && forall n | 0 <= n < |batches| :: (batches + [rms])[n] == batches[n];
  }

  predicate Positive(es: seq<Event>) {
    forall i | 0 <= i < |es| :: es[i].point.ts > 0
  }

  /** A series is counted from one of its points. */
  lemma {:induction false} StartIsSeen(ps: seq<Point>)
    ensures var s := SeriesAfter(None, ps); s.Some? ==> s.value.start in ps
  {
    hide Since, Fell;
    if ps != [] {
      StartIsSeen(ps[..|ps| - 1]);
    }
  }

  lemma {:induction false} PositiveSeries(id: Identifier, es: seq<Event>)
    requires Positive(es)
    ensures forall p | p in PointsOf(id, es) :: p.ts > 0
  {
    if es != [] {
      PositiveSeries(id, es[..|es| - 1]);
    }
  }

  lemma EmittedStart(s: Option<Series>, dp: Point)
    requires s.Some? ==> s.value.start.ts > 0
    ensures var o := Observe(s, dp).1; o.Emitted? ==> o.point.startTs > 0
  {
    hide Fell;
  }

  /** With positive timestamps every point reported has its start time set. */
  lemma {:induction false} ReportedStarts(before: seq<Event>, own: seq<Event>)
    requires Positive(before + own)
    ensures forall i | 0 <= i < |Reported(before, own)| :: Reported(before, own)[i].point.startTs > 0
  {
    hide Observe, SeriesAfter, PointsOf;
    if own != [] {
      var k := |own| - 1;
      var seen := before + own[..k];
      assert forall i | 0 <= i < |seen| :: seen[i] == (before + own)[i];
      ReportedStarts(before, own[..k]);
      PositiveSeries(own[k].id, seen);
      StartIsSeen(PointsOf(own[k].id, seen));
      EmittedStart(SeriesAfter(None, PointsOf(own[k].id, seen)), own[k].point);
    }
  }

  lemma MetricUnset(before: seq<Event>, res: Attributes, m: Metric)
    requires Positive(before + MetricEvents(res, m))
    ensures NoUnsetStart(MetricReturns(before, res, m)) <==> Normalizable(m)
  {
    hide Reported;
    if Normalizes(m) {
      ReportedStarts(before, MetricEvents(res, m));
    } else {
      assert MetricReturns(before, res, m)[0] == m;
    }
  }

  lemma UnsetConcat(a: seq<Metric>, b: seq<Metric>)
    ensures NoUnsetStart(a + b) <==> NoUnsetStart(a) && NoUnsetStart(b)
  {
    hide HasUnsetStart;
    if NoUnsetStart(a + b) {
      assert forall k | 0 <= k < |a| :: a[k] == (a + b)[k];
      assert forall k | 0 <= k < |b| :: b[k] == (a + b)[|a| + k];
    }
  }

  lemma PositiveParts(a: seq<Event>, b: seq<Event>, c: seq<Event>)
    requires Positive(a + (b + c))
    ensures Positive(a + b) && Positive((a + b) + c)
  {
    assert (a + b) + c == a + (b + c);
    assert forall i | 0 <= i < |a + b| :: (a + b)[i] == (a + (b + c))[i];
  }

  lemma {:induction false} ScopeUnset(before: seq<Event>, res: Attributes, ms: seq<Metric>)
    requires Positive(before + ScopeEvents(res, ms))
    ensures NoUnsetStart(ScopeReturns(before, res, ms)) <==> AllNormalizable(ms)
  {
    hide Positive, MetricReturns, MetricEvents, Normalizable, HasUnsetStart;
    if ms != [] {
      var k := |ms| - 1;
      PositiveParts(before, ScopeEvents(res, ms[..k]), MetricEvents(res, ms[k]));
      ScopeUnset(before, res, ms[..k]);
      MetricUnset(before + ScopeEvents(res, ms[..k]), res, ms[k]);
      UnsetConcat(ScopeReturns(before, res, ms[..k]), MetricReturns(before + ScopeEvents(res, ms[..k]), res, ms[k]));
      OneMoreMetric(ms[..k], ms[k]);
      assert ms == ms[..k] + [ms[k]];
      hide ScopeEvents, NoUnsetStart, AllNormalizable;
    }
  }

  lemma {:induction false} ResourceUnset(before: seq<Event>, res: Attributes, scopes: seq<seq<Metric>>)
    requires Positive(before + ResourceEvents(res, scopes))
    ensures NoUnsetStartInScopes(ResourceReturns(before, res, scopes)) <==> AllNormalizableInScopes(scopes)
  {
    hide Positive, ScopeReturns, ScopeEvents, AllNormalizable, NoUnsetStart;
    if scopes != [] {
      var k := |scopes| - 1;
      var events := ResourceEvents(res, scopes[..k]);
      PositiveParts(before, events, ScopeEvents(res, scopes[k]));
      ResourceUnset(before, res, scopes[..k]);
      ScopeUnset(before + events, res, scopes[k]);
      OneMoreScope(scopes[..k], scopes[k]);
      OneMoreScope(ResourceReturns(before, res, scopes[..k]), ScopeReturns(before + events, res, scopes[k]));
      hide ResourceEvents, NoUnsetStartInScopes, AllNormalizableInScopes;
      assert scopes == scopes[..k] + [scopes[k]];
    }
  }

  lemma {:induction false} BatchUnset(before: seq<Event>, rms: seq<ResourceMetrics>)
    requires Positive(before + BatchEvents(rms))
    ensures NoUnsetStartIn(BatchReturns(before, rms)) <==> AllNormalizableIn(rms)
  {
    hide Positive, ResourceReturns, ResourceEvents, AllNormalizableInScopes, NoUnsetStartInScopes;
    if rms != [] {
      var k := |rms| - 1;
      var rm, events := rms[k], BatchEvents(rms[..k]);
      PositiveParts(before, events, ResourceEvents(rm.resource, rm.scopes));
      BatchUnset(before, rms[..k]);
      ResourceUnset(before + events, rm.resource, rm.scopes);
      OneMoreResource(rms[..k], rm);
      OneMoreResource(BatchReturns(before, rms[..k]),
                      rm.(scopes := ResourceReturns(before + events, rm.resource, rm.scopes)));
      hide BatchEvents, NoUnsetStartIn, AllNormalizableIn;
      assert rms == rms[..k] + [rms[k]];
    }
  }

  /**
   Over any run of points with positive timestamps: no Sum that is returned has a point with an unset start time
   exactly if every Sum handed in that has one is monotonic and has it unset at its first point.
   */
  lemma {:induction false} UnsetStartsExactly(batches: seq<seq<ResourceMetrics>>)
    requires Positive(RunEvents(batches))
    ensures NoUnsetStartInRun(RunReturns(batches)) <==> AllNormalizableInRun(batches)
  {
    hide Positive, BatchReturns, BatchEvents, AllNormalizableIn, NoUnsetStartIn;
    if batches != [] {
      var k := |batches| - 1;
      var before := RunEvents(batches[..k]);
      assert [] + (before + BatchEvents(batches[k])) == RunEvents(batches) && [] + before == before;
      PositiveParts([], before, BatchEvents(batches[k]));
      UnsetStartsExactly(batches[..k]);
      BatchUnset(before, batches[k]);
      OneMoreBatch(batches[..k], batches[k]);
      OneMoreBatch(RunReturns(batches[..k]), BatchReturns(before, batches[k]));
      hide RunEvents, NoUnsetStartInRun, AllNormalizableInRun;
      assert batches == batches[..k] + [batches[k]];
    }
  }

  /** A start time that is set at the first point only: the second is forwarded unset. */
  lemma LaterUnsetStartStays()
    ensures var m := Metric("m", "", "", Sum([Point(map[], 5, 6, Integer(1)), Point(map[], 0, 7, Integer(2))], true, 2));
            HasUnsetStart(m) && MetricReturns([], map[], m) == [m]
  {
    var m := Metric("m", "", "", Sum([Point(map[], 5, 6, Integer(1)), Point(map[], 0, 7, Integer(2))], true, 2));
    assert m.data.points[1].startTs == 0;
  }

  /** A Sum that is not monotonic is forwarded as it is. */
  lemma NonMonotonicUnsetStartStays()
    ensures var m := Metric("m", "", "", Sum([Point(map[], 0, 7, Integer(2))], false, 2));
            HasUnsetStart(m) && MetricReturns([], map[], m) == [m]
  {
    var m := Metric("m", "", "", Sum([Point(map[], 0, 7, Integer(2))], false, 2));
    assert m.data.points[0].startTs == 0;
  }
}
