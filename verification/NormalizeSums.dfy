/**
 The normalize-sums processor: cumulative counters without a start time are
 re-based on the first point seen, or on the last point at which they fell.
 */
module NormalizeSums {
  import opened Go
  import opened Pdata

  /** What `dataPointIdentifier` renders, with the attribute hash taken as injective. */
  datatype Identifier = Identifier(resource: Attributes, metric: string, labels: Attributes)

  datatype Event = Event(id: Identifier, point: Point)

  // ------------------------------------------------------------------
  // One series on its own: the reference automaton
  // ------------------------------------------------------------------

  datatype Series = Series(start: Point, last: Point)

  datatype Outcome = FirstSeen | Stale | Reset | Emitted(point: Point)

  /** A counter fell: the accessors compare values of the new point's own type. */
  predicate Fell(last: Point, dp: Point) {
    || (dp.value.Integer? && dp.value.IntValue() < last.value.IntValue())
    || (dp.value.Real? && dp.value.DoubleValue() < last.value.DoubleValue())
  }

  /** `dp` counted from `start`, in int64 or float64. */
  function Since(start: Point, dp: Point): Point {
    var v := match dp.value
      case Integer(i) => Integer(Wrap64(i - start.value.IntValue()))
      case Real(d) => Real(d - start.value.DoubleValue())
      case _ => dp.value;
    dp.(value := v, startTs := start.ts)
  }

  function Observe(s: Option<Series>, dp: Point): (Series, Outcome) {
    match s
    case None => (Series(dp, dp), FirstSeen)
    case Some(c) =>
      if dp.ts <= c.start.ts then (c, Stale)
      else if Fell(c.last, dp) then (Series(dp, dp), Reset)
      else (c.(last := dp), Emitted(Since(c.start, dp)))
  }

  function SeriesAfter(s: Option<Series>, ps: seq<Point>): Option<Series> {
    if ps == [] then s
    else Some(Observe(SeriesAfter(s, ps[..|ps| - 1]), ps[|ps| - 1]).0)
  }

  /** What becomes of the `k`-th point of a series. */
  function OutcomeAt(s: Option<Series>, ps: seq<Point>, k: nat): Outcome
    requires k < |ps|
  {
    Observe(SeriesAfter(s, ps[..k]), ps[k]).1
  }

  function SeriesEmits(s: Option<Series>, ps: seq<Point>): seq<Point> {
    if ps == [] then []
    else
      var k := |ps| - 1;
      var o := Observe(SeriesAfter(s, ps[..k]), ps[k]).1;
      SeriesEmits(s, ps[..k]) + (if o.Emitted? then [o.point] else [])
  }

  // ------------------------------------------------------------------
  // All series at once
  // ------------------------------------------------------------------

  type Tracked = map<Identifier, Series>

  function Lookup(h: Tracked, id: Identifier): Option<Series> {
    if id in h then Some(h[id]) else None
  }

  function Absorb(h: Tracked, es: seq<Event>): Tracked {
    if es == [] then h
    else
      var g, e := Absorb(h, es[..|es| - 1]), es[|es| - 1];
      g[e.id := Observe(Lookup(g, e.id), e.point).0]
  }

  function Emissions(h: Tracked, es: seq<Event>): seq<Event> {
    if es == [] then []
    else
      var k := |es| - 1;
      var o := Observe(Lookup(Absorb(h, es[..k]), es[k].id), es[k].point).1;
      Emissions(h, es[..k]) + (if o.Emitted? then [Event(es[k].id, o.point)] else [])
  }

  /** The subsequence of points that belongs to one identifier. */
  function PointsOf(id: Identifier, es: seq<Event>): seq<Point> {
    if es == [] then []
    else
      var k := |es| - 1;
      PointsOf(id, es[..k]) + (if es[k].id == id then [es[k].point] else [])
  }

  lemma {:induction false} PointsOfConcat(id: Identifier, a: seq<Event>, b: seq<Event>)
    ensures PointsOf(id, a + b) == PointsOf(id, a) + PointsOf(id, b)
  {
    if b == [] {
      assert a + b == a;
    } else {
      assert (a + b)[..|a + b| - 1] == a + b[..|b| - 1];
      PointsOfConcat(id, a, b[..|b| - 1]);
    }
  }

  /** Splitting the input anywhere changes neither the state reached nor what is emitted. */
  lemma {:induction false} Split(h: Tracked, a: seq<Event>, b: seq<Event>)
    ensures Absorb(h, a + b) == Absorb(Absorb(h, a), b)
    ensures Emissions(h, a + b) == Emissions(h, a) + Emissions(Absorb(h, a), b)
  {
    if b == [] {
      assert a + b == a;
    } else {
      assert (a + b)[..|a + b| - 1] == a + b[..|b| - 1];
      Split(h, a, b[..|b| - 1]);
    }
  }

  /** Interleaving does not matter: each identifier sees only its own subsequence. */
  lemma {:induction false} Independent(h: Tracked, es: seq<Event>, id: Identifier)
    ensures Lookup(Absorb(h, es), id) == SeriesAfter(Lookup(h, id), PointsOf(id, es))
    ensures PointsOf(id, Emissions(h, es)) == SeriesEmits(Lookup(h, id), PointsOf(id, es))
  {
    if es != [] {
      var k := |es| - 1;
      Independent(h, es[..k], id);
      var o := Observe(Lookup(Absorb(h, es[..k]), es[k].id), es[k].point).1;
      PointsOfConcat(id, Emissions(h, es[..k]), if o.Emitted? then [Event(es[k].id, o.point)] else []);
      if es[k].id == id {
        assert PointsOf(id, es)[..|PointsOf(id, es)| - 1] == PointsOf(id, es[..k]);
      } else {
        assert PointsOf(id, es) == PointsOf(id, es[..k]);
      }
    }
  }

  // ------------------------------------------------------------------
  // Batches
  // ------------------------------------------------------------------

  predicate IsMonotonicSum(m: Metric) {
    m.data.Sum? && m.data.monotonic
  }

  /** Only the first point's start time decides whether a metric is transformed. */
  predicate Normalizes(m: Metric) {
    IsMonotonicSum(m) && m.data.points != [] && m.data.points[0].startTs == 0
  }

  function EventOf(res: Attributes, name: string, p: Point): Event {
    Event(Identifier(res, name, p.attrs), p)
  }

  function EventsOf(res: Attributes, name: string, ps: seq<Point>): (es: seq<Event>)
    ensures |es| == |ps|
    ensures forall i | 0 <= i < |ps| :: es[i] == EventOf(res, name, ps[i])
  {
    seq(|ps|, i requires 0 <= i < |ps| => EventOf(res, name, ps[i]))
  }

  function PointsIn(es: seq<Event>): (ps: seq<Point>)
    ensures |es| == |ps|
    ensures forall i | 0 <= i < |ps| :: ps[i] == es[i].point
  {
    seq(|es|, i requires 0 <= i < |es| => es[i].point)
  }

  function MetricEvents(res: Attributes, m: Metric): seq<Event> {
    if Normalizes(m) then EventsOf(res, m.name, m.data.points) else []
  }

  function ScopeEvents(res: Attributes, ms: seq<Metric>): seq<Event> {
    if ms == [] then []
    else ScopeEvents(res, ms[..|ms| - 1]) + MetricEvents(res, ms[|ms| - 1])
  }

  function ResourceEvents(res: Attributes, scopes: seq<seq<Metric>>): seq<Event> {
    if scopes == [] then []
    else ResourceEvents(res, scopes[..|scopes| - 1]) + ScopeEvents(res, scopes[|scopes| - 1])
  }

  function BatchEvents(rms: seq<ResourceMetrics>): seq<Event> {
    if rms == [] then []
    else
      var rm := rms[|rms| - 1];
      BatchEvents(rms[..|rms| - 1]) + ResourceEvents(rm.resource, rm.scopes)
  }

  /** The metric as forwarded: untouched, re-based, or dropped when none of its points was emitted. */
  function MetricResult(h: Tracked, res: Attributes, m: Metric): (r: seq<Metric>)
    ensures !Normalizes(m) ==> r == [m]
    ensures Normalizes(m) ==> (r == [] <==> Emissions(h, MetricEvents(res, m)) == [])
  {
    if !Normalizes(m) then [m]
    else
      var out := PointsIn(Emissions(h, MetricEvents(res, m)));
      if out == [] then [] else [m.WithPoints(out)]
  }

  function ScopeResult(h: Tracked, res: Attributes, ms: seq<Metric>): seq<Metric> {
    if ms == [] then []
    else
      var k := |ms| - 1;
      ScopeResult(h, res, ms[..k]) + MetricResult(Absorb(h, ScopeEvents(res, ms[..k])), res, ms[k])
  }

  function ResourceResult(h: Tracked, res: Attributes, scopes: seq<seq<Metric>>): seq<seq<Metric>> {
    if scopes == [] then []
    else
      var k := |scopes| - 1;
      ResourceResult(h, res, scopes[..k]) + [ScopeResult(Absorb(h, ResourceEvents(res, scopes[..k])), res, scopes[k])]
  }

  function BatchResult(h: Tracked, rms: seq<ResourceMetrics>): seq<ResourceMetrics> {
    if rms == [] then []
    else
      var k := |rms| - 1;
      BatchResult(h, rms[..k])
      + [rms[k].(scopes := ResourceResult(Absorb(h, BatchEvents(rms[..k])), rms[k].resource, rms[k].scopes))]
  }

  /** A normalized metric that is forwarded carries its emissions, each still under its own identifier. */
  lemma ForwardedPoints(h: Tracked, res: Attributes, m: Metric)
    requires Normalizes(m)
    ensures var es := Emissions(h, MetricEvents(res, m));
            forall m' | m' in MetricResult(h, res, m) ::
              m' == m.WithPoints(m'.Points()) && EventsOf(res, m'.name, m'.Points()) == es
  {
    EmissionsKeepIdentity(h, res, m.name, m.data.points);
  }

  lemma {:induction false} EmissionsKeepIdentity(h: Tracked, res: Attributes, name: string, ps: seq<Point>)
    ensures forall e | e in Emissions(h, EventsOf(res, name, ps)) :: e == EventOf(res, name, e.point)
  {
    if ps != [] {
      var k := |ps| - 1;
      EmissionsKeepIdentity(h, res, name, ps[..k]);
      assert EventsOf(res, name, ps)[..k] == EventsOf(res, name, ps[..k]);
    }
  }

  // ------------------------------------------------------------------
  // What the automaton guarantees on a series of one value type
  // ------------------------------------------------------------------

  predicate SameType(a: Number, b: Number) {
    (a.Integer? && b.Integer?) || (a.Real? && b.Real?)
  }

  predicate OneType(ps: seq<Point>) {
    forall i, j | 0 <= i < |ps| && 0 <= j < |ps| :: SameType(ps[i].value, ps[j].value)
  }

  predicate Consistent(c: Series) {
    && SameType(c.start.value, c.last.value)
    && c.start.value.AsReal() <= c.last.value.AsReal()
    && c.start.ts <= c.last.ts
  }

  /** The tracked pair stays ordered in value and in time, and is made of points of the series. */
  lemma {:induction false} SeriesStaysConsistent(ps: seq<Point>)
    requires OneType(ps) && ps != []
    ensures var s := SeriesAfter(None, ps);
            s.Some? && Consistent(s.value) && s.value.start in ps && s.value.last in ps
  {
    var k := |ps| - 1;
    if k > 0 {
      SeriesStaysConsistent(ps[..k]);
    }
  }

  /** The point a series is counted from after its first `k` points. */
  function StartAfter(ps: seq<Point>, k: nat): Point
    requires 0 < k <= |ps|
  {
    SeriesAfter(None, ps[..k]).value.start
  }

  predicate Int64Values(ps: seq<Point>) {
    forall i | 0 <= i < |ps| && ps[i].value.Integer? :: IsInt64(ps[i].value.i)
  }

  /** The distance of two raw values is one that int64 can hold. */
  predicate Spans(from: Number, to: Number) {
    to.Integer? ==> to.IntValue() - from.IntValue() <= INT64_MAX
  }

  lemma RebasedValue(start: Point, dp: Point)
    requires SameType(start.value, dp.value) && start.value.AsReal() <= dp.value.AsReal()
    requires dp.value.Integer? ==> IsInt64(start.value.i) && IsInt64(dp.value.i)
    ensures var v, fits := Since(start, dp).value, Spans(start.value, dp.value);
            && SameType(v, dp.value)
            && (v.AsReal() >= 0.0 <==> fits)
            && (v.AsReal() + start.value.AsReal() == dp.value.AsReal() <==> fits)
            && (!fits ==> v.AsReal() + start.value.AsReal() == dp.value.AsReal() - TWO_64 as real)
  {
    if dp.value.Integer? {
      WrappedDifference(dp.value.i, start.value.i);
    }
    hide Wrap64;
  }

  /**
   An emitted point is its raw point counted from the current start. Its value is not negative, and added to that of
   the start gives the raw value, exactly if the raw value is at most 2^63 - 1 above the start's: the source
   subtracts in int64.
   */
  lemma EmittedIsRebased(ps: seq<Point>, k: nat)
    requires OneType(ps) && Int64Values(ps) && k < |ps| && OutcomeAt(None, ps, k).Emitted?
    ensures k > 0
    ensures var p := OutcomeAt(None, ps, k).point;
            var start := StartAfter(ps, k);
            && p.attrs == ps[k].attrs && p.ts == ps[k].ts && p.startTs == start.ts
            && p.startTs < p.ts
            && SameType(p.value, ps[k].value)
            && (p.value.AsReal() >= 0.0 <==> Spans(start.value, ps[k].value))
            && (p.value.AsReal() + start.value.AsReal() == ps[k].value.AsReal() <==> Spans(start.value, ps[k].value))
  {
    if k > 0 {
      SeriesStaysConsistent(ps[..k]);
      var c := SeriesAfter(None, ps[..k]).value;
      hide SeriesAfter, Since;
      RebasedValue(c.start, ps[k]);
      assert OutcomeAt(None, ps, k).point == Since(c.start, ps[k]);
      SinceKeeps(c.start, ps[k]);
    }
  }

  lemma SinceKeeps(start: Point, dp: Point)
    ensures var p := Since(start, dp); p.attrs == dp.attrs && p.ts == dp.ts && p.startTs == start.ts
  {
  }

  /** Counters that are never negative cannot span too far. */
  lemma NonNegativeCountersSpan(ps: seq<Point>, k: nat)
    requires OneType(ps) && Int64Values(ps) && k < |ps| && OutcomeAt(None, ps, k).Emitted?
    requires forall i | 0 <= i < |ps| :: ps[i].value.AsReal() >= 0.0
    ensures k > 0 && Spans(StartAfter(ps, k).value, ps[k].value)
  {
    EmittedIsRebased(ps, k);
    SeriesStaysConsistent(ps[..k]);
  }

  /** A counter that starts at -1 and reaches the largest int64 is emitted as the smallest. */
  lemma WideSpanWraps()
    ensures var ps := [Point(map[], 0, 1, Integer(-1)), Point(map[], 0, 2, Integer(INT64_MAX))];
            OutcomeAt(None, ps, 1) == Emitted(Point(map[], 1, 2, Integer(INT64_MIN)))
  {
    var a, b := Point(map[], 0, 1, Integer(-1)), Point(map[], 0, 2, Integer(INT64_MAX));
    assert [a, b][..1] == [a] && [a][..0] == [];
    assert SeriesAfter(None, [a]) == Some(Series(a, a));
    WrappedDifference(INT64_MAX, -1);
  }

  predicate ResetBetween(ps: seq<Point>, i: nat, j: nat)
    requires j <= |ps|
  {
    exists r: nat | i < r < j :: OutcomeAt(None, ps, r).Reset?
  }

  lemma ResetStep(ps: seq<Point>, i: nat, j: nat)
    requires i < j < |ps|
    ensures ResetBetween(ps, i, j + 1) <==> ResetBetween(ps, i, j) || OutcomeAt(None, ps, j).Reset?
  {
    hide OutcomeAt;
    if ResetBetween(ps, i, j) {
      var r: nat :| i < r < j && OutcomeAt(None, ps, r).Reset?;
      assert i < r < j + 1;
    }
  }

  /** What one more point does to the tracked pair. */
  lemma SeriesStep(ps: seq<Point>, j: nat)
    requires OneType(ps) && 0 < j < |ps|
    ensures var s, s' := SeriesAfter(None, ps[..j]), SeriesAfter(None, ps[..j + 1]);
            && s.Some? && s'.Some?
            && if OutcomeAt(None, ps, j).Reset? then s.value.start.ts < s'.value.start.ts
               else s'.value.start == s.value.start && s.value.last.value.AsReal() <= s'.value.last.value.AsReal()
  {
    SeriesStaysConsistent(ps[..j]);
    assert ps[..j + 1][..j] == ps[..j];
    var c := SeriesAfter(None, ps[..j]).value;
    assert SeriesAfter(None, ps[..j + 1]) == Some(Observe(Some(c), ps[j]).0);
    hide SeriesAfter, Since;
  }

  /** An emission leaves the start and becomes the last point. */
  lemma EmissionStep(ps: seq<Point>, i: nat)
    requires i < |ps| && OutcomeAt(None, ps, i).Emitted?
    ensures i > 0 && SeriesAfter(None, ps[..i]).Some? && SeriesAfter(None, ps[..i + 1]).Some?
    ensures SeriesAfter(None, ps[..i + 1]).value == SeriesAfter(None, ps[..i]).value.(last := ps[i])
  {
    assert ps[..i + 1][..i] == ps[..i];
    hide Since, Fell;
  }

  /** From an emission at `i`, how the tracked pair has moved by the time point `j` arrives. */
  lemma {:induction false} TrackFrom(ps: seq<Point>, i: nat, j: nat)
    requires OneType(ps) && i < j <= |ps| && OutcomeAt(None, ps, i).Emitted?
    ensures i > 0 && SeriesAfter(None, ps[..i]).Some? && SeriesAfter(None, ps[..j]).Some?
    ensures var si, sj := SeriesAfter(None, ps[..i]).value, SeriesAfter(None, ps[..j]).value;
            if ResetBetween(ps, i, j) then si.start.ts < sj.start.ts
            else sj.start == si.start && ps[i].value.AsReal() <= sj.last.value.AsReal()
    decreases j
  {
    hide SeriesAfter, OutcomeAt;
    EmissionStep(ps, i);
    if j > i + 1 {
      TrackFrom(ps, i, j - 1);
      SeriesStep(ps, j - 1);
      ResetStep(ps, i, j - 1);
      hide ResetBetween;
    }
  }

  /**
   Between resets emissions share a start time, and the value falls only where the distance from the start first
   grows beyond int64; across a reset the start time strictly grows. Points need not arrive in time order.
   */
  lemma EmissionsOrdered(ps: seq<Point>, i: nat, j: nat)
    requires OneType(ps) && Int64Values(ps) && i < j < |ps|
    requires OutcomeAt(None, ps, i).Emitted? && OutcomeAt(None, ps, j).Emitted?
    ensures i > 0
    ensures var a, b, start := OutcomeAt(None, ps, i).point, OutcomeAt(None, ps, j).point, StartAfter(ps, i);
            && (ResetBetween(ps, i, j) <==> a.startTs < b.startTs)
            && (!ResetBetween(ps, i, j) ==>
                  && a.startTs == b.startTs && StartAfter(ps, j) == start
                  && (a.value.AsReal() <= b.value.AsReal() <==>
                        (Spans(start.value, ps[i].value) ==> Spans(start.value, ps[j].value))))
  {
    TrackFrom(ps, i, j);
    EmittedIsRebased(ps, i);
    EmittedIsRebased(ps, j);
    EmissionIsSince(ps, i);
    EmissionIsSince(ps, j);
    if !ResetBetween(ps, i, j) {
      SeriesStaysConsistent(ps[..i]);
      SeriesStaysConsistent(ps[..j]);
      var start := StartAfter(ps, i);
      RebasedValue(start, ps[i]);
      RebasedValue(start, ps[j]);
    }
    hide SeriesAfter, Since, ResetBetween;
  }

  lemma EmissionIsSince(ps: seq<Point>, k: nat)
    requires k < |ps| && OutcomeAt(None, ps, k).Emitted?
    ensures k > 0 && SeriesAfter(None, ps[..k]).Some?
    ensures var c := SeriesAfter(None, ps[..k]).value;
            OutcomeAt(None, ps, k).point == Since(c.start, ps[k]) && !Fell(c.last, ps[k])
  {
  }

  // ------------------------------------------------------------------
  // Outcomes read off the raw points
  // ------------------------------------------------------------------

  /** Two numbers of one type, the first strictly below the second. */
  predicate Below(a: Number, b: Number) {
    (a.Integer? && b.Integer? && a.i < b.i) || (a.Real? && b.Real? && a.d < b.d)
  }

  /** The first point of the series, or the last one before `k` that was a reset. */
  function StartIndex(ps: seq<Point>, k: nat): (i: nat)
    requires 0 < k <= |ps|
    ensures i < k
  {
    if k == 1 || OutcomeAt(None, ps, k - 1).Reset? then k - 1 else StartIndex(ps, k - 1)
  }

  /** The last point before `k` that was not stale. */
  function LastIndex(ps: seq<Point>, k: nat): (i: nat)
    requires 0 < k <= |ps|
    ensures i < k
  {
    if k == 1 || !OutcomeAt(None, ps, k - 1).Stale? then k - 1 else LastIndex(ps, k - 1)
  }

  lemma {:induction false} TrackedIndices(ps: seq<Point>, k: nat)
    requires 0 < k <= |ps|
    ensures SeriesAfter(None, ps[..k]) == Some(Series(ps[StartIndex(ps, k)], ps[LastIndex(ps, k)]))
  {
    hide Fell, Since;
    assert ps[..k][..k - 1] == ps[..k - 1];
    if k > 1 {
      TrackedIndices(ps, k - 1);
    } else {
      assert ps[..0] == [];
    }
  }

  /** An emission at `k`: the point counted from the start, wrapped only where int64 cannot hold the distance. */
  predicate CountsFrom(start: Point, dp: Point, p: Point) {
    && p.attrs == dp.attrs && p.ts == dp.ts && p.startTs == start.ts
    && (dp.value.Real? && start.value.Real? ==> p.value == Real(dp.value.d - start.value.d))
    && (dp.value.Integer? && start.value.Integer? ==>
          var d := dp.value.i - start.value.i;
          p.value == Integer(if d > INT64_MAX then d - TWO_64 else d))
  }

  /** One step of the automaton in raw values. */
  lemma StepOutcome(start: Point, last: Point, dp: Point)
    requires SameType(dp.value, last.value) && SameType(dp.value, start.value)
    requires dp.value.Integer? ==> IsInt64(start.value.i) && IsInt64(dp.value.i)
    requires start.value.AsReal() <= last.value.AsReal()
    ensures var o := Observe(Some(Series(start, last)), dp).1;
            && (o.Stale? <==> dp.ts <= start.ts)
            && (o.Reset? <==> dp.ts > start.ts && Below(dp.value, last.value))
            && (o.Emitted? <==> dp.ts > start.ts && !Below(dp.value, last.value))
            && (o.Emitted? ==> CountsFrom(start, dp, o.point))
  {
    if dp.value.Integer? && dp.value.i >= start.value.i {
      WrappedDifference(dp.value.i, start.value.i);
    }
    hide Wrap64;
  }

  /**
   What becomes of every point of a series, in terms of the raw points: stale if it is no newer than the start, a
   reset if not stale and strictly below the last point that was not stale, and otherwise emitted.
   */
  lemma OutcomeExactly(ps: seq<Point>, k: nat)
    requires OneType(ps) && Int64Values(ps) && k < |ps|
    ensures k == 0 ==> OutcomeAt(None, ps, k).FirstSeen?
    ensures k > 0 ==>
              var o, start, last := OutcomeAt(None, ps, k), ps[StartIndex(ps, k)], ps[LastIndex(ps, k)];
              && (o.Stale? <==> ps[k].ts <= start.ts)
              && (o.Reset? <==> ps[k].ts > start.ts && Below(ps[k].value, last.value))
              && (o.Emitted? <==> ps[k].ts > start.ts && !Below(ps[k].value, last.value))
              && (o.Emitted? ==> CountsFrom(start, ps[k], o.point))
  {
    if k > 0 {
      TrackedIndices(ps, k);
      SeriesStaysConsistent(ps[..k]);
      hide StartIndex, LastIndex, SeriesAfter, Below, CountsFrom, Observe;
      var start, last := ps[StartIndex(ps, k)], ps[LastIndex(ps, k)];
      assert SameType(ps[k].value, last.value) && SameType(ps[k].value, start.value);
      StepOutcome(start, last, ps[k]);
    } else {
      assert ps[..0] == [];
    }
  }

  /** Strictly newer from point to point, and never below. */
  predicate Climbs(ps: seq<Point>) {
    forall i | 0 < i < |ps| :: ps[i - 1].ts < ps[i].ts && !Below(ps[i].value, ps[i - 1].value)
  }

  lemma {:induction false} ClimbsFromFirst(ps: seq<Point>, k: nat)
    requires OneType(ps) && Climbs(ps) && 0 < k <= |ps|
    ensures StartIndex(ps, k) == 0 && LastIndex(ps, k) == k - 1 && ps[0].ts <= ps[k - 1].ts
  {
    if k > 1 {
      ClimbsFromFirst(ps, k - 1);
      TrackedIndices(ps, k - 1);
      assert SameType(ps[k - 2].value, ps[k - 1].value);
      assert OutcomeAt(None, ps, k - 1).Emitted?;
    }
  }

  /** A counter that never falls loses nothing: every point after the first is emitted, counted from the first. */
  lemma {:induction false} ClimbingEmitsAll(ps: seq<Point>)
    requires OneType(ps) && Int64Values(ps) && Climbs(ps) && ps != []
    ensures |SeriesEmits(None, ps)| == |ps| - 1
    ensures forall i | 0 < i < |ps| :: CountsFrom(ps[0], ps[i], SeriesEmits(None, ps)[i - 1])
  {
    hide CountsFrom;
    var k := |ps| - 1;
    if k > 0 {
      ClimbingEmitsAll(ps[..k]);
      ClimbsFromFirst(ps, k);
      OutcomeExactly(ps, k);
      assert forall i | 0 < i < k :: ps[..k][i] == ps[i];
      assert SeriesEmits(None, ps) == SeriesEmits(None, ps[..k]) + [OutcomeAt(None, ps, k).point];
      hide SeriesEmits, OutcomeAt, Below;
    } else {
      assert ps[..0] == [];
    }
  }

  // One more turn of each of the four nested loops.

  lemma PointsStep(h: Tracked, res: Attributes, name: string, ps: seq<Point>, i: nat)
    requires i < |ps|
    ensures var done, e := EventsOf(res, name, ps[..i]), EventOf(res, name, ps[i]);
            Absorb(h, EventsOf(res, name, ps[..i + 1])) == Absorb(Absorb(h, done), [e]) &&
            PointsIn(Emissions(h, EventsOf(res, name, ps[..i + 1])))
            == PointsIn(Emissions(h, done)) + PointsIn(Emissions(Absorb(h, done), [e]))
  {
    var done, e := EventsOf(res, name, ps[..i]), EventOf(res, name, ps[i]);
    assert EventsOf(res, name, ps[..i + 1]) == done + [e];
    Split(h, done, [e]);
  }

  lemma PassedThrough(h: Tracked, res: Attributes, m: Metric)
    requires !Normalizes(m)
    ensures Absorb(h, MetricEvents(res, m)) == h && MetricResult(h, res, m) == [m]
  {
  }

  /** What a single point does to the history, and what is reported for it. */
  lemma OnePoint(h: Tracked, e: Event)
    ensures var (s, o) := Observe(Lookup(h, e.id), e.point);
            && Absorb(h, [e]) == h[e.id := s]
            && PointsIn(Emissions(h, [e])) == if o.Emitted? then [o.point] else []
  {
    assert [e][..0] == [];
    hide Since, Fell;
  }

  lemma ScopeStep(h: Tracked, res: Attributes, ms: seq<Metric>, k: nat)
    requires k < |ms|
    ensures var g := Absorb(h, ScopeEvents(res, ms[..k]));
            Absorb(h, ScopeEvents(res, ms[..k + 1])) == Absorb(g, MetricEvents(res, ms[k])) &&
            ScopeResult(h, res, ms[..k + 1]) == ScopeResult(h, res, ms[..k]) + MetricResult(g, res, ms[k])
  {
    assert ms[..k + 1][..k] == ms[..k];
    Split(h, ScopeEvents(res, ms[..k]), MetricEvents(res, ms[k]));
  }

  lemma NothingInScope(h: Tracked, res: Attributes)
    ensures Absorb(h, ScopeEvents(res, [])) == h && ScopeResult(h, res, []) == []
  {
  }

  lemma ResourceStep(h: Tracked, res: Attributes, scopes: seq<seq<Metric>>, j: nat)
    requires j < |scopes|
    ensures var g := Absorb(h, ResourceEvents(res, scopes[..j]));
            Absorb(h, ResourceEvents(res, scopes[..j + 1])) == Absorb(g, ScopeEvents(res, scopes[j])) &&
            ResourceResult(h, res, scopes[..j + 1])
            == ResourceResult(h, res, scopes[..j]) + [ScopeResult(g, res, scopes[j])]
  {
    assert scopes[..j + 1][..j] == scopes[..j];
    Split(h, ResourceEvents(res, scopes[..j]), ScopeEvents(res, scopes[j]));
  }

  lemma BatchStep(h: Tracked, rms: seq<ResourceMetrics>, i: nat)
    requires i < |rms|
    ensures var g, rm := Absorb(h, BatchEvents(rms[..i])), rms[i];
            Absorb(h, BatchEvents(rms[..i + 1])) == Absorb(g, ResourceEvents(rm.resource, rm.scopes)) &&
            BatchResult(h, rms[..i + 1])
            == BatchResult(h, rms[..i]) + [rm.(scopes := ResourceResult(g, rm.resource, rm.scopes))]
  {
    assert rms[..i + 1][..i] == rms[..i];
    Split(h, BatchEvents(rms[..i]), ResourceEvents(rms[i].resource, rms[i].scopes));
  }

  // ------------------------------------------------------------------
  // The processor
  // ------------------------------------------------------------------

  /** The source's `startPoint`: reached through a pointer, its two points overwritten in place. */
  class StartPoint {
    var start: Point
    var last: Point

    constructor (p: Point)
      ensures start == p && last == p
    {
      start, last := p, p;
    }
  }

  class Processor {
    var history: map<Identifier, StartPoint>

    constructor ()
      ensures Valid() && State() == map[]
      ensures history == map[]
    {
      history := map[];
    }

    /** No two series share a start point. */
    ghost predicate Valid()
      reads this
    {
      forall i, j | i in history && j in history :: history[i] == history[j] ==> i == j
    }

    ghost function State(): Tracked
      reads this, history.Values
    {
      map id | id in history :: Series(history[id].start, history[id].last)
    }

    method ProcessSumDataPoint(dp: Point, resource: Attributes, name: string, ndps: seq<Point>)
      returns (out: seq<Point>)
      requires Valid()
      modifies this, history.Values
      ensures Valid() && fresh(history.Values - old(history.Values))
      ensures var e := EventOf(resource, name, dp);
              State() == Absorb(old(State()), [e]) &&
              out == ndps + PointsIn(Emissions(old(State()), [e]))
    {
      var id := Identifier(resource, name, dp.attrs);
      ghost var e := EventOf(resource, name, dp);
      ghost var h := State();
      OnePoint(h, e);
      hide Absorb, Emissions, Since, Fell;
      out := ndps;
      if id !in history {
        var s := new StartPoint(dp);
        history := history[id := s];
        return;
      }
      var s := history[id];
      assert s in history.Values;
      if dp.ts <= s.start.ts {
        assert State() == h[id := h[id]];
        return;
      }
      if Fell(s.last, dp) {
        s.start := dp;
        s.last := dp;
        return;
      }
      s.last := dp;
      out := out + [Since(s.start, dp)];
    }

    method ProcessMetric(resource: Attributes, metric: Metric) returns (keep: bool, metric': Metric)
      requires Valid() && IsMonotonicSum(metric)
      modifies this, history.Values
      ensures Valid() && fresh(history.Values - old(history.Values))
      ensures State() == Absorb(old(State()), MetricEvents(resource, metric))
      ensures (if keep then [metric'] else []) == MetricResult(old(State()), resource, metric)
    {
      keep, metric' := true, metric;
      var dps := metric.data.points;
      if |dps| == 0 || dps[0].startTs != 0 {
        return;
      }
      ghost var h := State();
      var out: seq<Point> := [];
      for i := 0 to |dps|
        invariant Valid() && fresh(history.Values - old(history.Values))
        invariant State() == Absorb(h, EventsOf(resource, metric.name, dps[..i]))
        invariant out == PointsIn(Emissions(h, EventsOf(resource, metric.name, dps[..i])))
      {
        out := ProcessSumDataPoint(dps[i], resource, metric.name, out);
        PointsStep(h, resource, metric.name, dps, i);
      }
      assert dps[..|dps|] == dps;
      if |out| > 0 {
        metric' := metric.WithPoints(out);
      } else {
        keep := false;
      }
    }

    /** The inner loop of `transformMetrics`, over one scope's metrics. */
    method TransformScope(resource: Attributes, ilm: seq<Metric>) returns (newSlice: seq<Metric>)
      requires Valid()
      modifies this, history.Values
      ensures Valid() && fresh(history.Values - old(history.Values))
      ensures State() == Absorb(old(State()), ScopeEvents(resource, ilm))
      ensures newSlice == ScopeResult(old(State()), resource, ilm)
    {
      hide Absorb, Emissions, MetricEvents, MetricResult, ScopeEvents, ScopeResult;
      ghost var h := State();
      newSlice := [];
      NothingInScope(h, resource);
      assert ilm[..0] == [];
      for k := 0 to |ilm|
        invariant Valid() && fresh(history.Values - old(history.Values))
        invariant State() == Absorb(h, ScopeEvents(resource, ilm[..k]))
        invariant newSlice == ScopeResult(h, resource, ilm[..k])
      {
        ScopeStep(h, resource, ilm, k);
        if IsMonotonicSum(ilm[k]) {
          var keep, metric := ProcessMetric(resource, ilm[k]);
          if keep {
            newSlice := newSlice + [metric];
          }
        } else {
          PassedThrough(State(), resource, ilm[k]);
          newSlice := newSlice + [ilm[k]];
        }
      }
      assert ilm[..|ilm|] == ilm;
    }

    method TransformMetrics(rm: ResourceMetrics) returns (rm': ResourceMetrics)
      requires Valid()
      modifies this, history.Values
      ensures Valid() && fresh(history.Values - old(history.Values))
      ensures State() == Absorb(old(State()), ResourceEvents(rm.resource, rm.scopes))
      ensures rm' == rm.(scopes := ResourceResult(old(State()), rm.resource, rm.scopes))
    {
      ghost var h := State();
      var scopes: seq<seq<Metric>> := [];
      for j := 0 to |rm.scopes|
        invariant Valid() && fresh(history.Values - old(history.Values))
        invariant State() == Absorb(h, ResourceEvents(rm.resource, rm.scopes[..j]))
        invariant scopes == ResourceResult(h, rm.resource, rm.scopes[..j])
      {
        var newSlice := TransformScope(rm.resource, rm.scopes[j]);
        ResourceStep(h, rm.resource, rm.scopes, j);
        scopes := scopes + [newSlice];
      }
      assert rm.scopes[..|rm.scopes|] == rm.scopes;
      rm' := rm.(scopes := scopes);
    }

    method ProcessMetrics(rms: seq<ResourceMetrics>) returns (rms': seq<ResourceMetrics>)
      requires Valid()
      modifies this, history.Values
      ensures Valid() && fresh(history.Values - old(history.Values))
      ensures State() == Absorb(old(State()), BatchEvents(rms))
      ensures rms' == BatchResult(old(State()), rms)
    {
      ghost var h := State();
      rms' := [];
      for i := 0 to |rms|
        invariant Valid() && fresh(history.Values - old(history.Values))
        invariant State() == Absorb(h, BatchEvents(rms[..i]))
        invariant rms' == BatchResult(h, rms[..i])
      {
        var rm := TransformMetrics(rms[i]);
        BatchStep(h, rms, i);
        rms' := rms' + [rm];
      }
      assert rms[..|rms|] == rms;
    }
  }
}
