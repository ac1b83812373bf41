/** The agent metrics processor: its stages in order, on one batch, with the state kept between batches. */
module AgentMetrics {
  import opened Go
  import opened Pdata
  import opened AgentStages
  import CombineProcessStage
  import SplitReadWrite
  import Utilizations
  import UtilizationStage
  import UtilizationRuns
  import AverageDisk
  import AverageDiskStage

  // ------------------------------------------------------------------
  // The utilization stage keeps what the first stages established
  // ------------------------------------------------------------------

  lemma {:induction false} UnvaluedMember(ps: seq<Point>, i: nat)
    requires i < |ps|
    ensures UtilizationRuns.Unvalued(ps[i]) in multiset(UtilizationRuns.AllUnvalued(ps))
  {
    UtilizationRuns.UnvaluedAt(ps, i);
    assert UtilizationRuns.AllUnvalued(ps)[i] in UtilizationRuns.AllUnvalued(ps);
  }

  lemma UnvaluedOrigin(ps: seq<Point>, p: Point) returns (i: nat)
    requires UtilizationRuns.Unvalued(p) in multiset(UtilizationRuns.AllUnvalued(ps))
    ensures i < |ps| && ps[i].attrs == p.attrs
  {
    i :| i < |ps| && UtilizationRuns.AllUnvalued(ps)[i] == UtilizationRuns.Unvalued(p);
    UtilizationRuns.UnvaluedAt(ps, i);
  }

  lemma {:induction false} StoredVersionless(prev: map<string, real>, ps: seq<Point>)
    requires AllVersionless(ps)
    ensures AllVersionless(UtilizationRuns.Stored(prev, ps))
  {
    hide Versionless, UtilizationStage.PointKey;
    if ps != [] {
      StoredVersionless(prev, ps[..|ps| - 1]);
    }
  }

  lemma UtilizationIsClean(prev: map<string, real>, m: Metric, u: Metric)
    requires CleanMetric(m) && UtilizationStage.IsUtilizationOf(prev, m, u)
    ensures CleanMetric(u)
  {
    UtilizationRuns.ReportedPoints(prev, m, u);
    StoredVersionless(prev, m.Points());
    hide UtilizationRuns.AllUnvalued, UtilizationRuns.Stored, UtilizationStage.IsUtilizationOf;
    var from := if m.name == Utilizations.CPU_TIME then UtilizationRuns.Stored(prev, m.Points()) else m.Points();
    assert AllVersionless(from);
    assert u.data.Gauge? by { GaugeOf(prev, m, u); }
    forall i | 0 <= i < |u.Points()| ensures Versionless(u.Points()[i]) {
      UnvaluedMember(u.Points(), i);
      var j := UnvaluedOrigin(from, u.Points()[i]);
      assert Versionless(from[j]);
    }
  }

  lemma GaugeOf(prev: map<string, real>, m: Metric, u: Metric)
    requires UtilizationStage.IsUtilizationOf(prev, m, u)
    ensures u.data.Gauge?
  {
    hide UtilizationStage.Usage, Utilizations.Shares;
  }

  lemma {:induction false} AppendedIsClean(c: UtilizationStage.Cpu, ms: seq<Metric>, added: seq<Metric>)
    requires CleanScope(ms) && UtilizationStage.AppendedFor(c, ms, added)
    ensures CleanScope(added)
  {
    hide CleanMetric, UtilizationStage.Step, UtilizationStage.IsUtilizationOf, Utilizations.HasUtilization;
    if ms != [] {
      var k := |ms| - 1;
      var before := UtilizationStage.Run(c, ms[..k]);
      if before.status.Going? && Utilizations.HasUtilization(ms[k].name) && UtilizationStage.Step(before, ms[k]).status.Going? {
        AppendedIsClean(c, ms[..k], added[..|added| - 1]);
        UtilizationIsClean(before.prev, ms[k], added[|added| - 1]);
      } else {
        AppendedIsClean(c, ms[..k], added);
      }
    }
  }

  lemma ScopeAppendedIsClean(c: UtilizationStage.Cpu, ms: seq<Metric>, ms': seq<Metric>)
    requires CleanScope(ms) && UtilizationStage.ScopeAppended(c, ms, ms')
    ensures CleanScope(ms')
  {
    hide CleanMetric, UtilizationStage.AppendedFor;
    AppendedIsClean(c, ms, ms'[|ms|..]);
    assert ms' == ms'[..|ms|] + ms'[|ms|..];
  }

  // ------------------------------------------------------------------
  // The average disk stage keeps it, and so does its memory
  // ------------------------------------------------------------------

  predicate VersionlessTime(op: AverageDisk.OpData) {
    op.time.Some? ==> Versionless(op.time.value)
  }

  /** No time point kept from earlier batches has a version. */
  predicate CleanMemory(prev: map<AverageDisk.OpKey, AverageDisk.OpData>) {
    forall key | key in prev :: VersionlessTime(prev[key])
  }

  predicate VersionlessReadings(rs: seq<AverageDisk.Reading>) {
    forall i | 0 <= i < |rs| :: Versionless(rs[i].point)
  }

  lemma {:induction false} PointReadingsVersionless(isTime: bool, ps: seq<Point>)
    requires AllVersionless(ps)
    ensures VersionlessReadings(AverageDisk.PointReadings(isTime, ps))
  {
    hide Versionless;
    if ps != [] {
      PointReadingsVersionless(isTime, ps[..|ps| - 1]);
    }
  }

  lemma {:induction false} ReadingsVersionless(ms: seq<Metric>)
    requires CleanScope(ms)
    ensures VersionlessReadings(AverageDisk.Readings(ms))
  {
    hide Versionless, AverageDisk.PointReadings, AverageDisk.IsDisk;
    if ms != [] {
      var m := ms[|ms| - 1];
      ReadingsVersionless(ms[..|ms| - 1]);
      assert CleanMetric(m);
      PointReadingsVersionless(m.name == AverageDisk.OP_TIME_NAME, m.Points());
    }
  }

  lemma {:induction false} LatestVersionless(op: AverageDisk.OpData, rs: seq<AverageDisk.Reading>, key: AverageDisk.OpKey)
    requires VersionlessTime(op) && VersionlessReadings(rs)
    ensures VersionlessTime(AverageDisk.Latest(op, rs, key))
  {
    hide Versionless, AverageDisk.KeyOfPoint;
    if rs != [] {
      LatestVersionless(op, rs[..|rs| - 1], key);
    }
  }

  lemma ObservedVersionless(prev: Option<AverageDisk.OpData>, rs: seq<AverageDisk.Reading>, key: AverageDisk.OpKey)
    requires VersionlessReadings(rs) && VersionlessTime(prev.GetOr(AverageDisk.ZERO))
    ensures VersionlessTime(AverageDisk.Observe(prev, rs, key).GetOr(AverageDisk.ZERO))
    ensures AllVersionless(AverageDisk.Emits(prev, rs, key))
  {
    hide AverageDisk.Latest, AverageDisk.Occurs, AverageDisk.Increment;
    LatestVersionless(prev.GetOr(AverageDisk.ZERO), rs, key);
  }

  lemma RememberedVersionless(prev: map<AverageDisk.OpKey, AverageDisk.OpData>, key: AverageDisk.OpKey)
    requires CleanMemory(prev)
    ensures VersionlessTime(AverageDisk.Look(prev, key).GetOr(AverageDisk.ZERO))
  {
  }

  lemma AfterScopeIsClean(prev: map<AverageDisk.OpKey, AverageDisk.OpData>, ms: seq<Metric>)
    requires CleanMemory(prev) && CleanScope(ms)
    ensures CleanMemory(AverageDisk.AfterScope(prev, ms))
  {
    ReadingsVersionless(ms);
    hide VersionlessTime, AverageDisk.Observe, AverageDisk.Readings;
    forall key | key in AverageDisk.AfterScope(prev, ms) ensures VersionlessTime(AverageDisk.AfterScope(prev, ms)[key]) {
      RememberedVersionless(prev, key);
      ObservedVersionless(AverageDisk.Look(prev, key), AverageDisk.Readings(ms), key);
    }
  }

  lemma {:induction false} AfterScopesIsClean(prev: map<AverageDisk.OpKey, AverageDisk.OpData>, scopes: seq<seq<Metric>>)
    requires CleanMemory(prev) && CleanScopes(scopes)
    ensures CleanMemory(AverageDiskStage.AfterScopes(prev, scopes))
  {
    hide CleanMemory, CleanScope, AverageDisk.AfterScope;
    if scopes != [] {
      var k := |scopes| - 1;
      AfterScopesIsClean(prev, scopes[..k]);
      AfterScopeIsClean(AverageDiskStage.AfterScopes(prev, scopes[..k]), scopes[k]);
    }
  }

  lemma {:induction false} OfKeyHas(ps: seq<Point>, i: nat)
    requires i < |ps|
    ensures ps[i] in AverageDisk.OfKey(ps, AverageDisk.KeyOfPoint(ps[i]))
  {
    hide AverageDisk.KeyOfPoint;
    if i < |ps| - 1 {
      OfKeyHas(ps[..|ps| - 1], i);
    }
  }

  lemma ReportedVersionless(prev: map<AverageDisk.OpKey, AverageDisk.OpData>, ms: seq<Metric>, ps: seq<Point>)
    requires CleanMemory(prev) && CleanScope(ms) && AverageDisk.ReportsAll(prev, ms, ps)
    ensures AllVersionless(ps)
  {
    ReadingsVersionless(ms);
    hide Versionless, AverageDisk.Emits, AverageDisk.Readings, AverageDisk.OfKey, AverageDisk.KeyOfPoint;
    forall i | 0 <= i < |ps| ensures Versionless(ps[i]) {
      var key := AverageDisk.KeyOfPoint(ps[i]);
      OfKeyHas(ps, i);
      RememberedVersionless(prev, key);
      ObservedVersionless(AverageDisk.Look(prev, key), AverageDisk.Readings(ms), key);
    }
  }

  lemma AveragedIsClean(prev: map<AverageDisk.OpKey, AverageDisk.OpData>, ms: seq<Metric>, out: seq<Metric>)
    requires CleanMemory(prev) && CleanScope(ms) && AverageDisk.ScopeAveraged(prev, ms, out)
    ensures CleanScope(out)
  {
    hide AverageDisk.ReportsAll, AverageDisk.TimeMetric;
    if out != ms {
      var u := out[|ms|];
      ReportedVersionless(prev, ms, u.Points());
      AverageDiskStage.TimeMetricIs(ms);
      assert CleanMetric(AverageDisk.TimeMetric(ms).value);
      assert CleanMetric(u);
      assert forall k | 0 <= k < |ms| :: out[k] == out[..|ms|][k];
      hide CleanMetric;
    }
  }

  // ------------------------------------------------------------------
  // The stages as relations on the scopes of a batch
  // ------------------------------------------------------------------

  ghost predicate SplitScopes(scopes: seq<seq<Metric>>, scopes': seq<seq<Metric>>) {
    |scopes'| == |scopes|
    && forall n | 0 <= n < |scopes| ::
         scopes'[n] == if SplitReadWrite.AllScopesSplit(scopes[..n]) then SplitReadWrite.Split(scopes[n]) else scopes[n]
  }

  ghost predicate UtilizationAppended(c: UtilizationStage.Cpu, scopes: seq<seq<Metric>>, scopes': seq<seq<Metric>>) {
    |scopes'| == |scopes|
    && forall n | 0 <= n < |scopes| ::
         UtilizationStage.ScopeAppended(UtilizationStage.RunScopes(c, scopes[..n]), scopes[n], scopes'[n])
  }

  ghost predicate Averaged(prev: map<AverageDisk.OpKey, AverageDisk.OpData>, scopes: seq<seq<Metric>>,
      scopes': seq<seq<Metric>>) {
    |scopes'| == |scopes|
    && forall n | 0 <= n < |scopes| ::
         AverageDisk.ScopeAveraged(AverageDiskStage.AfterScopes(prev, scopes[..n]), scopes[n], scopes'[n])
  }

  /** Every point of a configured metric carries an empty label "blank". */
  predicate Blanked(names: seq<string>, scopes: seq<seq<Metric>>) {
    forall n | 0 <= n < |scopes| :: forall k | 0 <= k < |scopes[n]| && scopes[n][k].name in names ::
      AllBlank(scopes[n][k].Points())
  }

  ghost predicate BlankAdded(names: seq<string>, scopes: seq<seq<Metric>>, scopes': seq<seq<Metric>>) {
    |scopes'| == |scopes|
    && forall n | 0 <= n < |scopes| ::
         |scopes'[n]| == |scopes[n]|
         && forall k | 0 <= k < |scopes[n]| :: scopes'[n][k] == AddBlankLabel(names, scopes[n][k])
  }

  /** The first two stages: no Sum that is not monotonic, then no version label. */
  ghost predicate FirstStages(scopes: seq<seq<Metric>>, scopes': seq<seq<Metric>>) {
    exists gauged :: Mapped(ToGauge, scopes, gauged) && AllNumeric(gauged) && Mapped(WithoutVersion, gauged, scopes')
  }

  lemma FirstStagesAre(scopes: seq<seq<Metric>>, gauged: seq<seq<Metric>>, scopes': seq<seq<Metric>>)
    requires Mapped(ToGauge, scopes, gauged) && AllNumeric(gauged) && Mapped(WithoutVersion, gauged, scopes')
    ensures FirstStages(scopes, scopes') && CleanScopes(scopes')
  {
    FirstStagesClean(scopes, gauged, scopes');
  }

  lemma SplitScopesClean(scopes: seq<seq<Metric>>, scopes': seq<seq<Metric>>)
    requires CleanScopes(scopes) && |scopes'| == |scopes|
    requires forall n | 0 <= n < |scopes| ::
      scopes'[n] == if SplitReadWrite.AllScopesSplit(scopes[..n]) then SplitReadWrite.Split(scopes[n]) else scopes[n]
    ensures SplitScopes(scopes, scopes') && CleanScopes(scopes')
  {
    hide CleanScope, SplitReadWrite.Split, SplitReadWrite.AllScopesSplit;
    forall n | 0 <= n < |scopes'| ensures CleanScope(scopes'[n]) {
      SplitKeepsClean(scopes[n]);
    }
  }

  lemma UtilizationAppendedClean(c: UtilizationStage.Cpu, scopes: seq<seq<Metric>>, scopes': seq<seq<Metric>>)
    requires CleanScopes(scopes) && |scopes'| == |scopes|
    requires forall n | 0 <= n < |scopes| ::
      UtilizationStage.ScopeAppended(UtilizationStage.RunScopes(c, scopes[..n]), scopes[n], scopes'[n])
    ensures UtilizationAppended(c, scopes, scopes') && CleanScopes(scopes')
  {
    hide CleanScope, UtilizationStage.RunScopes, UtilizationStage.ScopeAppended;
    forall n | 0 <= n < |scopes'| ensures CleanScope(scopes'[n]) {
      ScopeAppendedIsClean(UtilizationStage.RunScopes(c, scopes[..n]), scopes[n], scopes'[n]);
    }
  }

  lemma CpuCleanedClean(scopes: seq<seq<Metric>>, scopes': seq<seq<Metric>>)
    requires CleanScopes(scopes) && Mapped(CleanCpuNumber, scopes, scopes')
    ensures CleanScopes(scopes')
  {
    hide CleanMetric, MapMetrics;
    forall n | 0 <= n < |scopes'| ensures CleanScope(scopes'[n]) {
      assert CleanScope(scopes[n]);
      forall k | 0 <= k < |scopes'[n]| ensures CleanMetric(scopes'[n][k]) {
        CpuCleanKeeps(scopes[n][k]);
      }
    }
  }

  lemma AveragedClean(prev: map<AverageDisk.OpKey, AverageDisk.OpData>, scopes: seq<seq<Metric>>,
      scopes': seq<seq<Metric>>)
    requires CleanMemory(prev) && CleanScopes(scopes) && |scopes'| == |scopes|
    requires forall n | 0 <= n < |scopes| ::
      AverageDisk.ScopeAveraged(AverageDiskStage.AfterScopes(prev, scopes[..n]), scopes[n], scopes'[n])
    ensures Averaged(prev, scopes, scopes') && CleanScopes(scopes') && CleanMemory(AverageDiskStage.AfterScopes(prev, scopes))
  {
    hide CleanScope, CleanMemory, AverageDiskStage.AfterScopes, AverageDisk.ScopeAveraged;
    AfterScopesIsClean(prev, scopes);
    forall n | 0 <= n < |scopes'| ensures CleanScope(scopes'[n]) {
      AfterScopesIsClean(prev, scopes[..n]);
      AveragedIsClean(AverageDiskStage.AfterScopes(prev, scopes[..n]), scopes[n], scopes'[n]);
    }
  }

  lemma BlankedClean(names: seq<string>, f: Metric -> Metric, scopes: seq<seq<Metric>>, scopes': seq<seq<Metric>>)
    requires forall m :: f(m) == AddBlankLabel(names, m)
    requires CleanScopes(scopes) && Mapped(f, scopes, scopes')
    ensures BlankAdded(names, scopes, scopes') && CleanScopes(scopes') && Blanked(names, scopes')
  {
    hide CleanMetric, MapMetrics, AllBlank, AddBlankLabel;
    forall n | 0 <= n < |scopes'|
      ensures CleanScope(scopes'[n])
      ensures forall k | 0 <= k < |scopes'[n]| && scopes'[n][k].name in names :: AllBlank(scopes'[n][k].Points())
    {
      assert CleanScope(scopes[n]);
      forall k | 0 <= k < |scopes'[n]|
        ensures CleanMetric(scopes'[n][k]) && (scopes'[n][k].name in names ==> AllBlank(scopes'[n][k].Points()))
      {
        BlankKeeps(names, scopes[n][k]);
      }
    }
  }

  // ------------------------------------------------------------------
  // The processor
  // ------------------------------------------------------------------

  datatype Stage = Combining | Splitting | Utilization

  /** The errors a call returned, or a panic. */
  datatype Outcome = Returned(errors: seq<Stage>) | Crashed

  /** What the stages did in between: the batch's resources before the third, and after the third to the seventh. */
  datatype Trace = Trace(
    versionless: seq<ResourceMetrics>,
    combined: seq<ResourceMetrics>,
    split: seq<ResourceMetrics>,
    utilized: seq<ResourceMetrics>,
    cpuCleaned: seq<ResourceMetrics>,
    averaged: seq<ResourceMetrics>)

  /** An error of the combining stage still leaves a batch for the stages that follow. */
  ghost predicate CombineStep(rms: seq<ResourceMetrics>, rms': seq<ResourceMetrics>) {
    match CombineProcessStage.CombineStatus(rms)
    case Going => CombineProcessStage.Combined(rms, rms')
    case Failed =>
      SameShape(rms, rms') && CombineProcessStage.BatchLeft(Scopes(rms), CombineProcessStage.Owners(rms), Scopes(rms'))
    case Panicked => false
  }

  lemma CombineStepClean(rms: seq<ResourceMetrics>, rms': seq<ResourceMetrics>)
    requires CleanScopes(Scopes(rms))
    requires CombineProcessStage.CombineStatus(rms).Going? ==> CombineProcessStage.Combined(rms, rms')
    requires CombineProcessStage.CombineStatus(rms).Failed? ==>
               CombineProcessStage.BatchLeft(Scopes(rms), CombineProcessStage.Owners(rms), Scopes(rms'))
    requires CombineProcessStage.CombineStatus(rms).Failed? ==>
               |Scopes(rms')| == |Scopes(rms)| && rms' == WithScopes(rms, Scopes(rms'))
    requires !CombineProcessStage.CombineStatus(rms).Panicked?
    ensures CombineStep(rms, rms') && CleanScopes(Scopes(rms'))
  {
    hide CleanScopes, SameShape, Scopes, WithScopes;
    hide CombineProcessStage.Combined, CombineProcessStage.BatchLeft, CombineProcessStage.CombineStatus;
    match CombineProcessStage.CombineStatus(rms)
    case Going => CombinedIsClean(rms, rms');
    case Failed =>
      OwnShape(rms);
      KeepsShape(rms, rms, rms');
      BatchLeftIsClean(Scopes(rms), CombineProcessStage.Owners(rms), Scopes(rms'));
  }

  ghost predicate ReachedUtilization(rms: seq<ResourceMetrics>, t: Trace) {
    && SameShape(rms, t.versionless) && FirstStages(Scopes(rms), Scopes(t.versionless))
    && CombineStep(t.versionless, t.combined)
    && SplitScopes(Scopes(t.combined), Scopes(t.split))
  }

  ghost predicate ReachedAveraging(rms: seq<ResourceMetrics>, c: UtilizationStage.Cpu, t: Trace) {
    && ReachedUtilization(rms, t)
    && !UtilizationStage.RunScopes(c, Scopes(t.split)).status.Panicked?
    && UtilizationAppended(c, Scopes(t.split), Scopes(t.utilized))
    && Mapped(CleanCpuNumber, Scopes(t.utilized), Scopes(t.cpuCleaned))
  }

  /** All stages ran, each on what the one before it left. */
  ghost predicate RanAll(rms: seq<ResourceMetrics>, c: UtilizationStage.Cpu,
      prevOp: map<AverageDisk.OpKey, AverageDisk.OpData>, names: seq<string>, t: Trace, rms': seq<ResourceMetrics>) {
    && ReachedAveraging(rms, c, t)
    && !AverageDiskStage.SomeScopePanics(prevOp, Scopes(t.cpuCleaned))
    && Averaged(prevOp, Scopes(t.cpuCleaned), Scopes(t.averaged))
    && SameShape(t.combined, rms') && BlankAdded(names, Scopes(t.averaged), Scopes(rms'))
  }

  /** One of the four stages that can panic did, on what the stages before it left. */
  ghost predicate SomeStagePanicked(rms: seq<ResourceMetrics>, c: UtilizationStage.Cpu,
      prevOp: map<AverageDisk.OpKey, AverageDisk.OpData>, t: Trace) {
    || (exists gauged :: Mapped(ToGauge, Scopes(rms), gauged) && !AllNumeric(gauged))
    || (SameShape(rms, t.versionless) && FirstStages(Scopes(rms), Scopes(t.versionless))
        && CombineProcessStage.CombineStatus(t.versionless).Panicked?)
    || (ReachedUtilization(rms, t) && UtilizationStage.RunScopes(c, Scopes(t.split)).status.Panicked?)
    || (ReachedAveraging(rms, c, t) && AverageDiskStage.SomeScopePanics(prevOp, Scopes(t.cpuCleaned)))
  }

  lemma VersionPanics(rms: seq<ResourceMetrics>, gauged: seq<seq<Metric>>, c: UtilizationStage.Cpu,
      prevOp: map<AverageDisk.OpKey, AverageDisk.OpData>, t: Trace)
    requires Mapped(ToGauge, Scopes(rms), gauged) && !AllNumeric(gauged)
    ensures SomeStagePanicked(rms, c, prevOp, t)
  {
  }

  lemma LaterPanics(rms: seq<ResourceMetrics>, c: UtilizationStage.Cpu,
      prevOp: map<AverageDisk.OpKey, AverageDisk.OpData>, t: Trace)
    requires
      || (SameShape(rms, t.versionless) && FirstStages(Scopes(rms), Scopes(t.versionless))
          && CombineProcessStage.CombineStatus(t.versionless).Panicked?)
      || (ReachedUtilization(rms, t) && UtilizationStage.RunScopes(c, Scopes(t.split)).status.Panicked?)
      || (ReachedAveraging(rms, c, t) && AverageDiskStage.SomeScopePanics(prevOp, Scopes(t.cpuCleaned)))
    ensures SomeStagePanicked(rms, c, prevOp, t)
  {
    hide ReachedUtilization, ReachedAveraging, FirstStages, AverageDiskStage.SomeScopePanics, Mapped, SameShape;
  }

  /** The same resources, each with as many scopes. */
  ghost predicate SameShape(a: seq<ResourceMetrics>, b: seq<ResourceMetrics>) {
    |a| == |b| && forall i | 0 <= i < |a| :: a[i].resource == b[i].resource && |a[i].scopes| == |b[i].scopes|
  }

  lemma KeepsShape(a: seq<ResourceMetrics>, b: seq<ResourceMetrics>, c: seq<ResourceMetrics>)
    requires SameShape(a, b) && |Scopes(c)| == |Scopes(b)| && c == WithScopes(b, Scopes(c))
    ensures SameShape(a, c)
  {
    hide Scopes, WithScopes;
    forall i | 0 <= i < |b| ensures c[i].resource == b[i].resource && |c[i].scopes| == |b[i].scopes| {
      ShapeOfWithScopes(b, Scopes(c), i);
    }
  }

  lemma MappedKeepsShape(f: Metric -> Metric, a: seq<ResourceMetrics>, b: seq<ResourceMetrics>, c: seq<ResourceMetrics>)
    requires SameShape(a, b) && Mapped(f, Scopes(b), Scopes(c)) && c == WithScopes(b, Scopes(c))
    ensures SameShape(a, c)
  {
    KeepsShape(a, b, c);
  }

  lemma OwnShape(a: seq<ResourceMetrics>)
    ensures SameShape(a, a)
  {
  }

  lemma AtUtilization(rms: seq<ResourceMetrics>, t: Trace)
    requires SameShape(rms, t.versionless) && FirstStages(Scopes(rms), Scopes(t.versionless))
    requires CombineStep(t.versionless, t.combined)
    requires SplitScopes(Scopes(t.combined), Scopes(t.split))
    ensures ReachedUtilization(rms, t)
  {
  }

  lemma AtAveraging(rms: seq<ResourceMetrics>, c: UtilizationStage.Cpu, t: Trace)
    requires ReachedUtilization(rms, t) && !UtilizationStage.RunScopes(c, Scopes(t.split)).status.Panicked?
    requires UtilizationAppended(c, Scopes(t.split), Scopes(t.utilized))
    requires Mapped(CleanCpuNumber, Scopes(t.utilized), Scopes(t.cpuCleaned))
    ensures ReachedAveraging(rms, c, t)
  {
  }

  lemma AtEnd(rms: seq<ResourceMetrics>, c: UtilizationStage.Cpu, prevOp: map<AverageDisk.OpKey, AverageDisk.OpData>,
      names: seq<string>, t: Trace, rms': seq<ResourceMetrics>)
    requires ReachedAveraging(rms, c, t) && !AverageDiskStage.SomeScopePanics(prevOp, Scopes(t.cpuCleaned))
    requires Averaged(prevOp, Scopes(t.cpuCleaned), Scopes(t.averaged))
    requires SameShape(t.combined, rms') && BlankAdded(names, Scopes(t.averaged), Scopes(rms'))
    ensures RanAll(rms, c, prevOp, names, t, rms')
  {
  }

  class Processor {
    const blankLabelMetrics: seq<string>
    const cpuTimes: UtilizationStage.CpuTimes
    const diskOps: AverageDiskStage.DiskOps

    ghost predicate Valid()
      reads this, diskOps
    {
      diskOps.Valid() && CleanMemory(diskOps.prevOp)
    }

    constructor (blankLabelMetrics: seq<string>)
      ensures Valid() && this.blankLabelMetrics == blankLabelMetrics && fresh(cpuTimes) && fresh(diskOps)
      ensures cpuTimes.prevCPUTimeValues == map[] && diskOps.prevOp == map[]
    {
      this.blankLabelMetrics := blankLabelMetrics;
      cpuTimes := new UtilizationStage.CpuTimes();
      diskOps := new AverageDiskStage.DiskOps();
    }

    /**
     One call. The stages run in this order whatever errors there were before, each on what the one before it left;
     an error ends only its own stage. Whatever the errors, afterwards no Sum is non-monotonic, no point has a
     version, and every point of a configured metric, appended ones too, is blank-labelled.
     */
    method ProcessMetrics(batch: Batch) returns (outcome: Outcome, ghost t: Trace)
      requires Valid()
      modifies batch, cpuTimes, diskOps
      ensures outcome.Returned? ==> Valid()
      ensures outcome.Returned? ==> CleanScopes(Scopes(batch.rms)) && Blanked(blankLabelMetrics, Scopes(batch.rms))
      ensures outcome.Returned? ==>
                RanAll(old(batch.rms), UtilizationStage.Cpu(old(cpuTimes.prevCPUTimeValues), Going), old(diskOps.prevOp),
                       blankLabelMetrics, t, batch.rms)
      ensures outcome.Returned? ==> SameShape(old(batch.rms), t.versionless) && SameShape(t.combined, batch.rms)
      ensures outcome.Crashed? ==>
                SomeStagePanicked(old(batch.rms), UtilizationStage.Cpu(old(cpuTimes.prevCPUTimeValues), Going),
                                  old(diskOps.prevOp), t)
      ensures outcome.Returned? ==>
                && var cpu := UtilizationStage.RunScopes(UtilizationStage.Cpu(old(cpuTimes.prevCPUTimeValues), Going),
                                                         Scopes(t.split));
                && cpuTimes.prevCPUTimeValues == cpu.prev
                && diskOps.prevOp == AverageDiskStage.AfterScopes(old(diskOps.prevOp), Scopes(t.cpuCleaned))
                && outcome.errors == (if CombineProcessStage.CombineStatus(t.versionless).Failed? then [Combining] else [])
                     + (if SplitReadWrite.AllScopesSplit(Scopes(t.combined)) then [] else [Splitting])
                     + (if cpu.status.Failed? then [Utilization] else [])
    {
      hide *;
      ValidIs();
      t := Trace([], [], [], [], [], []);
      ghost var prevOp := diskOps.prevOp;
      ghost var cpu := UtilizationStage.Cpu(cpuTimes.prevCPUTimeValues, Going);
      OwnShape(batch.rms);
      ForEachMetric(batch, ToGauge);
      ghost var gaugedRms := batch.rms;
      MappedKeepsShape(ToGauge, old(batch.rms), old(batch.rms), gaugedRms);
      ghost var gauged := Scopes(batch.rms);
      var s := RemoveVersionAttribute(batch);
      if s.Panicked? {
        VersionPanics(old(batch.rms), gauged, cpu, prevOp, t);
        return Crashed, t;
      }
      t := t.(versionless := batch.rms);
      MappedKeepsShape(WithoutVersion, old(batch.rms), gaugedRms, t.versionless);
      FirstStagesAre(Scopes(old(batch.rms)), gauged, Scopes(batch.rms));

      var errors: seq<Stage> := [];
      s := CombineProcessStage.CombineProcessMetrics(batch);
      if s.Panicked? {
        LaterPanics(old(batch.rms), cpu, prevOp, t);
        return Crashed, t;
      }
      if s.Failed? {
        errors := errors + [Combining];
      }
      t := t.(combined := batch.rms);
      OwnShape(t.combined);
      CombineStepClean(t.versionless, t.combined);

      s := SplitReadWrite.SplitReadWriteBytesMetrics(batch);
      if s.Failed? {
        errors := errors + [Splitting];
      }
      t := t.(split := batch.rms);
      KeepsShape(t.combined, t.combined, t.split);
      SplitScopesClean(Scopes(t.combined), Scopes(t.split));

      AtUtilization(old(batch.rms), t);
      s := cpuTimes.AppendUtilizationMetrics(batch);
      if s.Panicked? {
        LaterPanics(old(batch.rms), cpu, prevOp, t);
        return Crashed, t;
      }
      if s.Failed? {
        errors := errors + [Utilization];
      }
      t := t.(utilized := batch.rms);
      KeepsShape(t.combined, t.split, t.utilized);
      UtilizationAppendedClean(cpu, Scopes(t.split), Scopes(t.utilized));

      ForEachMetric(batch, CleanCpuNumber);
      t := t.(cpuCleaned := batch.rms);
      MappedKeepsShape(CleanCpuNumber, t.combined, t.utilized, t.cpuCleaned);
      CpuCleanedClean(Scopes(t.utilized), Scopes(t.cpuCleaned));

      AtAveraging(old(batch.rms), cpu, t);
      s := diskOps.AppendAverageDiskMetrics(batch);
      if s.Panicked? {
        LaterPanics(old(batch.rms), cpu, prevOp, t);
        return Crashed, t;
      }
      t := t.(averaged := batch.rms);
      KeepsShape(t.combined, t.cpuCleaned, t.averaged);
      AveragedClean(prevOp, Scopes(t.cpuCleaned), Scopes(t.averaged));

      var names := blankLabelMetrics;
      var f := m => AddBlankLabel(names, m);
      ForEachMetric(batch, f);
      MappedKeepsShape(f, t.combined, t.averaged, batch.rms);
      BlankedClean(names, f, Scopes(t.averaged), Scopes(batch.rms));
      AtEnd(old(batch.rms), cpu, prevOp, names, t, batch.rms);
      ValidIs();
      outcome := Returned(errors);
    }

    lemma ValidIs()
      ensures Valid() <==> diskOps.Valid() && CleanMemory(diskOps.prevOp)
    {
    }
  }
}
