/** On a supported batch all stages run: none of the conditions under which one of them panics can be met. */
module AgentSupportStages {
  import opened Go
  import opened Pdata
  import opened AgentStages
  import opened AgentMetrics
  import opened AgentSupport
  import SplitReadWrite
  import Utilizations
  import UtilizationStage
  import AverageDisk
  import AverageDiskStage
  import AverageDiskRuns

  // ------------------------------------------------------------------
  // The split
  // ------------------------------------------------------------------

  lemma HalfIsNeutral(m: Metric, direction: string)
    requires SplitReadWrite.IsSplit(m.name) && SplitReadWrite.CanSplit(m)
    requires direction == SplitReadWrite.READ || direction == SplitReadWrite.WRITE
    ensures Neutral(m) && Neutral(SplitReadWrite.Half(m, direction))
  {
    SplitReadWrite.HalfIsNoTrigger(m, direction);
    hide SplitReadWrite.Half, SplitReadWrite.CanSplit;
    var name := SplitReadWrite.Half(m, direction).name;
    assert name[|name| - 1] == 'o';
  }

  lemma ShapedIsKept(m: Metric)
    requires Shaped(m)
    ensures MetricKept(m, m)
  {
  }

  lemma NeutralIsKept(m: Metric, m': Metric)
    requires Neutral(m) && Neutral(m')
    ensures MetricKept(m, m')
  {
    NeutralIsShaped(m');
  }

  lemma {:induction false} OverwrittenIsKept(ms: seq<Metric>)
    requires AllShaped(ms)
    ensures ScopeKept(ms, SplitReadWrite.Overwritten(ms))
  {
    hide Shaped, MetricKept, SplitReadWrite.Half, SplitReadWrite.CanSplit, SplitReadWrite.IsSplit;
    if ms != [] {
      var k := |ms| - 1;
      OverwrittenIsKept(ms[..k]);
      if SplitReadWrite.AllSplit(ms) && SplitReadWrite.IsSplit(ms[k].name) {
        HalfIsNeutral(ms[k], SplitReadWrite.READ);
        NeutralIsKept(ms[k], SplitReadWrite.Half(ms[k], SplitReadWrite.READ));
      } else {
        ShapedIsKept(ms[k]);
      }
    }
  }

  lemma {:induction false} WriteHalvesAreNeutral(ms: seq<Metric>)
    ensures AllShaped(SplitReadWrite.WriteHalves(ms)) && NoDisk(SplitReadWrite.WriteHalves(ms))
  {
    hide Shaped, SplitReadWrite.Half, SplitReadWrite.CanSplit, SplitReadWrite.IsSplit;
    if ms != [] {
      var k := |ms| - 1;
      WriteHalvesAreNeutral(ms[..k]);
      if SplitReadWrite.AllSplit(ms) && SplitReadWrite.IsSplit(ms[k].name) {
        HalfIsNeutral(ms[k], SplitReadWrite.WRITE);
        NeutralIsShaped(SplitReadWrite.Half(ms[k], SplitReadWrite.WRITE));
      }
    }
  }

  lemma SplitIsGood(scopes: seq<seq<Metric>>, scopes': seq<seq<Metric>>)
    requires GoodScopes(scopes) && SplitScopes(scopes, scopes')
    ensures GoodScopes(scopes')
  {
    hide AllShaped, BothDisk, NoDisk, ScopeKept, SplitReadWrite.AllScopesSplit;
    hide SplitReadWrite.Overwritten, SplitReadWrite.WriteHalves;
    forall n | 0 <= n < |scopes'| ensures Good(scopes'[n]) {
      assert Good(scopes[n]);
      OverwrittenIsKept(scopes[n]);
      WriteHalvesAreNeutral(scopes[n]);
      GoodKept(scopes[n], SplitReadWrite.Overwritten(scopes[n]));
      GoodAppended(SplitReadWrite.Overwritten(scopes[n]), SplitReadWrite.WriteHalves(scopes[n]));
    }
  }

  // ------------------------------------------------------------------
  // Utilization
  // ------------------------------------------------------------------

  lemma {:induction false} GroupingNeverPanics(ps: seq<Point>)
    requires forall i | 0 <= i < |ps| :: ps[i].attrs != map[]
    ensures !Utilizations.GroupingStatus(ps).Panicked?
  {
    if ps != [] {
      GroupingNeverPanics(ps[..|ps| - 1]);
    }
  }

  lemma {:induction false} DeltasAreLabelled(prev: map<string, real>, ps: seq<Point>)
    requires AllOwnLabels(ps)
    ensures AllOwnLabels(UtilizationStage.Deltas(prev, ps))
  {
    hide UtilizationStage.PointKey;
    if ps != [] {
      DeltasAreLabelled(prev, ps[..|ps| - 1]);
      assert HasOwnLabel(ps[|ps| - 1]);
    }
  }

  lemma MetricNeverPanics(prev: map<string, real>, m: Metric)
    requires Shaped(m) && Utilizations.HasUtilization(m.name)
    ensures !UtilizationStage.MetricStatus(prev, m).Panicked?
  {
    DeltasAreLabelled(prev, m.Points());
    var usage := UtilizationStage.Usage(prev, m);
    assert forall i | 0 <= i < |usage| :: HasOwnLabel(usage[i]);
    hide UtilizationStage.Deltas, AverageDisk.IsDisk, Utilizations.GroupingStatus;
    GroupingNeverPanics(usage);
  }

  lemma {:induction false} RunNeverPanics(c: UtilizationStage.Cpu, ms: seq<Metric>)
    requires AllShaped(ms) && !c.status.Panicked?
    ensures !UtilizationStage.Run(c, ms).status.Panicked?
  {
    hide Shaped, Utilizations.HasUtilization, UtilizationStage.MetricStatus, UtilizationStage.PointValues;
    if ms != [] {
      var k := |ms| - 1;
      RunNeverPanics(c, ms[..k]);
      var before := UtilizationStage.Run(c, ms[..k]);
      if Utilizations.HasUtilization(ms[k].name) {
        MetricNeverPanics(before.prev, ms[k]);
      }
    }
  }

  lemma {:induction false} ScopesNeverPanic(c: UtilizationStage.Cpu, scopes: seq<seq<Metric>>)
    requires GoodScopes(scopes) && !c.status.Panicked?
    ensures !UtilizationStage.RunScopes(c, scopes).status.Panicked?
  {
    hide AllShaped, BothDisk, UtilizationStage.Run;
    if scopes != [] {
      var k := |scopes| - 1;
      ScopesNeverPanic(c, scopes[..k]);
      assert Good(scopes[k]);
      RunNeverPanics(UtilizationStage.RunScopes(c, scopes[..k]), scopes[k]);
    }
  }

  lemma UtilizationIsNeutral(prev: map<string, real>, m: Metric, u: Metric)
    requires UtilizationStage.IsUtilizationOf(prev, m, u)
    ensures Neutral(u)
  {
    UtilizationStage.UtilizationIsNoTrigger(prev, m, u);
    hide StemLength, UtilizationStage.Usage, Utilizations.Shares;
    assert u.name[|u.name| - 1] == 'n';
  }

  lemma {:induction false} AppendedAreNeutral(c: UtilizationStage.Cpu, ms: seq<Metric>, added: seq<Metric>)
    requires UtilizationStage.AppendedFor(c, ms, added)
    ensures AllShaped(added) && NoDisk(added)
  {
    hide Shaped, UtilizationStage.Step, UtilizationStage.IsUtilizationOf, Utilizations.HasUtilization;
    if ms != [] {
      var k := |ms| - 1;
      var before := UtilizationStage.Run(c, ms[..k]);
      if before.status.Going? && Utilizations.HasUtilization(ms[k].name)
         && UtilizationStage.Step(before, ms[k]).status.Going? {
        var u := added[|added| - 1];
        AppendedAreNeutral(c, ms[..k], added[..|added| - 1]);
        UtilizationIsNeutral(before.prev, ms[k], u);
        NeutralIsShaped(u);
      } else {
        AppendedAreNeutral(c, ms[..k], added);
      }
    }
  }

  lemma UtilizationIsGood(c: UtilizationStage.Cpu, scopes: seq<seq<Metric>>, scopes': seq<seq<Metric>>)
    requires GoodScopes(scopes) && UtilizationAppended(c, scopes, scopes')
    ensures GoodScopes(scopes')
  {
    hide Good, AllShaped, NoDisk, UtilizationStage.RunScopes, UtilizationStage.AppendedFor;
    forall n | 0 <= n < |scopes'| ensures Good(scopes'[n]) {
      var c' := UtilizationStage.RunScopes(c, scopes[..n]);
      var ms, ms' := scopes[n], scopes'[n];
      assert UtilizationStage.ScopeAppended(c', ms, ms');
      AppendedAreNeutral(c', ms, ms'[|ms|..]);
      GoodAppended(ms, ms'[|ms|..]);
      assert ms' == ms + ms'[|ms|..];
    }
  }

  lemma CpuCleanedKept(m: Metric)
    requires Shaped(m)
    ensures MetricKept(m, CleanCpuNumber(m))
  {
    hide MapLabels, TrimPrefix, Shaped;
    assert PointsKept(m.Points(), CleanCpuNumber(m).Points());
    assert (m.name == Utilizations.CPU_TIME || AverageDisk.IsDisk(m)) && Shaped(m) ==> m.data.Sum? by {
      ShapedSums(m);
    }
    RewrittenIsKept(m, CleanCpuNumber(m));
  }

  lemma ShapedSums(m: Metric)
    requires Shaped(m)
    ensures m.name == Utilizations.CPU_TIME || AverageDisk.IsDisk(m) ==> m.data.Sum?
  {
  }

  lemma CpuCleanedIsGood(scopes: seq<seq<Metric>>, scopes': seq<seq<Metric>>)
    requires GoodScopes(scopes) && Mapped(CleanCpuNumber, scopes, scopes')
    ensures GoodScopes(scopes')
  {
    hide Shaped, BothDisk, MetricKept, MapMetrics, CleanCpuNumber;
    forall n | 0 <= n < |scopes'| ensures Good(scopes'[n]) {
      assert Good(scopes[n]) && scopes'[n] == MapMetrics(scopes[n], CleanCpuNumber);
      forall k | 0 <= k < |scopes[n]| ensures MetricKept(scopes[n][k], scopes'[n][k]) {
        CpuCleanedKept(scopes[n][k]);
      }
      GoodKept(scopes[n], scopes'[n]);
    }
  }

  // ------------------------------------------------------------------
  // Average disk time
  // ------------------------------------------------------------------

  lemma {:induction false} PointReadingsHave(isTime: bool, ps: seq<Point>, i: nat)
    requires i < |ps|
    ensures AverageDisk.PointReadings(isTime, ps)[i] == AverageDisk.Reading(isTime, ps[i])
  {
    if i < |ps| - 1 {
      PointReadingsHave(isTime, ps[..|ps| - 1], i);
    }
  }

  function NameOf(isTime: bool): string {
    if isTime then AverageDisk.OP_TIME_NAME else AverageDisk.OP_NAME
  }

  lemma HasInBoth(a: seq<AverageDisk.Reading>, b: seq<AverageDisk.Reading>, isTime: bool, key: AverageDisk.OpKey)
    ensures AverageDiskRuns.Has(a + b, isTime, key) <==> AverageDiskRuns.Has(a, isTime, key) || AverageDiskRuns.Has(b, isTime, key)
  {
    hide AverageDisk.KeyOfPoint;
    var s := a + b;
    if AverageDiskRuns.Has(a, isTime, key) {
      var i :| 0 <= i < |a| && a[i].isTime == isTime && AverageDisk.KeyOfPoint(a[i].point) == key;
      assert s[i] == a[i];
    }
    if AverageDiskRuns.Has(b, isTime, key) {
      var i :| 0 <= i < |b| && b[i].isTime == isTime && AverageDisk.KeyOfPoint(b[i].point) == key;
      assert s[|a| + i] == b[i];
    }
    if AverageDiskRuns.Has(s, isTime, key) {
      var i :| 0 <= i < |s| && s[i].isTime == isTime && AverageDisk.KeyOfPoint(s[i].point) == key;
      assert i < |a| ==> a[i] == s[i];
      assert i >= |a| ==> b[i - |a|] == s[i];
    }
  }

  lemma MetricHas(m: Metric, isTime: bool, key: AverageDisk.OpKey)
    requires AverageDisk.IsDisk(m)
    ensures AverageDiskRuns.Has(AverageDisk.PointReadings(m.name == AverageDisk.OP_TIME_NAME, m.Points()), isTime, key)
       <==> m.name == NameOf(isTime) && HasKey(m, key)
  {
    hide AverageDisk.KeyOfPoint;
    var t := m.name == AverageDisk.OP_TIME_NAME;
    var rs := AverageDisk.PointReadings(t, m.Points());
    assert |AverageDisk.OP_TIME_NAME| != |AverageDisk.OP_NAME|;
    forall i | 0 <= i < |rs| ensures rs[i] == AverageDisk.Reading(t, m.Points()[i]) {
      PointReadingsHave(t, m.Points(), i);
    }
    hide AverageDisk.PointReadings;
    if HasKey(m, key) && t == isTime {
      var i :| 0 <= i < |m.Points()| && AverageDisk.KeyOfPoint(m.Points()[i]) == key;
      assert rs[i].isTime == isTime && AverageDisk.KeyOfPoint(rs[i].point) == key;
    }
  }

  lemma MentionsOneMore(ms: seq<Metric>, m: Metric, name: string, key: AverageDisk.OpKey)
    ensures Mentions(ms + [m], name, key) <==> Mentions(ms, name, key) || (m.name == name && HasKey(m, key))
  {
    hide HasKey;
    var s := ms + [m];
    if Mentions(ms, name, key) {
      var k :| 0 <= k < |ms| && ms[k].name == name && HasKey(ms[k], key);
      assert s[k] == ms[k];
    }
    if m.name == name && HasKey(m, key) {
      assert s[|ms|] == m;
    }
    if Mentions(s, name, key) {
      var k :| 0 <= k < |s| && s[k].name == name && HasKey(s[k], key);
      assert k < |ms| ==> ms[k] == s[k];
    }
  }

  /** The readings of a scope are the points of its disk metrics. */
  lemma {:induction false} ReadingsMention(ms: seq<Metric>, isTime: bool, key: AverageDisk.OpKey)
    ensures AverageDiskRuns.Has(AverageDisk.Readings(ms), isTime, key) <==> Mentions(ms, NameOf(isTime), key)
  {
    hide AverageDiskRuns.Has, HasKey, AverageDisk.PointReadings;
    if ms == [] {
      NothingHas(isTime, key);
    } else {
      var k := |ms| - 1;
      var m, before := ms[k], AverageDisk.Readings(ms[..k]);
      ReadingsMention(ms[..k], isTime, key);
      MentionsOneMore(ms[..k], m, NameOf(isTime), key);
      assert ms == ms[..k] + [m];
      hide Mentions;
      if AverageDisk.IsDisk(m) {
        HasInBoth(before, AverageDisk.PointReadings(m.name == AverageDisk.OP_TIME_NAME, m.Points()), isTime, key);
        MetricHas(m, isTime, key);
      } else {
        assert before + [] == before;
      }
    }
  }

  lemma NothingHas(isTime: bool, key: AverageDisk.OpKey)
    ensures !AverageDiskRuns.Has([], isTime, key)
  {
  }

  /** In a scope that has both disk metrics of each key a key that occurs has a time point. */
  lemma GoodCarriesBoth(ms: seq<Metric>, key: AverageDisk.OpKey)
    requires BothDisk(ms)
    ensures AverageDiskRuns.CarriesBoth(AverageDisk.Readings(ms), key)
  {
    var rs := AverageDisk.Readings(ms);
    ReadingsMention(ms, true, key);
    ReadingsMention(ms, false, key);
    hide AverageDisk.Readings, Mentions, AverageDisk.KeyOfPoint;
    assert Mentions(ms, AverageDisk.OP_NAME, key) <==> Mentions(ms, AverageDisk.OP_TIME_NAME, key);
    if AverageDisk.Occurs(rs, key) {
      var i :| 0 <= i < |rs| && AverageDisk.KeyOfPoint(rs[i].point) == key;
      assert AverageDiskRuns.Has(rs, rs[i].isTime, key);
    }
  }

  lemma {:induction false} TimeMetricThere(ms: seq<Metric>, key: AverageDisk.OpKey)
    requires Mentions(ms, AverageDisk.OP_TIME_NAME, key)
    ensures AverageDisk.TimeMetric(ms).Some?
  {
    hide HasKey;
    var k := |ms| - 1;
    if ms[k].name != AverageDisk.OP_TIME_NAME {
      var i :| 0 <= i < |ms| && ms[i].name == AverageDisk.OP_TIME_NAME && HasKey(ms[i], key);
      assert ms[..k][i] == ms[i];
      TimeMetricThere(ms[..k], key);
    }
  }

  /** A key that occurs has a time point, and the scope an operation time metric. */
  lemma OccurringKey(op: AverageDisk.OpData, ms: seq<Metric>, key: AverageDisk.OpKey)
    requires Good(ms) && AverageDisk.Occurs(AverageDisk.Readings(ms), key)
    ensures AverageDisk.Latest(op, AverageDisk.Readings(ms), key).time.Some? && AverageDisk.TimeMetric(ms).Some?
  {
    hide AllShaped, AverageDisk.Occurs, AverageDisk.Readings, AverageDisk.Latest, Mentions, AverageDiskRuns.Has;
    GoodCarriesBoth(ms, key);
    AverageDiskRuns.HasTime(op, AverageDisk.Readings(ms), key);
    ReadingsMention(ms, true, key);
    TimeMetricThere(ms, key);
  }

  lemma ScopeNeverPanics(prev: map<AverageDisk.OpKey, AverageDisk.OpData>, ms: seq<Metric>)
    requires Good(ms) && Timed(prev)
    ensures !AverageDisk.Panics(prev, ms)
  {
    assert AverageDisk.Readable(ms) by {
      hide BothDisk, HasOwnLabel, Utilizations.HasUtilization, AverageDisk.Labelled;
      assert AllShaped(ms);
    }
    hide Good, AverageDisk.Readable, AverageDisk.Readings, AverageDisk.Occurs, AverageDisk.Latest, AverageDisk.NewOps;
    hide AverageDisk.TimeMetric;
    forall key | AverageDisk.Occurs(AverageDisk.Readings(ms), key)
      ensures AverageDisk.TimeMetric(ms).Some?
      ensures !AverageDisk.KeyPanics(AverageDisk.Look(prev, key),
                 AverageDisk.Latest(AverageDisk.Look(prev, key).GetOr(AverageDisk.ZERO), AverageDisk.Readings(ms), key))
    {
      OccurringKey(AverageDisk.Look(prev, key).GetOr(AverageDisk.ZERO), ms, key);
    }
  }

  lemma ScopeStaysTimed(prev: map<AverageDisk.OpKey, AverageDisk.OpData>, ms: seq<Metric>)
    requires Good(ms) && Timed(prev)
    ensures Timed(AverageDisk.AfterScope(prev, ms))
  {
    hide Good, AverageDisk.Readings, AverageDisk.Occurs, AverageDisk.Latest, AverageDisk.Increment;
    forall key | key in AverageDisk.AfterScope(prev, ms)
      ensures AverageDisk.AfterScope(prev, ms)[key].time.Some?
    {
      AverageDiskStage.AfterScopePerKey(prev, ms, key);
      hide AverageDisk.AfterScope;
      if AverageDisk.Occurs(AverageDisk.Readings(ms), key) {
        OccurringKey(AverageDisk.Look(prev, key).GetOr(AverageDisk.ZERO), ms, key);
      }
    }
  }

  lemma {:induction false} ScopesStayTimed(prev: map<AverageDisk.OpKey, AverageDisk.OpData>, scopes: seq<seq<Metric>>)
    requires GoodScopes(scopes) && Timed(prev)
    ensures Timed(AverageDiskStage.AfterScopes(prev, scopes))
  {
    hide Good, Timed, AverageDisk.AfterScope;
    if scopes != [] {
      var k := |scopes| - 1;
      ScopesStayTimed(prev, scopes[..k]);
      ScopeStaysTimed(AverageDiskStage.AfterScopes(prev, scopes[..k]), scopes[k]);
    }
  }

  lemma DiskNeverPanics(prev: map<AverageDisk.OpKey, AverageDisk.OpData>, scopes: seq<seq<Metric>>)
    requires GoodScopes(scopes) && Timed(prev)
    ensures !AverageDiskStage.SomeScopePanics(prev, scopes)
  {
    hide Good, Timed, AverageDisk.Panics, AverageDiskStage.AfterScopes;
    forall n: nat | n < |scopes| ensures !AverageDiskStage.PanicsAt(prev, scopes, n) {
      ScopesStayTimed(prev, scopes[..n]);
      ScopeNeverPanics(AverageDiskStage.AfterScopes(prev, scopes[..n]), scopes[n]);
    }
    AverageDiskStage.NoScopePanics(prev, scopes);
  }

  // ------------------------------------------------------------------
  // The whole pipeline
  // ------------------------------------------------------------------

  lemma GoodWhenUtilized(rms: seq<ResourceMetrics>, t: Trace)
    requires SupportedBatch(rms) && ReachedUtilization(rms, t)
    ensures GoodScopes(Scopes(t.split))
  {
    hide SupportedBatch, GoodScopes, Scopes, SameShape, FirstStages, CombineStep, SplitScopes;
    CombineStepIsGood(rms, t.versionless, t.combined);
    SplitIsGood(Scopes(t.combined), Scopes(t.split));
  }

  lemma GoodWhenAveraged(rms: seq<ResourceMetrics>, c: UtilizationStage.Cpu, t: Trace)
    requires SupportedBatch(rms) && ReachedAveraging(rms, c, t)
    ensures GoodScopes(Scopes(t.cpuCleaned))
  {
    hide SupportedBatch, GoodScopes, Scopes, ReachedUtilization, UtilizationAppended, Mapped, UtilizationStage.RunScopes;
    GoodWhenUtilized(rms, t);
    UtilizationIsGood(c, Scopes(t.split), Scopes(t.utilized));
    CpuCleanedIsGood(Scopes(t.utilized), Scopes(t.cpuCleaned));
  }

  /** No stage panics on a supported batch, if every key remembered has a time point. */
  lemma SupportedNeverPanics(rms: seq<ResourceMetrics>, c: UtilizationStage.Cpu,
      prevOp: map<AverageDisk.OpKey, AverageDisk.OpData>, t: Trace)
    requires SupportedBatch(rms) && Timed(prevOp) && c.status.Going?
    ensures !SomeStagePanicked(rms, c, prevOp, t)
  {
    forall gauged | Mapped(ToGauge, Scopes(rms), gauged) ensures AllNumeric(gauged) {
      hide Mapped, BothDisk, Supported, Scopes;
      NeverNotNumeric(Scopes(rms), gauged);
    }
    hide SupportedBatch, Scopes, SameShape, FirstStages, ReachedUtilization, ReachedAveraging, Timed, GoodScopes;
    hide AverageDiskStage.SomeScopePanics, UtilizationStage.RunScopes, AllNumeric, Mapped, AgentMetrics.CombineStep;
    if SameShape(rms, t.versionless) && FirstStages(Scopes(rms), Scopes(t.versionless)) {
      CombinePanicsNever(rms, t.versionless);
    }
    if ReachedUtilization(rms, t) {
      GoodWhenUtilized(rms, t);
      ScopesNeverPanic(c, Scopes(t.split));
    }
    if ReachedAveraging(rms, c, t) {
      GoodWhenAveraged(rms, c, t);
      DiskNeverPanics(prevOp, Scopes(t.cpuCleaned));
    }
  }

  /** And the memory such a call leaves has a time point for every key again. */
  lemma SupportedStaysTimed(rms: seq<ResourceMetrics>, c: UtilizationStage.Cpu,
      prevOp: map<AverageDisk.OpKey, AverageDisk.OpData>, names: seq<string>, t: Trace, rms': seq<ResourceMetrics>)
    requires SupportedBatch(rms) && Timed(prevOp) && RanAll(rms, c, prevOp, names, t, rms')
    ensures Timed(AverageDiskStage.AfterScopes(prevOp, Scopes(t.cpuCleaned)))
  {
    hide SupportedBatch, Timed, ReachedAveraging, GoodScopes, Scopes, AverageDiskStage.AfterScopes;
    hide SameShape, Averaged, BlankAdded, AverageDiskStage.SomeScopePanics;
    GoodWhenAveraged(rms, c, t);
    ScopesStayTimed(prevOp, Scopes(t.cpuCleaned));
  }
}
