/** The agent metrics processor over any number of calls. */
module AgentMetricsRuns {
  import opened Go
  import opened Pdata
  import opened AgentMetrics
  import opened AgentStages
  import AgentSupport
  import AgentSupportStages
  import UtilizationStage
  import UtilizationRuns
  import AverageDisk
  import AverageDiskStage
  import AverageDiskRuns

  // ------------------------------------------------------------------
  // What a run hands to the stages that remember
  // ------------------------------------------------------------------

  /** The batches as the utilization stage found them, call after call. */
  function Utilized(ts: seq<Trace>): seq<seq<seq<Metric>>> {
    if ts == [] then [] else Utilized(ts[..|ts| - 1]) + [Scopes(ts[|ts| - 1].split)]
  }

  /** All scopes that the average disk stage walked, in order. */
  function Walked(ts: seq<Trace>): seq<seq<Metric>> {
    if ts == [] then [] else Walked(ts[..|ts| - 1]) + Scopes(ts[|ts| - 1].cpuCleaned)
  }

  /** The CPU times remembered after these calls. */
  ghost function CpuAfter(ts: seq<Trace>): UtilizationStage.Cpu {
    UtilizationStage.Cpu(UtilizationRuns.AfterBatches(map[], Utilized(ts)), Going)
  }

  function DiskAfter(ts: seq<Trace>): map<AverageDisk.OpKey, AverageDisk.OpData> {
    AverageDiskStage.AfterScopes(map[], Walked(ts))
  }

  /** Each call ran all stages on its batch, with what the calls before it left behind. */
  ghost predicate Ran(names: seq<string>, batches: seq<seq<ResourceMetrics>>, ts: seq<Trace>,
      out: seq<seq<ResourceMetrics>>) {
    && |ts| == |out| <= |batches|
    && forall i | 0 <= i < |out| :: RanAll(batches[i], CpuAfter(ts[..i]), DiskAfter(ts[..i]), names, ts[i], out[i])
  }

  lemma {:induction false} AfterScopesConcat(prev: map<AverageDisk.OpKey, AverageDisk.OpData>, a: seq<seq<Metric>>,
      b: seq<seq<Metric>>)
    ensures AverageDiskStage.AfterScopes(prev, a + b)
         == AverageDiskStage.AfterScopes(AverageDiskStage.AfterScopes(prev, a), b)
  {
    hide AverageDisk.AfterScope;
    if b == [] {
      assert a + b == a;
    } else {
      var k := |b| - 1;
      assert (a + b)[..|a + b| - 1] == a + b[..k];
      AfterScopesConcat(prev, a, b[..k]);
    }
  }

  /** What one more call leaves behind. */
  lemma OneMoreCall(ts: seq<Trace>, t: Trace)
    ensures CpuAfter(ts + [t]).prev == UtilizationStage.RunScopes(CpuAfter(ts), Scopes(t.split)).prev
    ensures DiskAfter(ts + [t]) == AverageDiskStage.AfterScopes(DiskAfter(ts), Scopes(t.cpuCleaned))
  {
    assert (ts + [t])[..|ts|] == ts;
    AfterScopesConcat(map[], Walked(ts), Scopes(t.cpuCleaned));
    hide Scopes, UtilizationStage.RunScopes, AverageDiskStage.AfterScopes;
    var batches := Utilized(ts);
    assert (batches + [Scopes(t.split)])[..|batches|] == batches;
  }

  lemma RanOneMore(names: seq<string>, batches: seq<seq<ResourceMetrics>>, ts: seq<Trace>, out: seq<seq<ResourceMetrics>>,
      t: Trace, rms: seq<ResourceMetrics>)
    requires Ran(names, batches, ts, out) && |out| < |batches|
    requires RanAll(batches[|out|], CpuAfter(ts), DiskAfter(ts), names, t, rms)
    ensures Ran(names, batches, ts + [t], out + [rms])
  {
    hide RanAll, CpuAfter, DiskAfter;
    var ts', out' := ts + [t], out + [rms];
    forall i | 0 <= i < |out'| ensures RanAll(batches[i], CpuAfter(ts'[..i]), DiskAfter(ts'[..i]), names, ts'[i], out'[i]) {
      if i < |out| {
        assert ts'[..i] == ts[..i];
      } else {
        assert ts'[..i] == ts;
      }
    }
  }

  lemma NothingRan(names: seq<string>, batches: seq<seq<ResourceMetrics>>)
    ensures Ran(names, batches, [], []) && CpuAfter([]).prev == map[] && DiskAfter([]) == map[]
  {
  }

  /** The CPU times that a call finds, whatever failed before it. */
  lemma RemembersOverCalls(ts: seq<Trace>)
    ensures CpuAfter(ts).prev == UtilizationRuns.Memory(map[], UtilizationRuns.Succeeded(map[], Utilized(ts)))
  {
    UtilizationRuns.RemembersOverBatches(map[], Utilized(ts));
  }

  /** As long as the batches are supported every key remembered has a time point. */
  lemma {:induction false} StaysTimed(names: seq<string>, batches: seq<seq<ResourceMetrics>>, ts: seq<Trace>,
      out: seq<seq<ResourceMetrics>>)
    requires Ran(names, batches, ts, out)
    requires forall i | 0 <= i < |out| :: AgentSupport.SupportedBatch(batches[i])
    ensures AgentSupport.Timed(DiskAfter(ts))
  {
    hide RanAll, CpuAfter, DiskAfter, AgentSupport.SupportedBatch, AgentSupport.Timed, AverageDiskStage.AfterScopes;
    if ts == [] {
      NothingRan(names, batches);
      assert AgentSupport.Timed(map[]) by { NothingTimed(); }
    } else {
      var k := |ts| - 1;
      assert forall i | 0 <= i < k :: ts[..k][..i] == ts[..i];
      StaysTimed(names, batches, ts[..k], out[..k]);
      assert RanAll(batches[k], CpuAfter(ts[..k]), DiskAfter(ts[..k]), names, ts[k], out[k]);
      AgentSupportStages.SupportedStaysTimed(batches[k], CpuAfter(ts[..k]), DiskAfter(ts[..k]), names, ts[k], out[k]);
      OneMoreCall(ts[..k], ts[k]);
      assert ts == ts[..k] + [ts[k]];
    }
  }

  lemma NothingTimed()
    ensures AgentSupport.Timed(map[])
  {
  }

  /** If a call panics, some batch handed in so far was not a supported one. */
  lemma UnsupportedCrashes(names: seq<string>, batches: seq<seq<ResourceMetrics>>, ts: seq<Trace>,
      out: seq<seq<ResourceMetrics>>, t: Trace)
    requires Ran(names, batches, ts, out) && |out| < |batches|
    requires SomeStagePanicked(batches[|out|], CpuAfter(ts), DiskAfter(ts), t)
    ensures exists i :: 0 <= i <= |out| && !AgentSupport.SupportedBatch(batches[i])
  {
    hide RanAll, DiskAfter, AgentSupport.SupportedBatch, AgentSupport.Timed, SomeStagePanicked, Ran;
    if forall i | 0 <= i <= |out| :: AgentSupport.SupportedBatch(batches[i]) {
      StaysTimed(names, batches, ts, out);
      AgentSupportStages.SupportedNeverPanics(batches[|out|], CpuAfter(ts), DiskAfter(ts), t);
    }
  }

  /** A new processor is handed one batch after the other, until it has returned all of them or panics. */
  method Run(names: seq<string>, batches: seq<seq<ResourceMetrics>>)
      returns (out: seq<seq<ResourceMetrics>>, crashed: bool, ghost ts: seq<Trace>)
    ensures Ran(names, batches, ts, out)
    ensures crashed <==> |out| < |batches|
    ensures crashed ==> exists t :: SomeStagePanicked(batches[|out|], CpuAfter(ts), DiskAfter(ts), t)
    ensures (forall i | 0 <= i < |batches| :: AgentSupport.SupportedBatch(batches[i])) ==> !crashed
    ensures forall i | 0 <= i < |out| :: CleanScopes(Scopes(out[i])) && Blanked(names, Scopes(out[i]))
  {
    hide Ran, CpuAfter, DiskAfter, RanAll, SomeStagePanicked, Blanked, CleanScopes, Scopes;
    hide UtilizationStage.RunScopes, AverageDiskStage.AfterScopes;
    var p := new Processor(names);
    out, crashed, ts := [], false, [];
    NothingRan(names, batches);
    CpuIs(ts);
    for i := 0 to |batches|
      invariant p.Valid() && fresh(p) && fresh(p.cpuTimes) && fresh(p.diskOps) && p.blankLabelMetrics == names
      invariant |out| == i && !crashed && Ran(names, batches, ts, out)
      invariant UtilizationStage.Cpu(p.cpuTimes.prevCPUTimeValues, Going) == CpuAfter(ts)
      invariant p.diskOps.prevOp == DiskAfter(ts)
      invariant forall j | 0 <= j < |out| :: CleanScopes(Scopes(out[j])) && Blanked(names, Scopes(out[j]))
    {
      var batch := new Batch(batches[i]);
      ghost var t;
      var outcome;
      outcome, t := p.ProcessMetrics(batch);
      if outcome.Crashed? {
        UnsupportedCrashes(names, batches, ts, out, t);
        return out, true, ts;
      }
      OneMoreCall(ts, t);
      RanOneMore(names, batches, ts, out, t, batch.rms);
      ts, out := ts + [t], out + [batch.rms];
      CpuIs(ts);
    }
  }

  lemma CpuIs(ts: seq<Trace>)
    ensures CpuAfter(ts) == UtilizationStage.Cpu(CpuAfter(ts).prev, Going)
  {
  }

  lemma RanUtilized(names: seq<string>, batches: seq<seq<ResourceMetrics>>, ts: seq<Trace>,
      out: seq<seq<ResourceMetrics>>, k: nat, n: nat)
    requires Ran(names, batches, ts, out) && k < |ts| && n < |Scopes(ts[k].split)|
    ensures |Scopes(ts[k].utilized)| == |Scopes(ts[k].split)|
    ensures UtilizationStage.ScopeAppended(UtilizationStage.RunScopes(CpuAfter(ts[..k]), Scopes(ts[k].split)[..n]),
                                           Scopes(ts[k].split)[n], Scopes(ts[k].utilized)[n])
  {
    hide UtilizationStage.ScopeAppended, CpuAfter, DiskAfter, Scopes, UtilizationStage.RunScopes, ReachedUtilization;
    hide Averaged, BlankAdded, AverageDiskStage.SomeScopePanics, Mapped;
    assert RanAll(batches[k], CpuAfter(ts[..k]), DiskAfter(ts[..k]), names, ts[k], out[k]);
  }

  /**
   Over any calls of the processor, whatever failed in them: a CPU time metric walked without an error has a utilization
   metric in its scope that reports the shares of what the raw values grew by since metric `i`, the last CPU time metric
   that succeeded in any call.
   */
  lemma RunReportsShares(names: seq<string>, batches: seq<seq<ResourceMetrics>>, ts: seq<Trace>,
      out: seq<seq<ResourceMetrics>>, k: nat, n: nat, i: nat, j: nat)
    requires Ran(names, batches, ts, out) && k < |ts| && n < |Scopes(ts[k].split)|
    requires var scopes := Scopes(ts[k].split);
             var c := UtilizationStage.RunScopes(CpuAfter(ts[..k]), scopes[..n]);
             && c.status.Going? && j < UtilizationRuns.Processed(c, scopes[n]) && scopes[n][j].name == "system.cpu.time"
             && UtilizationRuns.IsLastCpuTime(UtilizationRuns.Succeeded(map[], Utilized(ts[..k]))
                                              + UtilizationRuns.Flat(scopes[..n]) + scopes[n][..j], i)
    ensures |Scopes(ts[k].utilized)| == |Scopes(ts[k].split)|
    ensures var ms, ms' := Scopes(ts[k].split)[n], Scopes(ts[k].utilized)[n];
            var at := |ms| + UtilizationRuns.Triggers(ms[..j]);
            var before := UtilizationRuns.Succeeded(map[], Utilized(ts[..k]))
                          + UtilizationRuns.Flat(Scopes(ts[k].split)[..n]) + ms[..j];
            && at < |ms'|
            && exists prev :: UtilizationRuns.IsReadOff(prev, before[i].Points())
                           && UtilizationRuns.ReportsShares(prev, ms[j], ms'[at])
  {
    hide *;
    RanUtilized(names, batches, ts, out, k, n);
    var ms, ms' := Scopes(ts[k].split)[n], Scopes(ts[k].utilized)[n];
    CpuUnfolds(ts[..k]);
    var c := UtilizationStage.RunScopes(CpuAfter(ts[..k]), Scopes(ts[k].split)[..n]);
    AppendedBehind(c, ms, ms');
    UtilizationRuns.SharesOverBatches(Utilized(ts[..k]), Scopes(ts[k].split), n, ms'[|ms|..], i, j);
  }

  lemma CpuUnfolds(ts: seq<Trace>)
    ensures CpuAfter(ts) == UtilizationStage.Cpu(UtilizationRuns.AfterBatches(map[], Utilized(ts)), Going)
  {
  }

  lemma AppendedBehind(c: UtilizationStage.Cpu, ms: seq<Metric>, ms': seq<Metric>)
    requires UtilizationStage.ScopeAppended(c, ms, ms')
    ensures |ms| <= |ms'| && UtilizationStage.AppendedFor(c, ms, ms'[|ms|..])
  {
    hide UtilizationStage.AppendedFor;
  }

  // ------------------------------------------------------------------
  // The average disk times that a run reports for one key
  // ------------------------------------------------------------------

  /** The points of the metric appended to a scope, if there is one. */
  function Added(ms: seq<Metric>, ms': seq<Metric>): seq<Point> {
    if |ms| < |ms'| then ms'[|ms|].Points() else []
  }

  /** What was appended for a key to some scopes, in order. */
  function AddedFor(scopes: seq<seq<Metric>>, scopes': seq<seq<Metric>>, key: AverageDisk.OpKey): seq<Point>
    requires |scopes'| == |scopes|
  {
    if scopes == [] then []
    else
      var k := |scopes| - 1;
      AddedFor(scopes[..k], scopes'[..k], key) + AverageDisk.OfKey(Added(scopes[k], scopes'[k]), key)
  }

  lemma AddedInScope(prev: map<AverageDisk.OpKey, AverageDisk.OpData>, ms: seq<Metric>, ms': seq<Metric>,
      key: AverageDisk.OpKey)
    requires AverageDisk.ScopeAveraged(prev, ms, ms')
    ensures AverageDisk.OfKey(Added(ms, ms'), key)
         == AverageDisk.Emits(AverageDisk.Look(prev, key), AverageDisk.Readings(ms), key)
  {
    hide AverageDisk.OfKey, AverageDisk.Emits, AverageDisk.Readings, AverageDisk.TimeMetric;
  }

  lemma AveragedBefore(prev: map<AverageDisk.OpKey, AverageDisk.OpData>, scopes: seq<seq<Metric>>,
      scopes': seq<seq<Metric>>)
    requires scopes != [] && Averaged(prev, scopes, scopes')
    ensures Averaged(prev, scopes[..|scopes| - 1], scopes'[..|scopes| - 1])
  {
    hide AverageDisk.ScopeAveraged, AverageDiskStage.AfterScopes;
    var k := |scopes| - 1;
    assert forall n | 0 <= n < k :: scopes[..k][..n] == scopes[..n];
  }

  /** What one call appends for a key continues the key's series. */
  lemma {:induction false} CallContinuesSeries(prior: seq<seq<Metric>>, scopes: seq<seq<Metric>>,
      scopes': seq<seq<Metric>>, key: AverageDisk.OpKey)
    requires Averaged(AverageDiskStage.AfterScopes(map[], prior), scopes, scopes')
    ensures AverageDiskRuns.Series(prior + scopes, key)
         == AverageDiskRuns.Series(prior, key) + AddedFor(scopes, scopes', key)
  {
    hide AverageDisk.ScopeAveraged, AverageDiskStage.AfterScopes, AverageDiskRuns.ObserveAll, AverageDisk.Emits;
    hide AverageDisk.OfKey, AverageDisk.Readings, Added;
    if scopes == [] {
      assert prior + scopes == prior;
    } else {
      var k := |scopes| - 1;
      var prev, seen := AverageDiskStage.AfterScopes(map[], prior), prior + scopes[..k];
      AveragedBefore(prev, scopes, scopes');
      CallContinuesSeries(prior, scopes[..k], scopes'[..k], key);
      AfterScopesConcat(map[], prior, scopes[..k]);
      AddedInScope(AverageDiskStage.AfterScopes(map[], seen), scopes[k], scopes'[k], key);
      AverageDiskRuns.KeysAreIndependent(map[], seen, key);
      assert AverageDisk.Look(map[], key) == None;
      assert (prior + scopes)[..|prior| + k] == seen && (prior + scopes)[|prior| + k] == scopes[k];
    }
  }

  /** What a run appended for a key, call after call. */
  function ReportedFor(ts: seq<Trace>, key: AverageDisk.OpKey): seq<Point>
    requires forall i | 0 <= i < |ts| :: |Scopes(ts[i].averaged)| == |Scopes(ts[i].cpuCleaned)|
  {
    if ts == [] then []
    else
      var t := ts[|ts| - 1];
      ReportedFor(ts[..|ts| - 1], key) + AddedFor(Scopes(t.cpuCleaned), Scopes(t.averaged), key)
  }

  /** The average disk stage of each call kept the scopes and worked on what the calls before it left. */
  ghost predicate AveragedAll(ts: seq<Trace>) {
    forall i | 0 <= i < |ts| :: Averaged(DiskAfter(ts[..i]), Scopes(ts[i].cpuCleaned), Scopes(ts[i].averaged))
  }

  lemma RanAveraged(names: seq<string>, batches: seq<seq<ResourceMetrics>>, ts: seq<Trace>,
      out: seq<seq<ResourceMetrics>>)
    requires Ran(names, batches, ts, out)
    ensures AveragedAll(ts)
  {
    hide ReachedAveraging, Averaged, BlankAdded, CpuAfter, DiskAfter, Scopes, AverageDiskStage.SomeScopePanics;
    forall i | 0 <= i < |ts| ensures Averaged(DiskAfter(ts[..i]), Scopes(ts[i].cpuCleaned), Scopes(ts[i].averaged)) {
      assert RanAll(batches[i], CpuAfter(ts[..i]), DiskAfter(ts[..i]), names, ts[i], out[i]);
    }
  }

  /** The points a run appends for a key are the key's series over all scopes that were walked. */
  lemma {:induction false} ReportsTheSeries(ts: seq<Trace>, key: AverageDisk.OpKey)
    requires AveragedAll(ts)
    ensures ReportedFor(ts, key) == AverageDiskRuns.Series(Walked(ts), key)
  {
    hide AverageDiskRuns.Series, AddedFor, Scopes, AverageDiskStage.AfterScopes, AverageDisk.ScopeAveraged;
    if ts == [] {
      NoSeries(key);
    } else {
      var k := |ts| - 1;
      assert forall i | 0 <= i < k :: ts[..k][..i] == ts[..i];
      ReportsTheSeries(ts[..k], key);
      assert Averaged(DiskAfter(ts[..k]), Scopes(ts[k].cpuCleaned), Scopes(ts[k].averaged));
      CallContinuesSeries(Walked(ts[..k]), Scopes(ts[k].cpuCleaned), Scopes(ts[k].averaged), key);
    }
  }

  lemma NoSeries(key: AverageDisk.OpKey)
    ensures AverageDiskRuns.Series([], key) == []
  {
  }

  /**
   Over any calls of the processor: for a key that always comes with both disk metrics, nothing is appended on first
   sight and then one point each time, with the closed form over all observations so far as value.
   */
  lemma RunReportsClosedForm(names: seq<string>, batches: seq<seq<ResourceMetrics>>, ts: seq<Trace>,
      out: seq<seq<ResourceMetrics>>, key: AverageDisk.OpKey)
    requires Ran(names, batches, ts, out)
    requires forall n | 0 <= n < |Walked(ts)| :: AverageDiskRuns.CarriesBoth(AverageDisk.Readings(Walked(ts)[n]), key)
    ensures AveragedAll(ts)
    ensures AverageDiskRuns.ReportsTotals(AverageDiskRuns.Seen(Walked(ts), key), ReportedFor(ts, key))
  {
    RanAveraged(names, batches, ts, out);
    ReportsTheSeries(ts, key);
    AverageDiskRuns.OnePointEachTime(Walked(ts), key);
    hide Ran, Walked, ReportedFor, AverageDiskRuns.Series, AverageDiskRuns.Seen, AverageDiskRuns.ReportsTotals, AveragedAll;
  }

  // ------------------------------------------------------------------
  // The same, read off the batches returned
  // ------------------------------------------------------------------

  lemma BlankOfMetric(names: seq<string>, m: Metric)
    ensures SameButFor(BLANK, m.Points(), AddBlankLabel(names, m).Points())
  {
    OneLabelEach(m, names);
    hide AddBlankLabel;
  }

  lemma SameConcat(a: seq<Point>, a': seq<Point>, b: seq<Point>, b': seq<Point>)
    requires SameButFor(BLANK, a, a') && SameButFor(BLANK, b, b')
    ensures SameButFor(BLANK, a + b, a' + b')
  {
  }

  lemma SameKey(p: Point, p': Point)
    requires p'.attrs - {BLANK} == p.attrs - {BLANK}
    ensures AverageDisk.KeyOfPoint(p') == AverageDisk.KeyOfPoint(p)
  {
    forall name | name == "device" || name == "direction"
      ensures AverageDisk.Label(p', name) == AverageDisk.Label(p, name)
    {
      assert name != BLANK;
      assert name in p.attrs <==> name in p.attrs - {BLANK};
      assert name in p'.attrs <==> name in p'.attrs - {BLANK};
    }
  }

  lemma {:induction false} SameOfKey(ps: seq<Point>, ps': seq<Point>, key: AverageDisk.OpKey)
    requires SameButFor(BLANK, ps, ps')
    ensures SameButFor(BLANK, AverageDisk.OfKey(ps, key), AverageDisk.OfKey(ps', key))
  {
    hide AverageDisk.KeyOfPoint;
    if ps != [] {
      var k := |ps| - 1;
      SameOfKey(ps[..k], ps'[..k], key);
      SameKey(ps[k], ps'[k]);
    }
  }

  lemma SameAdded(names: seq<string>, ms: seq<Metric>, averaged: seq<Metric>, returned: seq<Metric>)
    requires |returned| == |averaged| && forall k | 0 <= k < |averaged| :: returned[k] == AddBlankLabel(names, averaged[k])
    ensures SameButFor(BLANK, Added(ms, averaged), Added(ms, returned))
  {
    hide AddBlankLabel;
    if |ms| < |averaged| {
      BlankOfMetric(names, averaged[|ms|]);
    }
  }

  lemma BlankBefore(names: seq<string>, scopes: seq<seq<Metric>>, scopes': seq<seq<Metric>>)
    requires BlankAdded(names, scopes, scopes') && scopes != []
    ensures BlankAdded(names, scopes[..|scopes| - 1], scopes'[..|scopes| - 1])
  {
    hide AddBlankLabel;
  }

  lemma {:induction false} SameAddedFor(names: seq<string>, scopes: seq<seq<Metric>>, averaged: seq<seq<Metric>>,
      returned: seq<seq<Metric>>, key: AverageDisk.OpKey)
    requires |averaged| == |scopes| && BlankAdded(names, averaged, returned)
    ensures SameButFor(BLANK, AddedFor(scopes, averaged, key), AddedFor(scopes, returned, key))
  {
    hide SameButFor, Added, AverageDisk.OfKey, AddBlankLabel;
    if scopes == [] {
      NothingSame();
    } else {
      var k := |scopes| - 1;
      BlankBefore(names, averaged, returned);
      SameAddedFor(names, scopes[..k], averaged[..k], returned[..k], key);
      SameAdded(names, scopes[k], averaged[k], returned[k]);
      SameOfKey(Added(scopes[k], averaged[k]), Added(scopes[k], returned[k]), key);
      SameConcat(AddedFor(scopes[..k], averaged[..k], key), AddedFor(scopes[..k], returned[..k], key),
                 AverageDisk.OfKey(Added(scopes[k], averaged[k]), key), AverageDisk.OfKey(Added(scopes[k], returned[k]), key));
    }
  }

  lemma NothingSame()
    ensures SameButFor(BLANK, [], [])
  {
  }

  /** Each returned batch has the scopes that the average disk stage walked, with blank labels put on their points. */
  ghost predicate ReturnedAll(names: seq<string>, ts: seq<Trace>, out: seq<seq<ResourceMetrics>>) {
    |ts| == |out| && forall i | 0 <= i < |ts| ::
      |Scopes(ts[i].averaged)| == |Scopes(ts[i].cpuCleaned)| && BlankAdded(names, Scopes(ts[i].averaged), Scopes(out[i]))
  }

  lemma RanReturned(names: seq<string>, batches: seq<seq<ResourceMetrics>>, ts: seq<Trace>,
      out: seq<seq<ResourceMetrics>>)
    requires Ran(names, batches, ts, out)
    ensures ReturnedAll(names, ts, out)
  {
    hide ReachedAveraging, AverageDisk.ScopeAveraged, BlankAdded, CpuAfter, DiskAfter, Scopes, SameShape;
    hide AverageDiskStage.SomeScopePanics;
    forall i | 0 <= i < |ts|
      ensures |Scopes(ts[i].averaged)| == |Scopes(ts[i].cpuCleaned)| && BlankAdded(names, Scopes(ts[i].averaged), Scopes(out[i]))
    {
      assert RanAll(batches[i], CpuAfter(ts[..i]), DiskAfter(ts[..i]), names, ts[i], out[i]);
    }
  }

  /** What was appended for a key in the batches returned, call after call. */
  ghost function ReturnedFor(names: seq<string>, ts: seq<Trace>, out: seq<seq<ResourceMetrics>>, key: AverageDisk.OpKey):
      seq<Point>
    requires ReturnedAll(names, ts, out)
  {
    if ts == [] then []
    else
      var k := |ts| - 1;
      ReturnedFor(names, ts[..k], out[..k], key) + AddedFor(Scopes(ts[k].cpuCleaned), Scopes(out[k]), key)
  }

  lemma {:induction false} ReturnedAreReported(names: seq<string>, ts: seq<Trace>, out: seq<seq<ResourceMetrics>>,
      key: AverageDisk.OpKey)
    requires ReturnedAll(names, ts, out)
    ensures SameButFor(BLANK, ReportedFor(ts, key), ReturnedFor(names, ts, out, key))
  {
    hide SameButFor, AddedFor, AddBlankLabel, Scopes;
    if ts == [] {
      NothingSame();
    } else {
      var k, t := |ts| - 1, ts[|ts| - 1];
      ReturnedAreReported(names, ts[..k], out[..k], key);
      SameAddedFor(names, Scopes(t.cpuCleaned), Scopes(t.averaged), Scopes(out[k]), key);
      SameConcat(ReportedFor(ts[..k], key), ReturnedFor(names, ts[..k], out[..k], key),
                 AddedFor(Scopes(t.cpuCleaned), Scopes(t.averaged), key),
                 AddedFor(Scopes(t.cpuCleaned), Scopes(out[k]), key));
    }
  }

  /**
   In the batches that any calls return: for a key that always comes with both disk metrics, nothing is appended on
   first sight and then one point each time. Its value is the closed form over all observations so far, its times and
   labels are those of the operation time point it stands for, but for the label "blank".
   */
  lemma RunReturnsClosedForm(names: seq<string>, batches: seq<seq<ResourceMetrics>>, ts: seq<Trace>,
      out: seq<seq<ResourceMetrics>>, key: AverageDisk.OpKey)
    requires Ran(names, batches, ts, out)
    requires forall n | 0 <= n < |Walked(ts)| :: AverageDiskRuns.CarriesBoth(AverageDisk.Readings(Walked(ts)[n]), key)
    ensures ReturnedAll(names, ts, out)
    ensures exists ps :: AverageDiskRuns.ReportsTotals(AverageDiskRuns.Seen(Walked(ts), key), ps)
                      && SameButFor(BLANK, ps, ReturnedFor(names, ts, out, key))
  {
    RunReportsClosedForm(names, batches, ts, out, key);
    RanReturned(names, batches, ts, out);
    hide Ran, Walked, AverageDiskRuns.Seen, AverageDiskRuns.ReportsTotals, AveragedAll, ReturnedAll, SameButFor;
    ReturnedAreReported(names, ts, out, key);
  }

  lemma ScopesKept(names: seq<string>, ts: seq<Trace>, out: seq<seq<ResourceMetrics>>)
    requires ReturnedAll(names, ts, out)
    ensures forall i | 0 <= i < |ts| :: |Scopes(ts[i].averaged)| == |Scopes(ts[i].cpuCleaned)|
  {
    hide BlankAdded;
  }

  lemma ValuesKept(ps: seq<Point>, ps': seq<Point>)
    requires SameButFor(BLANK, ps, ps')
    ensures |ps'| == |ps| && forall j | 0 <= j < |ps| :: ps'[j].value == ps[j].value
  {
  }

  /**
   The same in raw numbers. From one returned point of a key to the next, between the readings o1, busy1, t1 and
   o2, busy2, t2 of its two metrics: nothing is added without new operations, and else (busy2 - busy1) / (o2 - o1) for
   each of the (t2 - t1) / 10^9 seconds.
   */
  lemma RunReturnsRawAverages(names: seq<string>, batches: seq<seq<ResourceMetrics>>, ts: seq<Trace>,
      out: seq<seq<ResourceMetrics>>, key: AverageDisk.OpKey, i: nat, o1: int, busy1: real, t1: nat,
      o2: int, busy2: real, t2: nat)
    requires Ran(names, batches, ts, out)
    requires forall n | 0 <= n < |Walked(ts)| :: AverageDiskRuns.CarriesBoth(AverageDisk.Readings(Walked(ts)[n]), key)
    requires i + 1 < |AverageDiskRuns.Seen(Walked(ts), key)|
    requires AverageDiskRuns.Observed(AverageDiskRuns.Seen(Walked(ts), key)[i], o1, busy1, t1)
    requires AverageDiskRuns.Observed(AverageDiskRuns.Seen(Walked(ts), key)[i + 1], o2, busy2, t2)
    ensures ReturnedAll(names, ts, out)
    ensures |ReturnedFor(names, ts, out, key)| == |AverageDiskRuns.Seen(Walked(ts), key)| - 1
    ensures forall j | 0 <= j <= i :: ReturnedFor(names, ts, out, key)[j].value.Real?
    ensures var ps := ReturnedFor(names, ts, out, key);
            AverageDiskRuns.IsAverageGain(ps[i].value.d - (if i == 0 then 0.0 else ps[i - 1].value.d),
                                          AverageDiskRuns.Wrapped(o2 - o1), busy2 - busy1,
                                          if t2 < t1 then t2 - t1 + TWO_64 else t2 - t1)
  {
    hide *;
    RanAveraged(names, batches, ts, out);
    RanReturned(names, batches, ts, out);
    ScopesKept(names, ts, out);
    ReportsTheSeries(ts, key);
    ReturnedAreReported(names, ts, out, key);
    AverageDiskRuns.AverageOfRawReadings(Walked(ts), key, i, o1, busy1, t1, o2, busy2, t2);
    ValuesKept(ReportedFor(ts, key), ReturnedFor(names, ts, out, key));
  }
}
