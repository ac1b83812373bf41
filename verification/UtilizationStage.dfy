/** The stage that appends utilization metrics, and the CPU times it remembers from one call to the next. */
module UtilizationStage {
  import opened Go
  import opened Pdata
  import opened LabelKeys
  import opened Utilizations

  // ------------------------------------------------------------------
  // Deltas of CPU time
  // ------------------------------------------------------------------

  ghost function PointKey(p: Point): string {
    KeyOf(Strings(p.attrs))
  }

  function Delta(p: Point, before: real): Point {
    p.(value := Real(p.value.DoubleValue() - before))
  }

  /** The points whose labels were stored, in order, each with its increase since then. */
  ghost function Deltas(prev: map<string, real>, ps: seq<Point>): seq<Point> {
    if ps == [] then []
    else
      var k := |ps| - 1;
      var key := PointKey(ps[k]);
      Deltas(prev, ps[..k]) + (if key in prev then [Delta(ps[k], prev[key])] else [])
  }

  /** The values by label key; of several points with the same labels the last. */
  ghost function PointValues(ps: seq<Point>): map<string, real> {
    if ps == [] then map[]
    else
      var k := |ps| - 1;
      PointValues(ps[..k])[PointKey(ps[k]) := ps[k].value.DoubleValue()]
  }

  lemma PointKeyIs(p: Point)
    ensures PointKey(p) == KeyOf(Strings(p.attrs)) == KeyOf(Without(Strings(p.attrs), []))
    ensures |Without(Strings(p.attrs), [])| == |p.attrs|
  {
    NothingExcluded(p.attrs);
  }

  /** A key is stored exactly when a point has it, with the value of the last such point. */
  lemma {:induction false} StoredIsLastValue(ps: seq<Point>, key: string, i: nat)
    requires i < |ps| && PointKey(ps[i]) == key && forall j | i < j < |ps| :: PointKey(ps[j]) != key
    ensures key in PointValues(ps) && PointValues(ps)[key] == ps[i].value.DoubleValue()
  {
    hide PointKey;
    if i < |ps| - 1 {
      StoredIsLastValue(ps[..|ps| - 1], key, i);
    }
  }

  lemma {:induction false} StoredHasPoint(ps: seq<Point>, key: string)
    ensures key in PointValues(ps) <==> exists i :: 0 <= i < |ps| && PointKey(ps[i]) == key
  {
    hide PointKey;
    if ps != [] {
      StoredHasPoint(ps[..|ps| - 1], key);
    }
  }

  // ------------------------------------------------------------------
  // One metric
  // ------------------------------------------------------------------

  /** The points that are divided up: for CPU time the increases, for the other metrics the values. */
  ghost function Usage(prev: map<string, real>, m: Metric): seq<Point> {
    if m.name == CPU_TIME then Deltas(prev, m.Points()) else m.Points()
  }

  ghost function MetricStatus(prev: map<string, real>, m: Metric): Status {
    if m.name == CPU_TIME && !m.data.Sum? then Panicked
    else if m.data.OtherData? then Failed
    else GroupingStatus(Usage(prev, m))
  }

  ghost predicate IsUtilizationOf(prev: map<string, real>, m: Metric, u: Metric) {
    && u.name == WithPostfix(m.name, "utilization") && u.description == m.description && u.unit == m.unit
    && u.data.Gauge? && multiset(u.data.points) == multiset(Shares(Usage(prev, m), Usage(prev, m)))
  }

  // ------------------------------------------------------------------
  // Many metrics
  // ------------------------------------------------------------------

  datatype Cpu = Cpu(prev: map<string, real>, status: Status)

  ghost function Step(c: Cpu, m: Metric): Cpu {
    if !c.status.Going? || !HasUtilization(m.name) then c
    else
      var s := MetricStatus(c.prev, m);
      Cpu(if s.Going? && m.name == CPU_TIME then PointValues(m.Points()) else c.prev, s)
  }

  ghost function Run(c: Cpu, ms: seq<Metric>): Cpu {
    if ms == [] then c else Step(Run(c, ms[..|ms| - 1]), ms[|ms| - 1])
  }

  /** The metrics appended for `ms`: one per metric processed without error, in order. */
  ghost predicate AppendedFor(c: Cpu, ms: seq<Metric>, added: seq<Metric>) {
    if ms == [] then added == []
    else
      var k := |ms| - 1;
      var before := Run(c, ms[..k]);
      if before.status.Going? && HasUtilization(ms[k].name) && Step(before, ms[k]).status.Going? then
        && added != []
        && AppendedFor(c, ms[..k], added[..|added| - 1])
        && IsUtilizationOf(before.prev, ms[k], added[|added| - 1])
      else AppendedFor(c, ms[..k], added)
  }

  ghost predicate ScopeAppended(c: Cpu, ms: seq<Metric>, ms': seq<Metric>) {
    |ms| <= |ms'| && ms'[..|ms|] == ms && AppendedFor(c, ms, ms'[|ms|..])
  }

  ghost function RunScopes(c: Cpu, scopes: seq<seq<Metric>>): Cpu {
    if scopes == [] then c else Run(RunScopes(c, scopes[..|scopes| - 1]), scopes[|scopes| - 1])
  }

  lemma RunOneMore(c: Cpu, ms: seq<Metric>, k: nat)
    requires k < |ms|
    ensures Run(c, ms[..k + 1]) == Step(Run(c, ms[..k]), ms[k])
  {
    assert ms[..k + 1][..k] == ms[..k];
  }

  lemma {:induction false} NothingAfterError(c: Cpu, ms: seq<Metric>)
    requires !c.status.Going?
    ensures Run(c, ms) == c && AppendedFor(c, ms, [])
  {
    if ms != [] {
      NothingAfterError(c, ms[..|ms| - 1]);
    }
  }

  /** Once a metric has failed nothing more is remembered or appended. */
  lemma {:induction false} ErrorEndsRun(c: Cpu, ms: seq<Metric>, k: nat, added: seq<Metric>)
    requires k <= |ms| && !Run(c, ms[..k]).status.Going? && AppendedFor(c, ms[..k], added)
    ensures Run(c, ms) == Run(c, ms[..k]) && AppendedFor(c, ms, added)
  {
    hide Step, IsUtilizationOf;
    if k == |ms| {
      assert ms[..k] == ms;
    } else {
      var n := |ms| - 1;
      assert ms[..n][..k] == ms[..k];
      ErrorEndsRun(c, ms[..n], k, added);
      assert Step(Run(c, ms[..n]), ms[n]) == Run(c, ms[..n]) by { StuckStep(Run(c, ms[..n]), ms[n]); }
    }
  }

  lemma StuckStep(c: Cpu, m: Metric)
    requires !c.status.Going? || !HasUtilization(m.name)
    ensures Step(c, m) == c
  {
  }

  lemma {:induction false} ErrorEndsScopes(c: Cpu, scopes: seq<seq<Metric>>, n: nat, m: nat)
    requires n <= m <= |scopes| && !RunScopes(c, scopes[..n]).status.Going?
    ensures RunScopes(c, scopes[..m]) == RunScopes(c, scopes[..n])
  {
    if n < m {
      ErrorEndsScopes(c, scopes, n, m - 1);
      assert scopes[..m][..m - 1] == scopes[..m - 1];
      NothingAfterError(RunScopes(c, scopes[..n]), scopes[m - 1]);
    }
  }

  lemma AppendStep(c: Cpu, ms: seq<Metric>, k: nat, added: seq<Metric>, u: Metric)
    requires k < |ms| && AppendedFor(c, ms[..k], added)
    requires Run(c, ms[..k]).status.Going? && HasUtilization(ms[k].name) && Run(c, ms[..k + 1]).status.Going?
    requires IsUtilizationOf(Run(c, ms[..k]).prev, ms[k], u)
    ensures AppendedFor(c, ms[..k + 1], added + [u])
  {
    hide Step, IsUtilizationOf;
    assert ms[..k + 1][..k] == ms[..k];
    assert (added + [u])[..|added|] == added;
    RunOneMore(c, ms, k);
  }

  lemma SkipStep(c: Cpu, ms: seq<Metric>, k: nat, added: seq<Metric>)
    requires k < |ms| && AppendedFor(c, ms[..k], added)
    requires !HasUtilization(ms[k].name) || !Run(c, ms[..k + 1]).status.Going?
    ensures AppendedFor(c, ms[..k + 1], added)
  {
    hide Step, IsUtilizationOf;
    assert ms[..k + 1][..k] == ms[..k];
    RunOneMore(c, ms, k);
  }

  /** The part of the processor's state that this stage keeps. */
  class CpuTimes {
    var prevCPUTimeValues: map<string, real>

    constructor ()
      ensures prevCPUTimeValues == map[]
    {
      prevCPUTimeValues := map[];
    }

    method ConvertPrevCPUTimeToDelta(ps: seq<Point>) returns (out: seq<Point>)
      ensures out == Deltas(prevCPUTimeValues, ps)
    {
      hide PointKey;
      out := [];
      for i := 0 to |ps|
        invariant out == Deltas(prevCPUTimeValues, ps[..i])
      {
        assert ps[..i + 1][..i] == ps[..i];
        var key := LabelsAsKey(ps[i].attrs);
        PointKeyIs(ps[i]);
        if key in prevCPUTimeValues {
          out := out + [Delta(ps[i], prevCPUTimeValues[key])];
        }
      }
      assert ps[..|ps|] == ps;
    }

    /** `setPrevCPUTimes` with `doubleDataPointsToMap`. */
    method SetPrevCPUTimes(ps: seq<Point>)
      modifies this
      ensures prevCPUTimeValues == PointValues(ps)
    {
      hide PointKey;
      var values: map<string, real> := map[];
      for i := 0 to |ps|
        invariant values == PointValues(ps[..i])
      {
        assert ps[..i + 1][..i] == ps[..i];
        PointKeyIs(ps[i]);
        var key := OtherLabelsAsKey(ps[i].attrs, []);
        values := values[key.value := ps[i].value.DoubleValue()];
      }
      assert ps[..|ps|] == ps;
      prevCPUTimeValues := values;
    }

    /** The utilization metric of one metric. Only a success on CPU time changes what is remembered. */
    method CalculateUtilizationMetric(m: Metric) returns (s: Status, u: Metric)
      requires HasUtilization(m.name)
      modifies this
      ensures Cpu(prevCPUTimeValues, s) == Step(Cpu(old(prevCPUTimeValues), Going), m)
      ensures s.Going? ==> IsUtilizationOf(old(prevCPUTimeValues), m, u)
    {
      hide Deltas, PointValues, Shares, GroupingStatus;
      u := m;
      if m.name == CPU_TIME && !m.data.Sum? {
        return Panicked, u;
      }
      var ps := m.Points();
      if m.name == CPU_TIME {
        ps := ConvertPrevCPUTimeToDelta(ps);
      }
      if m.data.OtherData? {
        return Failed, u;
      }
      var out;
      s, out := CalculateUtilizationFromNumberDataPoints(ps);
      if !s.Going? {
        return;
      }
      if m.name == CPU_TIME {
        SetPrevCPUTimes(m.Points());
      }
      u := Metric(WithPostfix(m.name, "utilization"), m.description, m.unit, Gauge(out));
    }

    /**
     The loop over the metrics of a scope, which grows while it is walked. It ends because an appended metric has a
     name that asks for no utilization.
     */
    method AppendToScope(ms: seq<Metric>) returns (s: Status, out: seq<Metric>)
      modifies this
      ensures Cpu(prevCPUTimeValues, s) == Run(Cpu(old(prevCPUTimeValues), Going), ms)
      ensures ScopeAppended(Cpu(old(prevCPUTimeValues), Going), ms, out)
    {
      hide Step, IsUtilizationOf, HasUtilization, Run, AppendedFor;
      ghost var c := Cpu(prevCPUTimeValues, Going);
      var k := 0;
      s, out := Going, ms;
      EmptyRun(c);
      assert ms[..0] == [] && out[|ms|..] == [];
      while k < |out|
        invariant |ms| <= |out| && k <= |out| && out[..|ms|] == ms
        invariant forall i | |ms| <= i < |out| :: !HasUtilization(out[i].name)
        invariant s == Going && Cpu(prevCPUTimeValues, Going) == Run(c, ms[..Min(k, |ms|)])
        invariant AppendedFor(c, ms[..Min(k, |ms|)], out[|ms|..])
        decreases |ms| - Min(k, |ms|), |out| - k
      {
        var m := out[k];
        if k < |ms| {
          RunOneMore(c, ms, k);
        }
        ghost var added := out[|ms|..];
        if HasUtilization(m.name) {
          var u;
          s, u := CalculateUtilizationMetric(m);
          if !s.Going? {
            SkipStep(c, ms, k, added);
            ErrorEndsRun(c, ms, k + 1, added);
            return;
          }
          AppendStep(c, ms, k, added, u);
          UtilizationIsNoTrigger(Run(c, ms[..k]).prev, m, u);
          out := out + [u];
          assert out[|ms|..] == added + [u];
        } else if k < |ms| {
          StuckStep(Run(c, ms[..k]), m);
          SkipStep(c, ms, k, added);
        }
        k := k + 1;
      }
      assert ms[..|ms|] == ms;
    }

    /** The stage: walks the scopes in order and stops at the first error. */
    method AppendUtilizationMetrics(batch: Batch) returns (s: Status)
      modifies this, batch
      ensures Cpu(prevCPUTimeValues, s) == RunScopes(Cpu(old(prevCPUTimeValues), Going), Scopes(old(batch.rms)))
      ensures |Scopes(batch.rms)| == |Scopes(old(batch.rms))|
           && batch.rms == WithScopes(old(batch.rms), Scopes(batch.rms))
      ensures forall n | 0 <= n < |Scopes(batch.rms)| ::
                ScopeAppended(RunScopes(Cpu(old(prevCPUTimeValues), Going), Scopes(old(batch.rms))[..n]),
                              Scopes(old(batch.rms))[n], Scopes(batch.rms)[n])
    {
      hide Scopes, WithScopes, Run, AppendedFor;
      ghost var c := Cpu(prevCPUTimeValues, Going);
      var scopes := Scopes(batch.rms);
      var out := scopes;
      s := Going;
      for n := 0 to |scopes|
        invariant |out| == |scopes| && out[n..] == scopes[n..] && batch.rms == old(batch.rms)
        invariant s == Going && Cpu(prevCPUTimeValues, Going) == RunScopes(c, scopes[..n])
        invariant forall m | 0 <= m < n :: ScopeAppended(RunScopes(c, scopes[..m]), scopes[m], out[m])
      {
        assert scopes[..n + 1][..n] == scopes[..n];
        var ms;
        s, ms := AppendToScope(scopes[n]);
        out := out[n := ms];
        if !s.Going? {
          forall m | n < m < |scopes| ensures ScopeAppended(RunScopes(c, scopes[..m]), scopes[m], out[m]) {
            ErrorEndsScopes(c, scopes, n + 1, m);
            NothingAfterError(RunScopes(c, scopes[..m]), scopes[m]);
            assert out[m] == scopes[n..][m - n] == scopes[m] && out[m][|scopes[m]|..] == [];
          }
          ErrorEndsScopes(c, scopes, n + 1, |scopes|);
          break;
        }
      }
      assert scopes[..|scopes|] == scopes;
      batch.SetScopes(out);
    }
  }

  lemma EmptyRun(c: Cpu)
    ensures Run(c, []) == c && AppendedFor(c, [], [])
  {
  }

  /** The names to compute utilizations for all end in "time" or "usage". */
  lemma UtilizationIsNoTrigger(prev: map<string, real>, m: Metric, u: Metric)
    requires IsUtilizationOf(prev, m, u)
    ensures !HasUtilization(u.name)
  {
    hide StemLength, Usage, Shares;
    assert u.name[|u.name| - 1] == 'n';
  }

  /** What follows the last dot of the name becomes "utilization". */
  lemma UtilizationName(prev: map<string, real>, m: Metric, u: Metric, stem: string, last: string)
    requires IsUtilizationOf(prev, m, u) && m.name == stem + last
    requires stem != [] && stem[|stem| - 1] == '.' && forall i | 0 <= i < |last| :: last[i] != '.'
    ensures u.name == stem + "utilization"
  {
    hide StemLength, Usage, Shares;
    PostfixReplaced(stem, last, "utilization");
  }
}
