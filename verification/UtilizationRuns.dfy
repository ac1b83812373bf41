/** Utilization over whole runs: which points are reported, how many metrics are appended, and what is remembered. */
module UtilizationRuns {
  import opened Pdata
  import opened Utilizations
  import opened UtilizationStage
  import LabelKeys
  import UtilizationShares

  // ------------------------------------------------------------------
  // Labels and timestamps
  // ------------------------------------------------------------------

  /** A point apart from its value. */
  function Unvalued(p: Point): Point {
    p.(value := NoValue)
  }

  function AllUnvalued(ps: seq<Point>): (r: seq<Point>)
    ensures |r| == |ps|
  {
    if ps == [] then [] else AllUnvalued(ps[..|ps| - 1]) + [Unvalued(ps[|ps| - 1])]
  }

  /** The points whose labels the previous successful call stored. */
  ghost function Stored(prev: map<string, real>, ps: seq<Point>): seq<Point> {
    if ps == [] then []
    else
      var k := |ps| - 1;
      Stored(prev, ps[..k]) + (if PointKey(ps[k]) in prev then [ps[k]] else [])
  }

  lemma UnvaluedAppended(ps: seq<Point>, p: Point)
    ensures AllUnvalued(ps + [p]) == AllUnvalued(ps) + [Unvalued(p)]
  {
    assert (ps + [p])[..|ps|] == ps;
  }

  lemma {:induction false} SharesKeepLabels(all: seq<Point>, ps: seq<Point>)
    ensures AllUnvalued(Shares(all, ps)) == AllUnvalued(ps)
  {
    hide GroupKey, GroupSum;
    if ps != [] {
      var k := |ps| - 1;
      SharesKeepLabels(all, ps[..k]);
      UnvaluedAppended(Shares(all, ps[..k]), Share(ps[k], GroupSum(all, GroupKey(ps[k]))));
    }
  }

  lemma {:induction false} DeltasKeepLabels(prev: map<string, real>, ps: seq<Point>)
    ensures AllUnvalued(Deltas(prev, ps)) == AllUnvalued(Stored(prev, ps))
  {
    hide PointKey;
    if ps != [] {
      var k := |ps| - 1;
      DeltasKeepLabels(prev, ps[..k]);
      if PointKey(ps[k]) in prev {
        UnvaluedAppended(Deltas(prev, ps[..k]), Delta(ps[k], prev[PointKey(ps[k])]));
        UnvaluedAppended(Stored(prev, ps[..k]), ps[k]);
      } else {
        assert Deltas(prev, ps) == Deltas(prev, ps[..k]) && Stored(prev, ps) == Stored(prev, ps[..k]);
      }
    }
  }

  lemma {:induction false} UnvaluedAt(ps: seq<Point>, i: nat)
    requires i < |ps|
    ensures AllUnvalued(ps)[i] == Unvalued(ps[i])
  {
    if i < |ps| - 1 {
      UnvaluedAt(ps[..|ps| - 1], i);
    }
  }

  lemma {:induction false} UnvaluedConcat(a: seq<Point>, b: seq<Point>)
    ensures AllUnvalued(a + b) == AllUnvalued(a) + AllUnvalued(b)
  {
    hide Unvalued;
    if b == [] {
      assert a + b == a;
    } else {
      var k := |b| - 1;
      UnvaluedConcat(a, b[..k]);
      assert a + b == (a + b[..k]) + [b[k]];
      UnvaluedAppended(a + b[..k], b[k]);
    }
  }

  lemma InMiddle<T>(a: seq<T>, x: T, b: seq<T>)
    ensures multiset(a + [x] + b) == multiset(a + b) + multiset{x}
  {
  }

  lemma UnvaluedWithout(ps: seq<Point>, i: nat)
    requires i < |ps|
    ensures multiset(AllUnvalued(ps)) == multiset(AllUnvalued(ps[..i] + ps[i + 1..])) + multiset{Unvalued(ps[i])}
  {
    hide AllUnvalued, Unvalued;
    var a, b := ps[..i], ps[i + 1..];
    assert AllUnvalued(ps) == AllUnvalued(a) + [Unvalued(ps[i])] + AllUnvalued(b) by {
      assert ps == a + [ps[i]] + b;
      UnvaluedAppended(a, ps[i]);
      UnvaluedConcat(a + [ps[i]], b);
    }
    assert AllUnvalued(a + b) == AllUnvalued(a) + AllUnvalued(b) by {
      UnvaluedConcat(a, b);
    }
    InMiddle(AllUnvalued(a), Unvalued(ps[i]), AllUnvalued(b));
  }

  lemma {:induction false} UnvaluedPermutation(a: seq<Point>, b: seq<Point>)
    requires multiset(a) == multiset(b)
    ensures multiset(AllUnvalued(a)) == multiset(AllUnvalued(b))
  {
    if a == [] {
      assert |multiset(b)| == 0;
    } else {
      var k := |a| - 1;
      assert a[k] in multiset(b);
      var i :| 0 <= i < |b| && b[i] == a[k];
      UtilizationShares.RestOfPermutation(a, b, i);
      UnvaluedWithout(b, i);
      UnvaluedPermutation(a[..k], b[..i] + b[i + 1..]);
      hide Unvalued;
    }
  }

  /**
   The points of a utilization metric are, up to their order and values, the points of its metric; for CPU time
   those whose labels were stored.
   */
  lemma ReportedPoints(prev: map<string, real>, m: Metric, u: Metric)
    requires IsUtilizationOf(prev, m, u)
    ensures multiset(AllUnvalued(u.data.points))
         == multiset(AllUnvalued(if m.name == CPU_TIME then Stored(prev, m.Points()) else m.Points()))
  {
    hide AllUnvalued, Stored, Deltas, Shares;
    var usage := Usage(prev, m);
    UnvaluedPermutation(u.data.points, Shares(usage, usage));
    SharesKeepLabels(usage, usage);
    DeltasKeepLabels(prev, m.Points());
  }

  /** The utilizations of every group with a sum other than zero add up to 100. */
  lemma ReportedGroupAddsUp(prev: map<string, real>, m: Metric, u: Metric, key: string)
    requires IsUtilizationOf(prev, m, u) && GroupSum(Usage(prev, m), key) != 0.0
    ensures GroupSum(u.data.points, key) == 100.0
  {
    UtilizationShares.GroupAddsUpTo100(Usage(prev, m), u.data.points, key);
  }

  // ------------------------------------------------------------------
  // Values
  // ------------------------------------------------------------------

  /** What the source divides up for a point: of CPU time how much the raw value grew, else the value. */
  ghost function Amount(cpuTime: bool, prev: map<string, real>, p: Point): real {
    var raw := match p.value case Real(d) => d case Integer(i) => (if cpuTime then 0.0 else i as real) case _ => 0.0;
    if cpuTime && PointKey(p) in prev then raw - prev[PointKey(p)] else raw
  }

  /** The amounts of the points of one group. */
  ghost function GroupAmount(cpuTime: bool, prev: map<string, real>, ps: seq<Point>, key: string): real {
    if ps == [] then 0.0
    else
      var p := ps[|ps| - 1];
      GroupAmount(cpuTime, prev, ps[..|ps| - 1], key) + (if GroupKey(p) == key then Amount(cpuTime, prev, p) else 0.0)
  }

  /** The point `p` as reported: its amount in percent of that of its group, and no number if the group has none. */
  ghost predicate IsShareOf(cpuTime: bool, prev: map<string, real>, all: seq<Point>, p: Point, u: Point) {
    var total := GroupAmount(cpuTime, prev, all, GroupKey(p));
    && u == p.(value := u.value)
    && if total == 0.0 then u.value == NonFinite
       else u.value.Real? && u.value.d * total == 100.0 * Amount(cpuTime, prev, p)
  }

  /** The reported points are, in some order, the shares of the points of the metric that have something to be compared with. */
  ghost predicate ReportsShares(prev: map<string, real>, m: Metric, u: Metric) {
    var cpuTime := m.name == "system.cpu.time";
    var ps := if cpuTime then Stored(prev, m.Points()) else m.Points();
    exists us: seq<Point> :: multiset(us) == multiset(u.Points()) && |us| == |ps|
              && forall i | 0 <= i < |ps| :: IsShareOf(cpuTime, prev, ps, ps[i], us[i])
  }

  lemma {:induction false} StoredHaveKeys(prev: map<string, real>, ps: seq<Point>)
    ensures |Deltas(prev, ps)| == |Stored(prev, ps)|
    ensures forall i | 0 <= i < |Stored(prev, ps)| ::
              && PointKey(Stored(prev, ps)[i]) in prev
              && Deltas(prev, ps)[i] == Delta(Stored(prev, ps)[i], prev[PointKey(Stored(prev, ps)[i])])
  {
    hide PointKey, Delta;
    if ps != [] {
      StoredHaveKeys(prev, ps[..|ps| - 1]);
    }
  }

  /** The points divided up carry the amounts of those they come from. */
  ghost predicate CarriesAmounts(cpuTime: bool, prev: map<string, real>, ps: seq<Point>, usage: seq<Point>) {
    |usage| == |ps| && forall i | 0 <= i < |ps| ::
      usage[i] == ps[i].(value := usage[i].value) && usage[i].value.AsReal() == Amount(cpuTime, prev, ps[i])
  }

  lemma SameGroup(p: Point, q: Point)
    requires p.attrs == q.attrs
    ensures GroupKey(p) == GroupKey(q)
  {
  }

  lemma {:induction false} AmountsAddUp(cpuTime: bool, prev: map<string, real>, ps: seq<Point>, usage: seq<Point>, key: string)
    requires CarriesAmounts(cpuTime, prev, ps, usage)
    ensures GroupSum(usage, key) == GroupAmount(cpuTime, prev, ps, key)
  {
    hide GroupKey, Amount;
    if ps != [] {
      var k := |ps| - 1;
      AmountsAddUp(cpuTime, prev, ps[..k], usage[..k], key);
      SameGroup(usage[k], ps[k]);
      assert usage == usage[..k] + [usage[k]];
      GroupAppended(usage[..k], usage[k], key);
    }
  }

  lemma SharesOfAmounts(cpuTime: bool, prev: map<string, real>, ps: seq<Point>, usage: seq<Point>)
    requires CarriesAmounts(cpuTime, prev, ps, usage)
    ensures forall i | 0 <= i < |ps| :: IsShareOf(cpuTime, prev, ps, ps[i], Shares(usage, usage)[i])
  {
    hide GroupKey, Amount, GroupAmount, GroupSum, Shares;
    forall i | 0 <= i < |ps| ensures IsShareOf(cpuTime, prev, ps, ps[i], Shares(usage, usage)[i]) {
      UtilizationShares.ShareAt(usage, usage, i);
      SameGroup(usage[i], ps[i]);
      AmountsAddUp(cpuTime, prev, ps, usage, GroupKey(ps[i]));
    }
  }

  lemma UsageCarriesAmounts(prev: map<string, real>, m: Metric)
    ensures if m.name == "system.cpu.time" then CarriesAmounts(true, prev, Stored(prev, m.Points()), Usage(prev, m))
            else CarriesAmounts(false, prev, m.Points(), Usage(prev, m))
  {
    hide PointKey, Stored, Deltas;
    StoredHaveKeys(prev, m.Points());
  }

  /**
   The values of a utilization metric in terms of raw values: for CPU time each reported point times what its group's
   raw values grew by since they were stored is 100 times what its own raw value grew by.
   */
  lemma ReportedShares(prev: map<string, real>, m: Metric, u: Metric)
    requires IsUtilizationOf(prev, m, u)
    ensures ReportsShares(prev, m, u)
  {
    hide Stored, Deltas, Shares, CarriesAmounts, IsShareOf;
    UsageCarriesAmounts(prev, m);
    var usage := Usage(prev, m);
    hide Usage;
    if m.name == "system.cpu.time" {
      SharesOfAmounts(true, prev, Stored(prev, m.Points()), usage);
      CarriesAll(true, prev, Stored(prev, m.Points()), usage);
    } else {
      SharesOfAmounts(false, prev, m.Points(), usage);
      CarriesAll(false, prev, m.Points(), usage);
    }
    assert multiset(Shares(usage, usage)) == multiset(u.Points());
  }

  lemma CarriesAll(cpuTime: bool, prev: map<string, real>, ps: seq<Point>, usage: seq<Point>)
    requires CarriesAmounts(cpuTime, prev, ps, usage)
    ensures |usage| == |ps|
  {
  }

  /** Two points have one label key exactly if their labels read the same. */
  lemma PointKeysExactly(p: Point, q: Point)
    requires LabelKeys.Unambiguous(LabelKeys.Strings(p.attrs)) && LabelKeys.Unambiguous(LabelKeys.Strings(q.attrs))
    ensures PointKey(p) == PointKey(q) <==>
              p.attrs.Keys == q.attrs.Keys && forall k | k in p.attrs :: AsString(p.attrs[k]) == AsString(q.attrs[k])
  {
    LabelKeys.KeysAreCanonical(LabelKeys.Strings(p.attrs), LabelKeys.Strings(q.attrs));
    hide LabelKeys.KeyOf, AsString;
    SameStrings(p.attrs, q.attrs);
  }

  lemma SameStrings(a: Attributes, b: Attributes)
    ensures LabelKeys.Strings(a) == LabelKeys.Strings(b) <==>
              a.Keys == b.Keys && forall k | k in a :: AsString(a[k]) == AsString(b[k])
  {
    hide AsString;
    var x, y := LabelKeys.Strings(a), LabelKeys.Strings(b);
    assert x.Keys == a.Keys && y.Keys == b.Keys;
    if x == y {
      forall k | k in a ensures AsString(a[k]) == AsString(b[k]) {
        assert x[k] == y[k];
      }
    }
  }

  /** Two points are in one group exactly if their labels but "state" read the same. */
  lemma GroupsExactly(p: Point, q: Point)
    requires LabelKeys.Unambiguous(LabelKeys.Strings(p.attrs - {"state"}))
    requires LabelKeys.Unambiguous(LabelKeys.Strings(q.attrs - {"state"}))
    ensures var a, b := p.attrs - {"state"}, q.attrs - {"state"};
            GroupKey(p) == GroupKey(q) <==> a.Keys == b.Keys && forall k | k in a :: AsString(a[k]) == AsString(b[k])
  {
    hide LabelKeys.KeyOf, AsString;
    var a, b := p.attrs - {"state"}, q.attrs - {"state"};
    assert LabelKeys.Without(LabelKeys.Strings(p.attrs), [STATE_LABEL]) == LabelKeys.Strings(a);
    assert LabelKeys.Without(LabelKeys.Strings(q.attrs), [STATE_LABEL]) == LabelKeys.Strings(b);
    LabelKeys.KeysAreCanonical(LabelKeys.Strings(a), LabelKeys.Strings(b));
    SameStrings(a, b);
  }

  // ------------------------------------------------------------------
  // Exact counts
  // ------------------------------------------------------------------

  const TRIGGERS: set<string> :=
    {"system.cpu.time", "system.memory.usage", "system.filesystem.usage", "system.paging.usage"}

  /** How many metrics ask for a utilization metric. */
  function Triggers(ms: seq<Metric>): nat {
    if ms == [] then 0 else Triggers(ms[..|ms| - 1]) + (if ms[|ms| - 1].name in TRIGGERS then 1 else 0)
  }

  lemma TriggerNames(name: string)
    ensures HasUtilization(name) <==> name in TRIGGERS
  {
  }

  /** How many metrics were walked without an error. */
  ghost function Processed(c: Cpu, ms: seq<Metric>): (n: nat)
    ensures n <= |ms|
  {
    if ms == [] || Run(c, ms).status.Going? then |ms| else Processed(c, ms[..|ms| - 1])
  }

  lemma {:induction false} ProcessedIsGoing(c: Cpu, ms: seq<Metric>)
    requires c.status.Going?
    ensures Run(c, ms[..Processed(c, ms)]).status.Going?
    ensures Run(c, ms).prev == Run(c, ms[..Processed(c, ms)]).prev
  {
    hide MetricStatus;
    if ms != [] && !Run(c, ms).status.Going? {
      var k := |ms| - 1;
      ProcessedIsGoing(c, ms[..k]);
      assert ms[..k][..Processed(c, ms[..k])] == ms[..Processed(c, ms)];
    } else {
      assert ms[..|ms|] == ms;
    }
  }

  /** One metric is appended per trigger walked without an error: with no error, one per trigger. */
  lemma {:induction false} ExactCount(c: Cpu, ms: seq<Metric>, added: seq<Metric>)
    requires c.status.Going? && AppendedFor(c, ms, added)
    ensures |added| == Triggers(ms[..Processed(c, ms)])
    ensures Run(c, ms).status.Going? ==> |added| == Triggers(ms)
  {
    hide Step, IsUtilizationOf, HasUtilization;
    if ms != [] {
      var k := |ms| - 1;
      TriggerNames(ms[k].name);
      var before := Run(c, ms[..k]);
      if before.status.Going? {
        ProcessedAll(c, ms[..k]);
        assert ms[..k][..k] == ms[..k] && ms[..|ms|] == ms;
        if HasUtilization(ms[k].name) && Step(before, ms[k]).status.Going? {
          ExactCount(c, ms[..k], added[..|added| - 1]);
        } else {
          ExactCount(c, ms[..k], added);
          if !HasUtilization(ms[k].name) {
            StuckStep(before, ms[k]);
          }
        }
      } else {
        StuckStep(before, ms[k]);
        ExactCount(c, ms[..k], added);
        assert ms[..k][..Processed(c, ms[..k])] == ms[..Processed(c, ms)];
      }
    }
  }

  lemma ProcessedAll(c: Cpu, ms: seq<Metric>)
    requires Run(c, ms).status.Going?
    ensures Processed(c, ms) == |ms|
  {
  }

  /** Every trigger walked without an error has its own utilization metric, in the order of the triggers. */
  lemma {:induction false} EachTriggerOnce(c: Cpu, ms: seq<Metric>, added: seq<Metric>, i: nat)
    requires c.status.Going? && AppendedFor(c, ms, added)
    requires i < Processed(c, ms) && ms[i].name in TRIGGERS
    ensures Triggers(ms[..i]) < |added|
    ensures IsUtilizationOf(Run(c, ms[..i]).prev, ms[i], added[Triggers(ms[..i])])
  {
    hide Step, IsUtilizationOf, HasUtilization;
    var k := |ms| - 1;
    var before := Run(c, ms[..k]);
    TriggerNames(ms[k].name);
    if i < k {
      assert ms[..k][..i] == ms[..i];
      if before.status.Going? {
        ProcessedAll(c, ms[..k]);
        EachTriggerOnce(c, ms[..k], if HasUtilization(ms[k].name) && Step(before, ms[k]).status.Going? then added[..|added| - 1] else added, i);
      } else {
        StuckStep(before, ms[k]);
        EachTriggerOnce(c, ms[..k], added, i);
      }
    } else {
      assert Run(c, ms).status.Going?;
      GoingStep(before, ms[k]);
      ExactCount(c, ms[..k], added[..|added| - 1]);
    }
  }

  lemma GoingStep(c: Cpu, m: Metric)
    requires Step(c, m).status.Going?
    ensures c.status.Going?
  {
  }

  // ------------------------------------------------------------------
  // What is remembered
  // ------------------------------------------------------------------

  /** The values of the last CPU time metric of a run, or what was remembered before it. */
  ghost function Memory(prev: map<string, real>, ms: seq<Metric>): map<string, real> {
    if ms == [] then prev
    else if ms[|ms| - 1].name == CPU_TIME then PointValues(ms[|ms| - 1].Points())
    else Memory(prev, ms[..|ms| - 1])
  }

  lemma {:induction false} GoingRemembers(c: Cpu, ms: seq<Metric>)
    requires Run(c, ms).status.Going?
    ensures Run(c, ms).prev == Memory(c.prev, ms)
  {
    hide MetricStatus, PointValues;
    if ms != [] {
      GoingRemembers(c, ms[..|ms| - 1]);
    }
  }

  /** After any run the values remembered are those of the last CPU time metric that did not fail. */
  lemma RemembersLastSuccess(c: Cpu, ms: seq<Metric>)
    requires c.status.Going?
    ensures Run(c, ms).prev == Memory(c.prev, ms[..Processed(c, ms)])
  {
    ProcessedIsGoing(c, ms);
    GoingRemembers(c, ms[..Processed(c, ms)]);
  }

  /** The metrics of a batch, scope after scope. */
  function Flat(scopes: seq<seq<Metric>>): seq<Metric> {
    if scopes == [] then [] else Flat(scopes[..|scopes| - 1]) + scopes[|scopes| - 1]
  }

  lemma {:induction false} RunConcat(c: Cpu, a: seq<Metric>, b: seq<Metric>)
    ensures Run(c, a + b) == Run(Run(c, a), b)
  {
    hide Step;
    if b == [] {
      assert a + b == a;
    } else {
      var k := |b| - 1;
      assert (a + b)[..|a + b| - 1] == a + b[..k];
      RunConcat(c, a, b[..k]);
    }
  }

  lemma {:induction false} ScopesAreOneRun(c: Cpu, scopes: seq<seq<Metric>>)
    ensures RunScopes(c, scopes) == Run(c, Flat(scopes))
  {
    if scopes != [] {
      var k := |scopes| - 1;
      ScopesAreOneRun(c, scopes[..k]);
      RunConcat(c, Flat(scopes[..k]), scopes[k]);
    }
  }

  /** The values remembered after some batches, each walked by `AppendUtilizationMetrics`. */
  ghost function AfterBatches(prev: map<string, real>, batches: seq<seq<seq<Metric>>>): map<string, real> {
    if batches == [] then prev
    else
      var k := |batches| - 1;
      RunScopes(Cpu(AfterBatches(prev, batches[..k]), Going), batches[k]).prev
  }

  /** The metrics walked without an error in some batches, in order. */
  ghost function Succeeded(prev: map<string, real>, batches: seq<seq<seq<Metric>>>): seq<Metric> {
    if batches == [] then []
    else
      var k := |batches| - 1;
      var ms := Flat(batches[k]);
      Succeeded(prev, batches[..k]) + ms[..Processed(Cpu(AfterBatches(prev, batches[..k]), Going), ms)]
  }

  lemma {:induction false} MemoryConcat(prev: map<string, real>, a: seq<Metric>, b: seq<Metric>)
    ensures Memory(prev, a + b) == Memory(Memory(prev, a), b)
  {
    hide PointValues;
    if b == [] {
      assert a + b == a;
    } else {
      var k := |b| - 1;
      assert (a + b)[..|a + b| - 1] == a + b[..k];
      MemoryConcat(prev, a, b[..k]);
    }
  }

  /** Whatever failed in between, what is remembered after any batches comes from the last CPU time metric that succeeded. */
  lemma {:induction false} RemembersOverBatches(prev: map<string, real>, batches: seq<seq<seq<Metric>>>)
    ensures AfterBatches(prev, batches) == Memory(prev, Succeeded(prev, batches))
  {
    if batches != [] {
      var k := |batches| - 1;
      var c, ms := Cpu(AfterBatches(prev, batches[..k]), Going), Flat(batches[k]);
      RemembersOverBatches(prev, batches[..k]);
      ScopesAreOneRun(c, batches[k]);
      RemembersLastSuccess(c, ms);
      MemoryConcat(prev, Succeeded(prev, batches[..k]), ms[..Processed(c, ms)]);
    }
  }

  // ------------------------------------------------------------------
  // From one CPU time metric to the next
  // ------------------------------------------------------------------

  /** The raw values of some points, by the key of their labels; of several points with one key the last. */
  ghost predicate IsReadOff(prev: map<string, real>, ps: seq<Point>) {
    && (forall key :: key in prev <==> exists n :: 0 <= n < |ps| && PointKey(ps[n]) == key)
    && forall n | 0 <= n < |ps| && forall i | n < i < |ps| :: PointKey(ps[i]) != PointKey(ps[n]) ::
         PointKey(ps[n]) in prev && prev[PointKey(ps[n])] == if ps[n].value.Real? then ps[n].value.d else 0.0
  }

  lemma ValuesAreReadOff(ps: seq<Point>)
    ensures IsReadOff(PointValues(ps), ps)
  {
    hide PointKey, PointValues;
    forall key ensures key in PointValues(ps) <==> exists n :: 0 <= n < |ps| && PointKey(ps[n]) == key {
      StoredHasPoint(ps, key);
    }
    forall n | 0 <= n < |ps| && forall i | n < i < |ps| :: PointKey(ps[i]) != PointKey(ps[n])
      ensures PointKey(ps[n]) in PointValues(ps)
      ensures PointValues(ps)[PointKey(ps[n])] == if ps[n].value.Real? then ps[n].value.d else 0.0
    {
      StoredIsLastValue(ps, PointKey(ps[n]), n);
    }
  }

  predicate IsLastCpuTime(ms: seq<Metric>, i: nat) {
    i < |ms| && ms[i].name == "system.cpu.time" && forall j | i < j < |ms| :: ms[j].name != "system.cpu.time"
  }

  lemma {:induction false} MemoryIsReadOff(prev: map<string, real>, ms: seq<Metric>, i: nat)
    requires IsLastCpuTime(ms, i)
    ensures IsReadOff(Memory(prev, ms), ms[i].Points())
  {
    hide IsReadOff, PointValues;
    if i < |ms| - 1 {
      MemoryIsReadOff(prev, ms[..|ms| - 1], i);
    } else {
      ValuesAreReadOff(ms[i].Points());
    }
  }

  lemma {:induction false} GoingBefore(c: Cpu, ms: seq<Metric>, k: nat)
    requires k <= |ms| && Run(c, ms).status.Going?
    ensures Run(c, ms[..k]).status.Going?
  {
    hide Step;
    if k < |ms| {
      var n := |ms| - 1;
      GoingStep(Run(c, ms[..n]), ms[n]);
      assert ms[..n][..k] == ms[..k];
      GoingBefore(c, ms[..n], k);
    } else {
      assert ms[..k] == ms;
    }
  }

  lemma BeforeProcessed(c: Cpu, ms: seq<Metric>, j: nat)
    requires c.status.Going? && j < Processed(c, ms)
    ensures Run(c, ms[..j]).prev == Memory(c.prev, ms[..j])
  {
    hide Run, Memory, Processed;
    ProcessedIsGoing(c, ms);
    var walked := ms[..Processed(c, ms)];
    GoingBefore(c, walked, j);
    assert walked[..j] == ms[..j];
    GoingRemembers(c, ms[..j]);
  }

  /**
   A CPU time metric, walked without an error, after others of which the last is metric `i`: its utilization metric
   reports the shares of what the raw values grew by since that metric.
   */
  lemma SharesSinceLast(done: seq<Metric>, ms: seq<Metric>, added: seq<Metric>, i: nat, j: nat)
    requires var c := Cpu(Memory(map[], done), Going); AppendedFor(c, ms, added) && j < Processed(c, ms)
    requires ms[j].name == "system.cpu.time" && IsLastCpuTime(done + ms[..j], i)
    ensures Triggers(ms[..j]) < |added|
    ensures exists prev :: IsReadOff(prev, (done + ms[..j])[i].Points())
                        && ReportsShares(prev, ms[j], added[Triggers(ms[..j])])
  {
    hide IsReadOff, ReportsShares, AppendedFor, IsUtilizationOf, Run, Memory, Processed, Triggers;
    var c := Cpu(Memory(map[], done), Going);
    BeforeProcessed(c, ms, j);
    MemoryConcat(map[], done, ms[..j]);
    MemoryIsReadOff(map[], done + ms[..j], i);
    EachTriggerOnce(c, ms, added, j);
    ReportedShares(Run(c, ms[..j]).prev, ms[j], added[Triggers(ms[..j])]);
  }

  /** The same over any calls: in scope `n` of a batch, after all batches before it, whatever failed in them. */
  lemma SharesOverBatches(batches: seq<seq<seq<Metric>>>, scopes: seq<seq<Metric>>, n: nat, added: seq<Metric>,
      i: nat, j: nat)
    requires n < |scopes|
    requires var c := RunScopes(Cpu(AfterBatches(map[], batches), Going), scopes[..n]);
             c.status.Going? && AppendedFor(c, scopes[n], added) && j < Processed(c, scopes[n])
    requires scopes[n][j].name == "system.cpu.time"
    requires IsLastCpuTime(Succeeded(map[], batches) + Flat(scopes[..n]) + scopes[n][..j], i)
    ensures Triggers(scopes[n][..j]) < |added|
    ensures var before := Succeeded(map[], batches) + Flat(scopes[..n]) + scopes[n][..j];
            exists prev :: IsReadOff(prev, before[i].Points())
                        && ReportsShares(prev, scopes[n][j], added[Triggers(scopes[n][..j])])
  {
    hide *;
    var c0 := Cpu(AfterBatches(map[], batches), Going);
    ScopesAreOneRun(c0, scopes[..n]);
    GoingRemembers(c0, Flat(scopes[..n]));
    RemembersOverBatches(map[], batches);
    MemoryConcat(map[], Succeeded(map[], batches), Flat(scopes[..n]));
    var done := Succeeded(map[], batches) + Flat(scopes[..n]);
    assert RunScopes(c0, scopes[..n]) == Cpu(Memory(map[], done), Going);
    SharesSinceLast(done, scopes[n], added, i, j);
  }
}
