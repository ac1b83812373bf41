/** The stage that splits disk metrics with a `direction` label into a read and a write metric. */
module SplitReadWrite {
  import opened Go
  import opened Pdata

  const HOST_DISK_BYTES: string := "system.disk.io"
  const PROCESS_DISK_BYTES: string := "process.disk.io"
  const DIRECTION_LABEL: string := "direction"
  const READ: string := "read"
  const WRITE: string := "write"

  /** `metricsToSplit`. */
  predicate IsSplit(name: string) {
    name == HOST_DISK_BYTES || name == PROCESS_DISK_BYTES
  }

  predicate HasDirection(p: Point, direction: string) {
    DIRECTION_LABEL in p.attrs && p.attrs[DIRECTION_LABEL] == Str(direction)
  }

  predicate Splittable(p: Point) {
    HasDirection(p, READ) || HasDirection(p, WRITE)
  }

  function WithoutDirection(p: Point): Point {
    p.(attrs := p.attrs - {DIRECTION_LABEL})
  }

  // ------------------------------------------------------------------
  // One metric
  // ------------------------------------------------------------------

  /** The points of one direction, in order, without the label. */
  function OfDirection(ps: seq<Point>, direction: string): seq<Point> {
    if ps == [] then []
    else
      var k := |ps| - 1;
      OfDirection(ps[..k], direction) + (if HasDirection(ps[k], direction) then [WithoutDirection(ps[k])] else [])
  }

  /** An error is returned for a metric that is no Sum or Gauge, or has a point of neither direction. */
  predicate CanSplit(m: Metric) {
    !m.data.OtherData? && forall i | 0 <= i < |m.data.points| :: Splittable(m.data.points[i])
  }

  function Half(m: Metric, direction: string): Metric
    requires CanSplit(m)
  {
    m.WithPoints(OfDirection(m.Points(), direction)).(name := WithPostfix(m.name, direction + "_" + Postfix(m.name)))
  }

  method AppendNumberDataPoints(ps: seq<Point>) returns (s: Status, read: seq<Point>, write: seq<Point>)
    ensures s == if forall i | 0 <= i < |ps| :: Splittable(ps[i]) then Going else Failed
    ensures s.Going? ==> read == OfDirection(ps, READ) && write == OfDirection(ps, WRITE)
  {
    s, read, write := Going, [], [];
    for i := 0 to |ps|
      invariant s == Going && forall j | 0 <= j < i :: Splittable(ps[j])
      invariant read == OfDirection(ps[..i], READ) && write == OfDirection(ps[..i], WRITE)
    {
      assert ps[..i + 1][..i] == ps[..i];
      var ndp := ps[i];
      if DIRECTION_LABEL !in ndp.attrs {
        return Failed, read, write;
      }
      match ndp.attrs[DIRECTION_LABEL]
      case Str(dir) =>
        if dir == READ {
          read := read + [WithoutDirection(ndp)];
        } else if dir == WRITE {
          write := write + [WithoutDirection(ndp)];
        } else {
          return Failed, read, write;
        }
      case _ =>
        return Failed, read, write;
    }
    assert ps[..|ps|] == ps;
  }

  method SplitReadWriteBytesMetric(m: Metric) returns (s: Status, read: Metric, write: Metric)
    ensures s == if CanSplit(m) then Going else Failed
    ensures CanSplit(m) ==> read == Half(m, READ) && write == Half(m, WRITE)
  {
    hide OfDirection, Splittable;
    read := m.(name := WithPostfix(m.name, "read_" + Postfix(m.name)));
    write := m.(name := WithPostfix(m.name, "write_" + Postfix(m.name)));
    if m.data.OtherData? {
      return Failed, read, write;
    }
    var readPoints, writePoints;
    s, readPoints, writePoints := AppendNumberDataPoints(m.data.points);
    read, write := read.WithPoints(readPoints), write.WithPoints(writePoints);
    assert READ + "_" == "read_" && WRITE + "_" == "write_";
  }

  function CountOf(ps: seq<Point>, direction: string): nat {
    if ps == [] then 0
    else CountOf(ps[..|ps| - 1], direction) + (if HasDirection(ps[|ps| - 1], direction) then 1 else 0)
  }

  lemma {:induction false} HalfHasCount(ps: seq<Point>, direction: string)
    ensures |OfDirection(ps, direction)| == CountOf(ps, direction)
  {
    hide HasDirection;
    if ps != [] {
      HalfHasCount(ps[..|ps| - 1], direction);
    }
  }

  /** Nothing is lost and nothing doubled: the two halves have the points of the metric. */
  lemma {:induction false} HalvesAddUp(ps: seq<Point>)
    requires forall i | 0 <= i < |ps| :: Splittable(ps[i])
    ensures |OfDirection(ps, READ)| + |OfDirection(ps, WRITE)| == |ps|
  {
    if ps != [] {
      HalvesAddUp(ps[..|ps| - 1]);
      assert Splittable(ps[|ps| - 1]);
    }
  }

  /**
   Each point is found in the half of its direction, behind the points of that direction before it, and with the
   label put back it is the original point.
   */
  lemma {:induction false} HalvesRebuildPoints(ps: seq<Point>, i: nat, direction: string)
    requires i < |ps| && HasDirection(ps[i], direction)
    ensures var half, at := OfDirection(ps, direction), CountOf(ps[..i], direction);
            && at < |half| && "direction" !in half[at].attrs
            && half[at].(attrs := half[at].attrs["direction" := Str(direction)]) == ps[i]
  {
    var k := |ps| - 1;
    if i < k {
      assert ps[..k][..i] == ps[..i];
      HalvesRebuildPoints(ps[..k], i, direction);
    } else {
      HalfHasCount(ps[..k], direction);
      var attrs := ps[k].attrs;
      assert (attrs - {DIRECTION_LABEL})[DIRECTION_LABEL := Str(direction)] == attrs;
    }
  }

  // ------------------------------------------------------------------
  // One scope
  // ------------------------------------------------------------------

  /** The walk goes on as long as every metric to split can be. */
  predicate AllSplit(ms: seq<Metric>) {
    forall i | 0 <= i < |ms| && IsSplit(ms[i].name) :: CanSplit(ms[i])
  }

  /** The metrics of a scope after the walk: up to an error those to split are overwritten by their read half. */
  function Overwritten(ms: seq<Metric>): (r: seq<Metric>)
    ensures |r| == |ms|
  {
    if ms == [] then []
    else
      var k := |ms| - 1;
      Overwritten(ms[..k]) + [if AllSplit(ms) && IsSplit(ms[k].name) then Half(ms[k], READ) else ms[k]]
  }

  /** The metrics appended: the write halves, in order. */
  function WriteHalves(ms: seq<Metric>): seq<Metric> {
    if ms == [] then []
    else
      var k := |ms| - 1;
      WriteHalves(ms[..k]) + (if AllSplit(ms) && IsSplit(ms[k].name) then [Half(ms[k], WRITE)] else [])
  }

  function Split(ms: seq<Metric>): seq<Metric> {
    Overwritten(ms) + WriteHalves(ms)
  }

  /** A new name is longer than any name to split. */
  lemma HalfIsNoTrigger(m: Metric, direction: string)
    requires IsSplit(m.name) && CanSplit(m) && (direction == READ || direction == WRITE)
    ensures !IsSplit(Half(m, direction).name)
    ensures Half(m, direction).(name := m.name) == m.WithPoints(Half(m, direction).Points())
    ensures Half(m, direction).name
         == (if m.name == HOST_DISK_BYTES then "system.disk." else "process.disk.") + direction + "_io"
  {
    hide OfDirection, StemLength;
    var stem := if m.name == HOST_DISK_BYTES then "system.disk." else "process.disk.";
    var io: string := "io";
    assert m.name == stem + io;
    PostfixOf(stem, io);
    assert (stem + io)[..|stem|] == stem;
  }

  lemma ErrorInPart(ms: seq<Metric>, k: nat)
    requires k <= |ms| && !AllSplit(ms[..k])
    ensures !AllSplit(ms)
  {
    hide CanSplit, IsSplit;
    var i :| 0 <= i < k && IsSplit(ms[..k][i].name) && !CanSplit(ms[..k][i]);
    assert IsSplit(ms[i].name) && !CanSplit(ms[i]);
  }

  lemma {:induction false} ErrorStopsWalk(ms: seq<Metric>, k: nat)
    requires k <= |ms| && !AllSplit(ms[..k])
    ensures Overwritten(ms) == Overwritten(ms[..k]) + ms[k..] && WriteHalves(ms) == WriteHalves(ms[..k])
    ensures !AllSplit(ms)
  {
    hide CanSplit, IsSplit, Half, AllSplit;
    ErrorInPart(ms, k);
    if k == |ms| {
      assert ms[..k] == ms && ms[k..] == [];
    } else {
      var n := |ms| - 1;
      assert ms[..n][..k] == ms[..k] && ms[..n][k..] + [ms[n]] == ms[k..];
      ErrorStopsWalk(ms[..n], k);
      assert WriteHalves(ms[..n]) + [] == WriteHalves(ms[..n]);
    }
  }

  lemma SplitStep(ms: seq<Metric>, k: nat)
    requires k < |ms| && AllSplit(ms[..k])
    ensures AllSplit(ms[..k + 1]) <==> !IsSplit(ms[k].name) || CanSplit(ms[k])
    ensures Overwritten(ms[..k + 1]) == Overwritten(ms[..k])
         + [if AllSplit(ms[..k + 1]) && IsSplit(ms[k].name) then Half(ms[k], READ) else ms[k]]
    ensures WriteHalves(ms[..k + 1]) == WriteHalves(ms[..k])
         + if AllSplit(ms[..k + 1]) && IsSplit(ms[k].name) then [Half(ms[k], WRITE)] else []
  {
    hide CanSplit, IsSplit, Half;
    var before, after := ms[..k], ms[..k + 1];
    assert after[..k] == before && after[k] == ms[k] && |after| == k + 1;
    assert forall i | 0 <= i < k :: after[i] == before[i];
  }

  /** The state of the walk over a scope: the part before `k` is split. */
  ghost predicate SplitUpTo(ms: seq<Metric>, k: nat, out: seq<Metric>) {
    k <= |ms| && AllSplit(ms[..k]) && out == Overwritten(ms[..k]) + ms[k..] + WriteHalves(ms[..k])
  }

  lemma Rejoined<T>(a: seq<T>, x: T, b: seq<T>, c: seq<T>, y: T, w: seq<T>)
    ensures (a + ([x] + b) + c)[|a| := y] + w == (a + [y]) + b + (c + w)
  {
  }

  /** The `k`-th metric is replaced by `y`, and `w` is appended. */
  lemma WalkOne(ms: seq<Metric>, k: nat, out: seq<Metric>, y: Metric, w: seq<Metric>)
    requires SplitUpTo(ms, k, out) && k < |ms| && AllSplit(ms[..k + 1])
    requires Overwritten(ms[..k + 1]) == Overwritten(ms[..k]) + [y]
    requires WriteHalves(ms[..k + 1]) == WriteHalves(ms[..k]) + w
    ensures SplitUpTo(ms, k + 1, out[k := y] + w)
  {
    hide Overwritten, WriteHalves, AllSplit;
    var a, b, c := Overwritten(ms[..k]), ms[k + 1..], WriteHalves(ms[..k]);
    assert ms[k..] == [ms[k]] + b;
    Rejoined(a, ms[k], b, c, y, w);
  }

  lemma SkipOne(ms: seq<Metric>, k: nat, out: seq<Metric>)
    requires SplitUpTo(ms, k, out) && k < |ms| && !IsSplit(ms[k].name)
    ensures SplitUpTo(ms, k + 1, out)
  {
    hide Overwritten, WriteHalves, Half, CanSplit, IsSplit, AllSplit;
    assert AllSplit(ms[..k]);
    SplitStep(ms, k);
    NextIs(ms, k, out);
    assert WriteHalves(ms[..k]) + [] == WriteHalves(ms[..k]);
    WalkOne(ms, k, out, ms[k], []);
    hide SplitUpTo;
    assert out[k := ms[k]] + [] == out;
  }

  lemma SplitOne(ms: seq<Metric>, k: nat, out: seq<Metric>)
    requires SplitUpTo(ms, k, out) && k < |ms| && IsSplit(ms[k].name) && CanSplit(ms[k])
    ensures SplitUpTo(ms, k + 1, out[k := Half(ms[k], READ)] + [Half(ms[k], WRITE)])
  {
    hide Overwritten, WriteHalves, Half, CanSplit, IsSplit, AllSplit;
    assert AllSplit(ms[..k]);
    SplitStep(ms, k);
    WalkOne(ms, k, out, Half(ms[k], READ), [Half(ms[k], WRITE)]);
    hide SplitUpTo;
  }

  lemma FailOne(ms: seq<Metric>, k: nat, out: seq<Metric>)
    requires SplitUpTo(ms, k, out) && k < |ms| && IsSplit(ms[k].name) && !CanSplit(ms[k])
    ensures !AllSplit(ms) && out == Split(ms)
  {
    hide Overwritten, WriteHalves, Half, CanSplit, IsSplit, AllSplit;
    assert AllSplit(ms[..k]);
    SplitStep(ms, k);
    ErrorStopsWalk(ms, k + 1);
    var a, b, c := Overwritten(ms[..k]), ms[k + 1..], WriteHalves(ms[..k]);
    assert Overwritten(ms) == (a + [ms[k]]) + b && WriteHalves(ms) == c + [];
    assert ms[k..] == [ms[k]] + b;
    NothingMoved(a, ms[k], b, c);
  }

  lemma NothingMoved<T>(a: seq<T>, x: T, b: seq<T>, c: seq<T>)
    ensures a + ([x] + b) + c == ((a + [x]) + b) + (c + [])
  {
  }

  lemma NextIs(ms: seq<Metric>, k: nat, out: seq<Metric>)
    requires SplitUpTo(ms, k, out) && k < |ms|
    ensures out[k] == ms[k]
  {
    hide Overwritten, WriteHalves, AllSplit;
  }

  /**
   The loop over the metrics of a scope, which grows while it is walked. It ends because neither half has a name
   to split. On an error the metric at fault stays as it was.
   */
  method SplitScope(ms: seq<Metric>) returns (s: Status, out: seq<Metric>)
    ensures s == if AllSplit(ms) then Going else Failed
    ensures out == Split(ms)
  {
    hide CanSplit, IsSplit, Overwritten, WriteHalves, Half, AllSplit;
    var k := 0;
    s, out := Going, ms;
    NothingSplit(ms);
    while k < |out|
      invariant k <= |out| && |ms| <= |out| && SplitUpTo(ms, Min(k, |ms|), out)
      invariant forall i | |ms| <= i < |out| :: !IsSplit(out[i].name)
      decreases |ms| - Min(k, |ms|), |out| - k
    {
      var m := out[k];
      if k < |ms| {
        NextIs(ms, k, out);
        if !IsSplit(m.name) {
          SkipOne(ms, k, out);
        }
      }
      if IsSplit(m.name) {
        var read, write;
        s, read, write := SplitReadWriteBytesMetric(m);
        if !s.Going? {
          FailOne(ms, k, out);
          return;
        }
        SplitOne(ms, k, out);
        HalfIsNoTrigger(m, WRITE);
        out := out[k := read] + [write];
      }
      k := k + 1;
    }
    AllIsSplit(ms, out);
    s := Going;
  }

  lemma NothingSplit(ms: seq<Metric>)
    ensures SplitUpTo(ms, 0, ms)
  {
    assert [] + ms[0..] + [] == ms;
  }

  lemma AllIsSplit(ms: seq<Metric>, out: seq<Metric>)
    requires SplitUpTo(ms, |ms|, out)
    ensures AllSplit(ms) && out == Split(ms)
  {
    hide Overwritten, WriteHalves;
    assert ms[..|ms|] == ms && Overwritten(ms) + [] == Overwritten(ms);
  }

  const TRIGGERS: set<string> := {"system.disk.io", "process.disk.io"}

  function Triggers(ms: seq<Metric>): nat {
    if ms == [] then 0 else Triggers(ms[..|ms| - 1]) + (if ms[|ms| - 1].name in TRIGGERS then 1 else 0)
  }

  lemma TriggerNames(name: string)
    ensures IsSplit(name) <==> name in TRIGGERS
  {
  }

  lemma AllSplitBefore(ms: seq<Metric>)
    requires ms != [] && AllSplit(ms)
    ensures AllSplit(ms[..|ms| - 1])
  {
    hide CanSplit, IsSplit;
  }

  /** With no error each metric to split adds one metric. */
  lemma {:induction false} OneMorePerTrigger(ms: seq<Metric>)
    requires AllSplit(ms)
    ensures |Split(ms)| == |ms| + Triggers(ms)
  {
    hide CanSplit, IsSplit, AllSplit;
    if ms != [] {
      TriggerNames(ms[|ms| - 1].name);
      AllSplitBefore(ms);
      OneMorePerTrigger(ms[..|ms| - 1]);
    }
  }

  predicate NoneToSplit(ms: seq<Metric>) {
    forall i | 0 <= i < |ms| :: ms[i].name !in TRIGGERS
  }

  lemma NoneInBoth(a: seq<Metric>, b: seq<Metric>)
    requires NoneToSplit(a) && NoneToSplit(b)
    ensures NoneToSplit(a + b)
  {
    hide IsSplit;
  }

  lemma NoneInOne(m: Metric)
    requires !IsSplit(m.name)
    ensures NoneToSplit([m])
  {
    TriggerNames(m.name);
  }

  /** With no error no metric has a name to split any more. */
  lemma {:induction false} NoneLeftToSplit(ms: seq<Metric>)
    requires AllSplit(ms)
    ensures NoneToSplit(Overwritten(ms)) && NoneToSplit(WriteHalves(ms)) && NoneToSplit(Split(ms))
  {
    hide IsSplit, CanSplit, Half;
    if ms != [] {
      var k := |ms| - 1;
      AllSplitBefore(ms);
      NoneLeftToSplit(ms[..k]);
      var read, write := ms[k], [];
      if IsSplit(ms[k].name) {
        assert CanSplit(ms[k]);
        HalfIsNoTrigger(ms[k], READ);
        HalfIsNoTrigger(ms[k], WRITE);
        read, write := Half(ms[k], READ), [Half(ms[k], WRITE)];
        NoneInOne(Half(ms[k], WRITE));
      }
      assert Overwritten(ms) == Overwritten(ms[..k]) + [read] && WriteHalves(ms) == WriteHalves(ms[..k]) + write;
      hide Overwritten, WriteHalves, AllSplit;
      NoneInOne(read);
      NoneInBoth(Overwritten(ms[..k]), [read]);
      NoneInBoth(WriteHalves(ms[..k]), write);
    }
    NoneInBoth(Overwritten(ms), WriteHalves(ms));
  }

  /** The metric at which the walk failed, and every metric after it, is as it was. */
  lemma {:induction false} ErrorLeavesMetric(ms: seq<Metric>, i: nat)
    requires i < |ms| && !AllSplit(ms[..i + 1])
    ensures Split(ms)[i] == ms[i]
  {
    ErrorStopsWalk(ms, i + 1);
    assert Overwritten(ms)[i] == Overwritten(ms[..i + 1])[i];
    assert ms[..i + 1][i] == ms[i];
  }

  // ------------------------------------------------------------------
  // Batches
  // ------------------------------------------------------------------

  predicate AllScopesSplit(scopes: seq<seq<Metric>>) {
    forall n | 0 <= n < |scopes| :: AllSplit(scopes[n])
  }

  /** The stage: walks the scopes in order and stops at the first error. */
  method SplitReadWriteBytesMetrics(batch: Batch) returns (s: Status)
    modifies batch
    ensures s == if AllScopesSplit(Scopes(old(batch.rms))) then Going else Failed
    ensures |Scopes(batch.rms)| == |Scopes(old(batch.rms))|
    ensures batch.rms == WithScopes(old(batch.rms), Scopes(batch.rms))
    ensures var scopes := Scopes(old(batch.rms));
            forall n | 0 <= n < |scopes| :: Scopes(batch.rms)[n]
                      == if AllScopesSplit(scopes[..n]) then Split(scopes[n]) else scopes[n]
  {
    hide Scopes, WithScopes, AllSplit, Split;
    var scopes := Scopes(batch.rms);
    var out := scopes;
    s := Going;
    for n := 0 to |scopes|
      invariant |out| == |scopes| && out[n..] == scopes[n..] && batch.rms == old(batch.rms)
      invariant s == Going && AllScopesSplit(scopes[..n])
      invariant forall m | 0 <= m < n :: out[m] == Split(scopes[m]) && AllScopesSplit(scopes[..m])
    {
      var ms;
      s, ms := SplitScope(scopes[n]);
      out := out[n := ms];
      if !s.Going? {
        forall m | n < m <= |scopes| ensures !AllScopesSplit(scopes[..m]) {
          assert scopes[..m][n] == scopes[n];
        }
        assert scopes[..|scopes|] == scopes;
        break;
      }
      assert forall m | 0 <= m < n :: scopes[..n + 1][m] == scopes[..n][m];
    }
    assert scopes[..|scopes|] == scopes;
    assert forall m | 0 <= m < |scopes| :: out[m] == if AllScopesSplit(scopes[..m]) then Split(scopes[m]) else scopes[m];
    batch.SetScopes(out);
  }
}
