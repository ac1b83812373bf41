/** Utilization metrics: each point's share of the sum over its `state` label, of deltas for CPU time. */
module Utilizations {
  import opened Pdata
  import opened LabelKeys

  const CPU_TIME: string := "system.cpu.time"
  const STATE_LABEL: string := "state"

  /** `metricsToComputeUtilizationFor`. */
  predicate HasUtilization(name: string) {
    name == CPU_TIME || name == "system.memory.usage" || name == "system.filesystem.usage"
    || name == "system.paging.usage"
  }

  // ------------------------------------------------------------------
  // Groups of points
  // ------------------------------------------------------------------

  /** The key of a point's labels apart from `state`. */
  ghost function GroupKey(p: Point): string {
    KeyOf(Without(Strings(p.attrs), [STATE_LABEL]))
  }

  ghost function GroupPoints(ps: seq<Point>, key: string): seq<Point> {
    if ps == [] then []
    else
      var k := |ps| - 1;
      GroupPoints(ps[..k], key) + (if GroupKey(ps[k]) == key then [ps[k]] else [])
  }

  function SumOf(ps: seq<Point>): real {
    if ps == [] then 0.0 else SumOf(ps[..|ps| - 1]) + ps[|ps| - 1].value.AsReal()
  }

  /** The sum of the values in one group. */
  ghost function GroupSum(ps: seq<Point>, key: string): real {
    SumOf(GroupPoints(ps, key))
  }

  /** `num / sum * 100`; dividing by zero leaves NaN or an infinity. */
  function Percentage(num: real, sum: real): Number {
    if sum == 0.0 then NonFinite else Real(num / sum * 100.0)
  }

  /** A point as reported: labels and timestamps kept, the value its share of its group's sum. */
  function Share(p: Point, sum: real): Point {
    p.(value := Percentage(p.value.AsReal(), sum))
  }

  /** The points to report, in the order of the points they are computed from. */
  ghost function Shares(all: seq<Point>, ps: seq<Point>): (r: seq<Point>)
    ensures |r| == |ps|
  {
    if ps == [] then []
    else
      var k := |ps| - 1;
      Shares(all, ps[..k]) + [Share(ps[k], GroupSum(all, GroupKey(ps[k])))]
  }

  lemma GroupKeyIs(p: Point)
    ensures GroupKey(p) == KeyOf(Without(Strings(p.attrs), [STATE_LABEL]))
  {
  }

  lemma GroupAppended(ps: seq<Point>, p: Point, key: string)
    ensures GroupPoints(ps + [p], key) == GroupPoints(ps, key) + (if GroupKey(p) == key then [p] else [])
    ensures GroupSum(ps + [p], key) == GroupSum(ps, key) + (if GroupKey(p) == key then p.value.AsReal() else 0.0)
  {
    hide GroupKey;
    assert (ps + [p])[..|ps|] == ps;
    var pts := GroupPoints(ps, key);
    assert (pts + [p])[..|pts|] == pts;
    assert pts + [] == pts;
  }

  lemma SharesAppended(all: seq<Point>, ps: seq<Point>, p: Point)
    ensures Shares(all, ps + [p]) == Shares(all, ps) + [Share(p, GroupSum(all, GroupKey(p)))]
  {
    assert (ps + [p])[..|ps|] == ps;
  }

  // ------------------------------------------------------------------
  // Computing the shares
  // ------------------------------------------------------------------

  datatype NumberPoints = NumberPoints(pts: seq<Point>, sum: real)

  predicate AllHaveState(ps: seq<Point>) {
    forall i | 0 <= i < |ps| :: STATE_LABEL in ps[i].attrs
  }

  /**
   How grouping ends: with an error at the first point that has no `state`, or with a panic at one that has no
   label at all, because `otherLabelsAsKey` then asks for a slice of capacity -1.
   */
  function GroupingStatus(ps: seq<Point>): (s: Status)
    ensures s.Going? <==> AllHaveState(ps)
  {
    if ps == [] then Going
    else
      var k := |ps| - 1;
      var s := GroupingStatus(ps[..k]);
      if !s.Going? then s
      else if ps[k].attrs == map[] then Panicked
      else if STATE_LABEL !in ps[k].attrs then Failed
      else Going
  }

  /** The first point without the label "state" decides: a panic if it has no label at all, and else an error. */
  lemma {:induction false} FirstStatelessDecides(ps: seq<Point>, i: nat)
    requires i < |ps| && "state" !in ps[i].attrs && forall j | 0 <= j < i :: "state" in ps[j].attrs
    ensures GroupingStatus(ps) == if ps[i].attrs == map[] then Panicked else Failed
  {
    var k := |ps| - 1;
    if i < k {
      FirstStatelessDecides(ps[..k], i);
    }
  }

  ghost predicate GroupIs(groups: map<string, NumberPoints>, ps: seq<Point>, key: string) {
    && (key in groups <==> GroupPoints(ps, key) != [])
    && (key in groups ==> groups[key] == NumberPoints(GroupPoints(ps, key), GroupSum(ps, key)))
  }

  ghost predicate IsGrouping(groups: map<string, NumberPoints>, ps: seq<Point>) {
    forall key :: GroupIs(groups, ps, key)
  }

  /** A group with one more point. */
  function WithPoint(groups: map<string, NumberPoints>, key: string, p: Point): map<string, NumberPoints> {
    var points := if key in groups then groups[key] else NumberPoints([], 0.0);
    groups[key := NumberPoints(points.pts + [p], points.sum + p.value.AsReal())]
  }

  lemma GroupingStep(groups: map<string, NumberPoints>, ps: seq<Point>, p: Point)
    requires IsGrouping(groups, ps)
    ensures IsGrouping(WithPoint(groups, GroupKey(p), p), ps + [p])
  {
    forall key ensures GroupIs(WithPoint(groups, GroupKey(p), p), ps + [p], key) {
      assert GroupIs(groups, ps, key);
      GroupAppended(ps, p, key);
      hide GroupPoints, GroupKey;
      assert GroupPoints(ps, key) == [] ==> GroupSum(ps, key) == 0.0;
    }
  }

  lemma EmptyGrouping()
    ensures IsGrouping(map[], [])
  {
  }

  /** The first loop: collects the points of each group and adds up their values. */
  method GroupByOtherLabels(ps: seq<Point>) returns (s: Status, groups: map<string, NumberPoints>)
    ensures s == GroupingStatus(ps)
    ensures s.Going? ==> IsGrouping(groups, ps)
  {
    hide GroupKey, IsGrouping, WithPoint;
    s, groups := Going, map[];
    EmptyGrouping();
    for i := 0 to |ps|
      invariant GroupingStatus(ps[..i]) == Going
      invariant IsGrouping(groups, ps[..i])
    {
      assert ps[..i + 1] == ps[..i] + [ps[i]] && ps[..i + 1][..i] == ps[..i];
      if ps[i].attrs == map[] {
        StatusSticks(ps, i + 1);
        return Panicked, groups;
      }
      var key := OtherLabelsAsKey(ps[i].attrs, [STATE_LABEL]);
      OneExcluded(ps[i].attrs, STATE_LABEL);
      if key.Err? {
        StatusSticks(ps, i + 1);
        return Failed, groups;
      }
      GroupKeyIs(ps[i]);
      GroupingStep(groups, ps[..i], ps[i]);
      groups := WithPoint(groups, key.value, ps[i]);
    }
    assert ps[..|ps|] == ps;
  }

  lemma {:induction false} StatusSticks(ps: seq<Point>, k: nat)
    requires k <= |ps| && !GroupingStatus(ps[..k]).Going?
    ensures GroupingStatus(ps) == GroupingStatus(ps[..k])
  {
    if k < |ps| {
      var n := |ps| - 1;
      assert ps[..n][..k] == ps[..k];
      StatusSticks(ps[..n], k);
    } else {
      assert ps[..k] == ps;
    }
  }

  /** The points whose group has been reported. */
  ghost function PointsIn(ps: seq<Point>, keys: set<string>): seq<Point> {
    if ps == [] then []
    else
      var k := |ps| - 1;
      PointsIn(ps[..k], keys) + (if GroupKey(ps[k]) in keys then [ps[k]] else [])
  }

  /** The reported multiset of the points of some groups. */
  ghost function Reported(all: seq<Point>, ps: seq<Point>, keys: set<string>): multiset<Point> {
    multiset(Shares(all, PointsIn(ps, keys)))
  }

  lemma ReportedStep(all: seq<Point>, ps: seq<Point>, p: Point, keys: set<string>)
    ensures Reported(all, ps + [p], keys) == Reported(all, ps, keys)
         + (if GroupKey(p) in keys then multiset{Share(p, GroupSum(all, GroupKey(p)))} else multiset{})
  {
    hide GroupKey, GroupSum, Share;
    assert (ps + [p])[..|ps|] == ps;
    if GroupKey(p) in keys {
      SharesAppended(all, PointsIn(ps, keys), p);
    } else {
      assert PointsIn(ps + [p], keys) == PointsIn(ps, keys);
    }
  }

  lemma GroupSharesStep(all: seq<Point>, ps: seq<Point>, p: Point, key: string)
    ensures multiset(Shares(all, GroupPoints(ps + [p], key))) == multiset(Shares(all, GroupPoints(ps, key)))
         + (if GroupKey(p) == key then multiset{Share(p, GroupSum(all, key))} else multiset{})
  {
    GroupAppended(ps, p, key);
    hide GroupKey, GroupSum, Share, GroupPoints;
    if GroupKey(p) == key {
      SharesAppended(all, GroupPoints(ps, key), p);
    } else {
      assert GroupPoints(ps + [p], key) == GroupPoints(ps, key);
    }
  }

  lemma {:induction false} OneMoreGroup(all: seq<Point>, ps: seq<Point>, keys: set<string>, key: string)
    requires key !in keys
    ensures Reported(all, ps, keys + {key}) == Reported(all, ps, keys) + multiset(Shares(all, GroupPoints(ps, key)))
  {
    if ps != [] {
      var k := |ps| - 1;
      var p, before := ps[k], ps[..k];
      assert ps == before + [p];
      OneMoreGroup(all, before, keys, key);
      ReportedStep(all, before, p, keys + {key});
      ReportedStep(all, before, p, keys);
      GroupSharesStep(all, before, p, key);
      hide *;
      var x := Share(p, GroupSum(all, GroupKey(p)));
      AddedApart(Reported(all, before, keys), multiset(Shares(all, GroupPoints(before, key))),
                 GroupKey(p) in keys, GroupKey(p) == key, x);
      assert GroupKey(p) in keys + {key} <==> GroupKey(p) in keys || GroupKey(p) == key;
    }
  }

  lemma AddedApart(a: multiset<Point>, b: multiset<Point>, inA: bool, inB: bool, x: Point)
    requires !(inA && inB)
    ensures (a + b) + (if inA || inB then multiset{x} else multiset{})
         == (a + if inA then multiset{x} else multiset{}) + (b + if inB then multiset{x} else multiset{})
  {
  }

  lemma NoneReported(all: seq<Point>, ps: seq<Point>)
    ensures Reported(all, ps, {}) == multiset{}
  {
    NothingIn(ps);
  }

  lemma {:induction false} NothingIn(ps: seq<Point>)
    ensures PointsIn(ps, {}) == []
  {
    if ps != [] {
      NothingIn(ps[..|ps| - 1]);
    }
  }

  lemma {:induction false} AllReported(ps: seq<Point>, keys: set<string>)
    requires forall key | GroupPoints(ps, key) != [] :: key in keys
    ensures PointsIn(ps, keys) == ps
  {
    hide GroupKey;
    if ps != [] {
      var k := |ps| - 1;
      forall key | GroupPoints(ps[..k], key) != [] ensures key in keys {
        assert GroupPoints(ps, key) != [];
      }
      AllReported(ps[..k], keys);
      assert GroupPoints(ps, GroupKey(ps[k])) != [];
    }
  }

  lemma {:induction false} GroupHasKey(ps: seq<Point>, key: string)
    ensures forall i | 0 <= i < |GroupPoints(ps, key)| :: GroupKey(GroupPoints(ps, key)[i]) == key
  {
    hide GroupKey;
    if ps != [] {
      GroupHasKey(ps[..|ps| - 1], key);
    }
  }

  lemma NoShares(all: seq<Point>)
    ensures Shares(all, []) == []
  {
  }

  /** The points of one group as reported. */
  method ReportGroup(points: NumberPoints, ghost all: seq<Point>, ghost key: string) returns (out: seq<Point>)
    requires points == NumberPoints(GroupPoints(all, key), GroupSum(all, key))
    ensures out == Shares(all, points.pts)
  {
    hide GroupKey, Share, GroupPoints, SumOf, Shares;
    GroupHasKey(all, key);
    out := [];
    NoShares(all);
    assert points.pts[..0] == [];
    for i := 0 to |points.pts|
      invariant out == Shares(all, points.pts[..i])
    {
      SharesAppended(all, points.pts[..i], points.pts[i]);
      assert points.pts[..i + 1] == points.pts[..i] + [points.pts[i]];
      assert GroupKey(points.pts[i]) == key;
      out := out + [Share(points.pts[i], points.sum)];
    }
    assert points.pts[..|points.pts|] == points.pts;
  }

  /**
   The second loop visits the groups in the order of Go's map iteration, whatever that is: the points reported
   are a permutation of the shares.
   */
  method CalculateUtilizationFromNumberDataPoints(ps: seq<Point>) returns (s: Status, out: seq<Point>)
    ensures s == GroupingStatus(ps)
    ensures s.Going? ==> multiset(out) == multiset(Shares(ps, ps))
  {
    out := [];
    var groups;
    s, groups := GroupByOtherLabels(ps);
    if !s.Going? {
      return;
    }
    var rest := groups.Keys;
    ghost var done: set<string> := {};
    NoneReported(ps, ps);
    hide Shares, GroupPoints, GroupSum, PointsIn, GroupingStatus, Reported;
    while rest != {}
      invariant rest <= groups.Keys && done <= groups.Keys
      invariant forall key | key in groups :: key in done <==> key !in rest
      invariant multiset(out) == Reported(ps, ps, done)
      decreases rest
    {
      var key :| key in rest;
      assert GroupIs(groups, ps, key);
      var shares := ReportGroup(groups[key], ps, key);
      OneMoreGroup(ps, ps, done, key);
      out := out + shares;
      done, rest := done + {key}, rest - {key};
    }
    AllGroupsReported(ps, groups, done);
  }

  lemma AllGroupsReported(ps: seq<Point>, groups: map<string, NumberPoints>, done: set<string>)
    requires IsGrouping(groups, ps) && forall key | key in groups :: key in done
    ensures Reported(ps, ps, done) == multiset(Shares(ps, ps))
  {
    forall key | GroupPoints(ps, key) != [] ensures key in done {
      assert GroupIs(groups, ps, key);
    }
    AllReported(ps, done);
  }
}
