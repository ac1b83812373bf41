/** What the shares of a group add up to. */
module UtilizationShares {
  import opened Pdata
  import opened Utilizations

  // ------------------------------------------------------------------
  // What the shares of a group add up to
  // ------------------------------------------------------------------

  lemma ShareKeepsGroup(p: Point, sum: real)
    ensures GroupKey(Share(p, sum)) == GroupKey(p)
  {
  }

  lemma {:induction false} GroupOfShares(all: seq<Point>, ps: seq<Point>, key: string)
    ensures GroupPoints(Shares(all, ps), key) == Shares(all, GroupPoints(ps, key))
  {
    if ps != [] {
      var k := |ps| - 1;
      GroupOfShares(all, ps[..k], key);
      var share := Share(ps[k], GroupSum(all, GroupKey(ps[k])));
      ShareKeepsGroup(ps[k], GroupSum(all, GroupKey(ps[k])));
      assert ps == ps[..k] + [ps[k]];
      GroupAppended(ps[..k], ps[k], key);
      GroupAppended(Shares(all, ps[..k]), share, key);
      hide GroupKey, GroupSum, Share, GroupPoints;
      if GroupKey(ps[k]) == key {
        SharesAppended(all, GroupPoints(ps[..k], key), ps[k]);
      } else {
        assert GroupPoints(ps, key) == GroupPoints(ps[..k], key);
        assert GroupPoints(Shares(all, ps), key) == GroupPoints(Shares(all, ps[..k]), key);
      }
    }
  }

  lemma ScaleSum(a: real, b: real, s: real)
    requires s != 0.0
    ensures a / s * 100.0 + b / s * 100.0 == (a + b) / s * 100.0
  {
  }

  lemma {:induction false} SumOfShares(all: seq<Point>, pts: seq<Point>, key: string)
    requires forall i | 0 <= i < |pts| :: GroupKey(pts[i]) == key
    requires GroupSum(all, key) != 0.0
    ensures SumOf(Shares(all, pts)) == SumOf(pts) / GroupSum(all, key) * 100.0
  {
    hide GroupKey, GroupSum;
    if pts != [] {
      var k := |pts| - 1;
      SumOfShares(all, pts[..k], key);
      var before := Shares(all, pts[..k]);
      assert Shares(all, pts)[..k] == before;
      ScaleSum(SumOf(pts[..k]), pts[k].value.AsReal(), GroupSum(all, key));
    }
  }

  lemma {:induction false} SumWithout(ps: seq<Point>, i: nat)
    requires i < |ps|
    ensures SumOf(ps) == SumOf(ps[..i] + ps[i + 1..]) + ps[i].value.AsReal()
  {
    var k := |ps| - 1;
    if i < k {
      SumWithout(ps[..k], i);
      var rest := ps[..i] + ps[i + 1..];
      assert ps[..k][..i] == ps[..i] && rest[..k - 1] == ps[..k][..i] + ps[..k][i + 1..] && rest[k - 1] == ps[k];
    } else {
      assert ps[..i] + ps[i + 1..] == ps[..k];
    }
  }

  lemma TakenOut<T>(s: seq<T>, i: nat)
    requires i < |s|
    ensures multiset(s) == multiset(s[..i] + s[i + 1..]) + multiset{s[i]}
  {
    assert s == s[..i] + [s[i]] + s[i + 1..];
  }

  lemma Cancelled<T>(a: multiset<T>, b: multiset<T>, x: T)
    requires a + multiset{x} == b + multiset{x}
    ensures a == b
  {
    assert a == (a + multiset{x}) - multiset{x} && b == (b + multiset{x}) - multiset{x};
  }

  lemma RestOfPermutation(a: seq<Point>, b: seq<Point>, i: nat)
    requires multiset(a) == multiset(b) && a != [] && i < |b| && b[i] == a[|a| - 1]
    ensures multiset(a[..|a| - 1]) == multiset(b[..i] + b[i + 1..])
  {
    var k := |a| - 1;
    TakenOut(a, k);
    TakenOut(b, i);
    assert a[..k] + a[k + 1..] == a[..k];
    Cancelled(multiset(a[..k]), multiset(b[..i] + b[i + 1..]), a[k]);
  }

  /** The order in which values are added up does not matter. */
  lemma {:induction false} SumOfPermutation(a: seq<Point>, b: seq<Point>)
    requires multiset(a) == multiset(b)
    ensures SumOf(a) == SumOf(b)
  {
    if a == [] {
      assert |multiset(b)| == 0;
    } else {
      var k := |a| - 1;
      assert a[k] in multiset(b);
      var i :| 0 <= i < |b| && b[i] == a[k];
      RestOfPermutation(a, b, i);
      SumWithout(b, i);
      SumOfPermutation(a[..k], b[..i] + b[i + 1..]);
    }
  }

  lemma {:induction false} GroupCount(ps: seq<Point>, key: string, p: Point)
    ensures multiset(GroupPoints(ps, key))[p] == if GroupKey(p) == key then multiset(ps)[p] else 0
  {
    hide GroupKey;
    if ps != [] {
      var k := |ps| - 1;
      GroupCount(ps[..k], key, p);
      assert ps == ps[..k] + [ps[k]];
    }
  }

  lemma GroupOfPermutation(a: seq<Point>, b: seq<Point>, key: string)
    requires multiset(a) == multiset(b)
    ensures multiset(GroupPoints(a, key)) == multiset(GroupPoints(b, key))
  {
    forall p ensures multiset(GroupPoints(a, key))[p] == multiset(GroupPoints(b, key))[p] {
      GroupCount(a, key, p);
      GroupCount(b, key, p);
    }
  }

  lemma EmittedGroup(ps: seq<Point>, out: seq<Point>, key: string)
    requires multiset(out) == multiset(Shares(ps, ps))
    ensures multiset(GroupPoints(out, key)) == multiset(Shares(ps, GroupPoints(ps, key)))
  {
    GroupOfPermutation(out, Shares(ps, ps), key);
    GroupOfShares(ps, ps, key);
  }

  /** In whatever order they come, the utilizations of a group whose sum is not zero add up to exactly 100. */
  lemma GroupAddsUpTo100(ps: seq<Point>, out: seq<Point>, key: string)
    requires multiset(out) == multiset(Shares(ps, ps))
    requires GroupSum(ps, key) != 0.0
    ensures GroupSum(out, key) == 100.0
  {
    hide SumOf, GroupPoints, Shares, GroupKey;
    EmittedGroup(ps, out, key);
    SumOfPermutation(GroupPoints(out, key), Shares(ps, GroupPoints(ps, key)));
    SumOfGroupShares(ps, key);
    var sum := GroupSum(ps, key);
    assert sum / sum == 1.0;
  }

  lemma SumOfGroupShares(ps: seq<Point>, key: string)
    requires GroupSum(ps, key) != 0.0
    ensures SumOf(Shares(ps, GroupPoints(ps, key))) == GroupSum(ps, key) / GroupSum(ps, key) * 100.0
  {
    hide SumOf, GroupPoints, Shares, GroupKey;
    GroupHasKey(ps, key);
    SumOfShares(ps, GroupPoints(ps, key), key);
  }

  lemma {:induction false} PartOfSum(ps: seq<Point>, i: nat)
    requires i < |ps| && forall j | 0 <= j < |ps| :: ps[j].value.AsReal() >= 0.0
    ensures 0.0 <= ps[i].value.AsReal() <= SumOf(ps)
  {
    var k := |ps| - 1;
    if i < k {
      PartOfSum(ps[..k], i);
    } else if k > 0 {
      PartOfSum(ps[..k], 0);
    }
  }

  lemma PercentageOfPart(part: real, sum: real)
    requires 0.0 <= part <= sum && sum > 0.0
    ensures 0.0 <= Percentage(part, sum).AsReal() <= 100.0 && Percentage(part, sum).Real?
  {
    assert part / sum <= 1.0;
  }

  lemma {:induction false} ShareAt(all: seq<Point>, ps: seq<Point>, i: nat)
    requires i < |ps|
    ensures Shares(all, ps)[i] == Share(ps[i], GroupSum(all, GroupKey(ps[i])))
  {
    hide GroupKey, GroupSum, Share;
    if i < |ps| - 1 {
      ShareAt(all, ps[..|ps| - 1], i);
    }
  }

  /**
   Each utilization of a group with no negative value is a number from 0 to 100; if the whole group is zero it is
   not a number at all.
   */
  lemma UtilizationIsPercentage(ps: seq<Point>, out: seq<Point>, key: string, u: Point)
    requires multiset(out) == multiset(Shares(ps, ps))
    requires forall j | 0 <= j < |GroupPoints(ps, key)| :: GroupPoints(ps, key)[j].value.AsReal() >= 0.0
    requires u in GroupPoints(out, key)
    ensures if GroupSum(ps, key) == 0.0 then u.value == NonFinite else u.value.Real? && 0.0 <= u.value.d <= 100.0
  {
    var pts := GroupPoints(ps, key);
    EmittedGroup(ps, out, key);
    assert u in multiset(Shares(ps, pts));
    var i :| 0 <= i < |pts| && Shares(ps, pts)[i] == u;
    ShareAt(ps, pts, i);
    GroupHasKey(ps, key);
    PartOfSum(pts, i);
    if GroupSum(ps, key) != 0.0 {
      PercentageOfPart(pts[i].value.AsReal(), GroupSum(ps, key));
    }
  }
}
