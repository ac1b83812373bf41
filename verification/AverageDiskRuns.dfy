/** The average disk time of one key over any run of scopes. */
module AverageDiskRuns {
  import opened Go
  import opened Pdata
  import opened AverageDisk
  import opened AverageDiskStage

  /** One key over a run: what is kept of it. */
  function ObserveAll(prev: Option<OpData>, scopes: seq<seq<Metric>>, key: OpKey): Option<OpData> {
    if scopes == [] then prev
    else Observe(ObserveAll(prev, scopes[..|scopes| - 1], key), Readings(scopes[|scopes| - 1]), key)
  }

  /** Keys do not affect each other: what is kept of a key depends on its own readings alone. */
  lemma {:induction false} KeysAreIndependent(prev: map<OpKey, OpData>, scopes: seq<seq<Metric>>, key: OpKey)
    ensures Look(AfterScopes(prev, scopes), key) == ObserveAll(Look(prev, key), scopes, key)
  {
    hide AfterScope, Observe, Readings;
    if scopes != [] {
      var k := |scopes| - 1;
      KeysAreIndependent(prev, scopes[..k], key);
      AfterScopePerKey(AfterScopes(prev, scopes[..k]), scopes[k], key);
    }
  }

  predicate Has(rs: seq<Reading>, isTime: bool, key: OpKey) {
    exists i :: 0 <= i < |rs| && rs[i].isTime == isTime && KeyOfPoint(rs[i].point) == key
  }

  /** If a scope has a key at all, it has it in both metrics. */
  predicate CarriesBoth(rs: seq<Reading>, key: OpKey) {
    Occurs(rs, key) ==> Has(rs, true, key) && Has(rs, false, key)
  }

  lemma HasStep(rs: seq<Reading>, isTime: bool, key: OpKey)
    requires rs != []
    ensures var k := |rs| - 1;
            Has(rs, isTime, key) <==>
              Has(rs[..k], isTime, key) || (rs[k].isTime == isTime && KeyOfPoint(rs[k].point) == key)
  {
    hide KeyOfPoint;
    var k := |rs| - 1;
    if Has(rs[..k], isTime, key) {
      var i :| 0 <= i < k && rs[..k][i].isTime == isTime && KeyOfPoint(rs[..k][i].point) == key;
      assert rs[i].isTime == isTime && KeyOfPoint(rs[i].point) == key;
    }
    if Has(rs, isTime, key) {
      var i :| 0 <= i < |rs| && rs[i].isTime == isTime && KeyOfPoint(rs[i].point) == key;
      assert i < k ==> rs[..k][i].isTime == isTime && KeyOfPoint(rs[..k][i].point) == key;
    }
  }

  /** Readings replace the points of a key, and never touch its accumulator. */
  lemma {:induction false} LatestReplaces(op: OpData, rs: seq<Reading>, key: OpKey)
    ensures Latest(op, rs, key).cumAvgTime == op.cumAvgTime
    ensures Latest(op, rs, key).time == if Has(rs, true, key) then Latest(ZERO, rs, key).time else op.time
    ensures Latest(op, rs, key).operations == if Has(rs, false, key) then Latest(ZERO, rs, key).operations else op.operations
  {
    hide KeyOfPoint;
    if rs != [] {
      LatestReplaces(op, rs[..|rs| - 1], key);
      HasStep(rs, true, key);
      HasStep(rs, false, key);
      hide Has;
    }
  }

  /** What the scopes that have a key say of it, in order: its last points in each of the two metrics. */
  function Seen(scopes: seq<seq<Metric>>, key: OpKey): seq<OpData> {
    if scopes == [] then []
    else
      var rs := Readings(scopes[|scopes| - 1]);
      Seen(scopes[..|scopes| - 1], key) + (if Occurs(rs, key) then [Latest(ZERO, rs, key)] else [])
  }

  /** The sum of the increments between consecutive observations. */
  function TotalAverage(obs: seq<OpData>): real {
    if |obs| <= 1 then 0.0
    else TotalAverage(obs[..|obs| - 1]) + Increment(obs[|obs| - 2], obs[|obs| - 1])
  }

  /**
   The accumulator of a key that always comes with both metrics is the sum, over consecutive observations with new
   operations, of busy time per operation times the interval.
   */
  lemma {:induction false} AccumulatorClosedForm(scopes: seq<seq<Metric>>, key: OpKey)
    requires forall n | 0 <= n < |scopes| :: CarriesBoth(Readings(scopes[n]), key)
    ensures var obs := Seen(scopes, key);
            ObserveAll(None, scopes, key)
              == if obs == [] then None else Some(obs[|obs| - 1].(cumAvgTime := TotalAverage(obs)))
  {
    hide Occurs, Latest, Has, Increment, Readings;
    if scopes != [] {
      var k := |scopes| - 1;
      AccumulatorClosedForm(scopes[..k], key);
      var rs := Readings(scopes[k]);
      var before := Seen(scopes[..k], key);
      if Occurs(rs, key) {
        assert CarriesBoth(rs, key);
        var op := Latest(ZERO, rs, key);
        LatestReplaces(ObserveAll(None, scopes[..k], key).GetOr(ZERO), rs, key);
        LatestReplaces(ZERO, rs, key);
        assert Seen(scopes, key) == before + [op];
        if before != [] {
          assert (before + [op])[..|before|] == before;
          IncrementIgnoresAccumulator(before[|before| - 1], TotalAverage(before), op);
        }
      } else {
        assert Seen(scopes, key) == before;
      }
    }
  }

  lemma IncrementIgnoresAccumulator(a: OpData, c: real, b: OpData)
    ensures Increment(a.(cumAvgTime := c), b.(cumAvgTime := c)) == Increment(a, b)
  {
  }

  /** The points a run reports for a key. */
  function Series(scopes: seq<seq<Metric>>, key: OpKey): seq<Point> {
    if scopes == [] then []
    else
      var k := |scopes| - 1;
      Series(scopes[..k], key) + Emits(ObserveAll(None, scopes[..k], key), Readings(scopes[k]), key)
  }

  /** A reported point: the observation's time point, with the sum up to there as value. */
  predicate IsTotal(obs: seq<OpData>, i: nat, p: Point) {
    i < |obs| && obs[i].time.Some? && p == obs[i].time.value.(value := Real(TotalAverage(obs[..i + 1])))
  }

  /** One point for each observation but the first. */
  predicate ReportsTotals(obs: seq<OpData>, series: seq<Point>) {
    |series| == Max(|obs| - 1, 0) && forall i | 0 <= i < |series| :: IsTotal(obs, i + 1, series[i])
  }

  lemma OneMoreTotal(obs: seq<OpData>, series: seq<Point>, op: OpData)
    requires ReportsTotals(obs, series) && obs != [] && op.time.Some?
    ensures ReportsTotals(obs + [op], series + [op.time.value.(value := Real(TotalAverage(obs + [op])))])
  {
    hide TotalAverage;
    var obs', series' := obs + [op], series + [op.time.value.(value := Real(TotalAverage(obs + [op])))];
    forall i | 0 <= i < |series'| ensures IsTotal(obs', i + 1, series'[i]) {
      if i < |series| {
        assert IsTotal(obs, i + 1, series[i]);
        assert obs'[..i + 2] == obs[..i + 2];
      } else {
        assert obs'[..i + 2] == obs';
      }
    }
  }

  /** Nothing is reported on first sight and one point each time after. */
  lemma {:induction false} OnePointEachTime(scopes: seq<seq<Metric>>, key: OpKey)
    requires forall n | 0 <= n < |scopes| :: CarriesBoth(Readings(scopes[n]), key)
    ensures ReportsTotals(Seen(scopes, key), Series(scopes, key))
  {
    hide Occurs, Latest, Has, Readings, TotalAverage, ReportsTotals;
    if scopes == [] {
      NoTotals();
    } else {
      var k := |scopes| - 1;
      OnePointEachTime(scopes[..k], key);
      AccumulatorClosedForm(scopes[..k], key);
      AccumulatorClosedForm(scopes, key);
      var rs := Readings(scopes[k]);
      var before := Seen(scopes[..k], key);
      if Occurs(rs, key) {
        assert CarriesBoth(rs, key);
        var op := Latest(ZERO, rs, key);
        HasTime(ZERO, rs, key);
        if before != [] {
          OneMoreTotal(before, Series(scopes[..k], key), op);
        } else {
          FirstSight(Series(scopes[..k], key), op);
          assert Series(scopes, key) == Series(scopes[..k], key) + [];
        }
      } else {
        assert Seen(scopes, key) == before;
        assert Series(scopes, key) == Series(scopes[..k], key);
      }
    }
  }

  lemma NoTotals()
    ensures ReportsTotals([], [])
  {
  }

  lemma FirstSight(series: seq<Point>, op: OpData)
    requires ReportsTotals([], series)
    ensures ReportsTotals([op], series) && series + [] == series && [] + [op] == [op]
  {
  }

  lemma {:induction false} HasTime(op: OpData, rs: seq<Reading>, key: OpKey)
    requires Has(rs, true, key)
    ensures Latest(op, rs, key).time.Some?
  {
    hide KeyOfPoint;
    HasStep(rs, true, key);
    if Has(rs[..|rs| - 1], true, key) {
      HasTime(op, rs[..|rs| - 1], key);
    }
  }

  predicate NoLessBusy(a: OpData, b: OpData) {
    a.time.Some? && b.time.Some? && BusyTime(a) <= BusyTime(b)
  }

  /** Busy time never decreases from one observation to the next. */
  predicate BusyGrows(obs: seq<OpData>) {
    |obs| <= 1 || (BusyGrows(obs[..|obs| - 1]) && NoLessBusy(obs[|obs| - 2], obs[|obs| - 1]))
  }

  /**
   A key that is never counted in operations reports its time point with 0 each time, however busy it is. Without a
   time point nothing can be reported.
   */
  lemma {:induction false} UncountedKeyReportsZero(scopes: seq<seq<Metric>>, key: OpKey)
    requires forall n | 0 <= n < |scopes| :: !Has(Readings(scopes[n]), false, key)
    ensures var op := ObserveAll(None, scopes, key);
            op.Some? ==> op.value.cumAvgTime == 0.0 && op.value.operations.None?
    ensures forall i | 0 <= i < |Series(scopes, key)| :: Series(scopes, key)[i].value == Real(0.0)
  {
    hide Latest, Has, Occurs, Readings;
    if scopes != [] {
      var k := |scopes| - 1;
      UncountedKeyReportsZero(scopes[..k], key);
      LatestReplaces(ObserveAll(None, scopes[..k], key).GetOr(ZERO), Readings(scopes[k]), key);
    }
  }

  lemma IncrementIsNonNegative(a: OpData, b: OpData)
    requires NoLessBusy(a, b)
    ensures Increment(a, b) >= 0.0
  {
    if NewOps(a, b) > 0 {
      hide NewOps, Interval;
      var busy, ops := BusyTime(b) - BusyTime(a), NewOps(a, b) as real;
      QuotientIsNonNegative(busy, ops, Interval(a.time.value, b.time.value) as real);
    }
  }

  lemma QuotientIsNonNegative(x: real, y: real, z: real)
    requires x >= 0.0 && y > 0.0 && z >= 0.0
    ensures x / y * z / 1000000000.0 >= 0.0
  {
    assert x / y >= 0.0;
    assert x / y * z >= 0.0;
  }

  lemma {:induction false} TotalGrows(obs: seq<OpData>, i: nat, j: nat)
    requires BusyGrows(obs) && i <= j <= |obs|
    ensures TotalAverage(obs[..i]) <= TotalAverage(obs[..j])
  {
    hide Increment, NoLessBusy;
    if i < j {
      var k := |obs| - 1;
      if j <= k && k > 0 {
        assert obs[..k][..i] == obs[..i] && obs[..k][..j] == obs[..j];
        TotalGrows(obs[..k], i, j);
      } else if k > 0 {
        assert obs[..j] == obs && obs[..k][..i] == obs[..i] && obs[..k][..k] == obs[..k];
        TotalGrows(obs[..k], i, k);
        IncrementIsNonNegative(obs[k - 1], obs[k]);
      }
    }
  }

  /** If the busy time never decreases, neither does what is reported, whatever the timestamps do. */
  lemma SeriesNeverDecreases(scopes: seq<seq<Metric>>, key: OpKey, i: nat, j: nat)
    requires forall n | 0 <= n < |scopes| :: CarriesBoth(Readings(scopes[n]), key)
    requires BusyGrows(Seen(scopes, key)) && i <= j < |Series(scopes, key)|
    ensures Series(scopes, key)[i].value.DoubleValue() <= Series(scopes, key)[j].value.DoubleValue()
  {
    hide CarriesBoth, TotalAverage, Series, Seen, BusyGrows;
    OnePointEachTime(scopes, key);
    assert IsTotal(Seen(scopes, key), i + 1, Series(scopes, key)[i]);
    assert IsTotal(Seen(scopes, key), j + 1, Series(scopes, key)[j]);
    TotalGrows(Seen(scopes, key), i + 2, j + 2);
  }

  // ------------------------------------------------------------------
  // What is reported, read off the raw points
  // ------------------------------------------------------------------

  /** The raw numbers of an observation, in the types that the source reads. */
  predicate Observed(op: OpData, ops: int, busy: real, ts: nat) {
    && op.operations.Some? && op.operations.value.value == Integer(ops) && IsInt64(ops)
    && op.time.Some? && op.time.value.value == Real(busy) && op.time.value.ts == ts < TWO_64
  }

  /** The int64 that the difference of two int64 values wraps around to. */
  function Wrapped(d: int): int {
    if d > INT64_MAX then d - TWO_64 else if d < INT64_MIN then d + TWO_64 else d
  }

  /** The average over one interval, times the operations and 10^9, is the busy time times the interval. */
  predicate IsAverageGain(gain: real, ops: int, busy: real, nanoseconds: int) {
    if ops <= 0 then gain == 0.0 else gain * ops as real * 1000000000.0 == busy * nanoseconds as real
  }

  lemma QuotientGain(busy: real, ops: real, interval: real)
    requires ops > 0.0
    ensures busy / ops * interval / 1000000000.0 * ops * 1000000000.0 == busy * interval
  {
    var q := busy / ops;
    assert q * ops == busy;
    var r := q * interval;
    assert r / 1000000000.0 * ops * 1000000000.0 == r * ops;
    assert r * ops == q * ops * interval;
  }

  lemma WrappedIs(d: int)
    requires INT64_MIN - INT64_MAX <= d <= INT64_MAX - INT64_MIN
    ensures Wrap64(d) == Wrapped(d)
  {
  }

  lemma IntervalIs(p: Point, q: Point)
    requires p.ts < TWO_64 && q.ts < TWO_64
    ensures Interval(p, q) == if q.ts < p.ts then q.ts - p.ts + TWO_64 else q.ts - p.ts
  {
  }

  lemma IncrementIsGain(a: OpData, b: OpData, o1: int, busy1: real, t1: nat, o2: int, busy2: real, t2: nat)
    requires Observed(a, o1, busy1, t1) && Observed(b, o2, busy2, t2)
    ensures IsAverageGain(Increment(a, b), Wrapped(o2 - o1), busy2 - busy1, if t2 < t1 then t2 - t1 + TWO_64 else t2 - t1)
  {
    WrappedIs(o2 - o1);
    IntervalIs(a.time.value, b.time.value);
    hide Wrap64, Interval, Wrapped;
    if NewOps(a, b) > 0 {
      QuotientGain(busy2 - busy1, NewOps(a, b) as real, Interval(a.time.value, b.time.value) as real);
    }
  }

  /**
   From one report of a key to the next, between raw readings o1, busy1, t1 and o2, busy2, t2: nothing is added if
   there are no new operations, and else (busy2 - busy1) / (o2 - o1) for each of the (t2 - t1) / 10^9 seconds. The first
   report starts from zero. The operations wrap around int64 and the timestamps around uint64.
   */
  lemma AverageOfRawReadings(scopes: seq<seq<Metric>>, key: OpKey, i: nat, o1: int, busy1: real, t1: nat,
      o2: int, busy2: real, t2: nat)
    requires forall n | 0 <= n < |scopes| :: CarriesBoth(Readings(scopes[n]), key)
    requires i + 1 < |Seen(scopes, key)|
    requires Observed(Seen(scopes, key)[i], o1, busy1, t1) && Observed(Seen(scopes, key)[i + 1], o2, busy2, t2)
    ensures |Series(scopes, key)| == |Seen(scopes, key)| - 1
    ensures forall j | 0 <= j < |Series(scopes, key)| :: Series(scopes, key)[j].value.Real?
    ensures var out := Series(scopes, key);
            IsAverageGain(out[i].value.d - (if i == 0 then 0.0 else out[i - 1].value.d), Wrapped(o2 - o1), busy2 - busy1,
                          if t2 < t1 then t2 - t1 + TWO_64 else t2 - t1)
  {
    hide CarriesBoth, Series, Seen, IsAverageGain, Increment, Wrapped;
    OnePointEachTime(scopes, key);
    var obs, out := Seen(scopes, key), Series(scopes, key);
    assert forall j | 0 <= j < |out| :: IsTotal(obs, j + 1, out[j]);
    if i > 0 {
      assert IsTotal(obs, i, out[i - 1]);
    } else {
      assert TotalAverage(obs[..1]) == 0.0;
    }
    assert IsTotal(obs, i + 1, out[i]);
    assert obs[..i + 2][..i + 1] == obs[..i + 1];
    IncrementIsGain(obs[i], obs[i + 1], o1, busy1, t1, o2, busy2, t2);
  }

  // ------------------------------------------------------------------
  // What is observed, read off the metrics of a scope
  // ------------------------------------------------------------------

  lemma {:induction false} LatestConcat(op: OpData, a: seq<Reading>, b: seq<Reading>, key: OpKey)
    ensures Latest(op, a + b, key) == Latest(Latest(op, a, key), b, key)
  {
    hide KeyOfPoint, Noted;
    if b == [] {
      assert a + b == a;
    } else {
      assert (a + b)[..|a + b| - 1] == a + b[..|b| - 1];
      LatestConcat(op, a, b[..|b| - 1], key);
    }
  }

  predicate NoneOf(ps: seq<Point>, key: OpKey) {
    forall j | 0 <= j < |ps| :: KeyOfPoint(ps[j]) != key
  }

  /** The last point of a key. */
  predicate IsLastOf(ps: seq<Point>, key: OpKey, j: nat) {
    j < |ps| && KeyOfPoint(ps[j]) == key && NoneOf(ps[j + 1..], key)
  }

  lemma LastOfShorter(ps: seq<Point>, key: OpKey, j: nat)
    requires IsLastOf(ps, key, j) && j < |ps| - 1
    ensures IsLastOf(ps[..|ps| - 1], key, j) && KeyOfPoint(ps[|ps| - 1]) != key
  {
    hide KeyOfPoint;
    var k := |ps| - 1;
    assert ps[j + 1..][k - j - 1] == ps[k];
    assert ps[..k][j + 1..] == ps[j + 1..][..k - j - 1];
  }

  /** The points of one metric leave the other metric's point alone, and replace their own by the last one of the key. */
  lemma {:induction false} LatestOfPoints(op: OpData, isTime: bool, ps: seq<Point>, key: OpKey, j: nat)
    ensures var l := Latest(op, PointReadings(isTime, ps), key);
            && (if isTime then l.operations == op.operations else l.time == op.time)
            && (NoneOf(ps, key) ==> l == op)
            && (IsLastOf(ps, key, j) ==> (if isTime then l.time else l.operations) == Some(ps[j]))
  {
    hide KeyOfPoint, NoneOf;
    if ps != [] {
      var k := |ps| - 1;
      LatestOfPoints(op, isTime, ps[..k], key, j);
      assert PointReadings(isTime, ps)[..k] == PointReadings(isTime, ps[..k]);
      if NoneOf(ps, key) {
        NoneOfShorter(ps, key);
      }
      if IsLastOf(ps, key, j) && j < k {
        LastOfShorter(ps, key, j);
      }
    }
  }

  lemma NoneOfShorter(ps: seq<Point>, key: OpKey)
    requires ps != [] && NoneOf(ps, key)
    ensures NoneOf(ps[..|ps| - 1], key) && KeyOfPoint(ps[|ps| - 1]) != key
  {
    hide KeyOfPoint;
  }

  /** Metric `n` is the last of its name to have the key, and point `j` the last of it to have it. */
  predicate IsLastPoint(ms: seq<Metric>, name: string, key: OpKey, n: nat, j: nat) {
    && n < |ms| && ms[n].name == name && IsLastOf(ms[n].Points(), key, j)
    && forall i | n < i < |ms| && ms[i].name == name :: NoneOf(ms[i].Points(), key)
  }

  /** What a scope says of a key: the last point of each of the two metrics. */
  lemma {:induction false} LatestIsLastPoint(op: OpData, ms: seq<Metric>, key: OpKey, n: nat, j: nat)
    ensures IsLastPoint(ms, "system.disk.operation_time", key, n, j) ==>
              Latest(op, Readings(ms), key).time == Some(ms[n].Points()[j])
    ensures IsLastPoint(ms, "system.disk.operations", key, n, j) ==>
              Latest(op, Readings(ms), key).operations == Some(ms[n].Points()[j])
  {
    hide KeyOfPoint, NoneOf, IsLastOf, PointReadings, Latest;
    if n < |ms| {
      var k := |ms| - 1;
      var before, isTime := Readings(ms[..k]), ms[k].name == OP_TIME_NAME;
      assert |OP_NAME| == 22 && |OP_TIME_NAME| == 26;
      if IsDisk(ms[k]) {
        LatestConcat(op, before, PointReadings(isTime, ms[k].Points()), key);
        LatestOfPoints(Latest(op, before, key), isTime, ms[k].Points(), key, j);
      } else {
        assert before + [] == before;
      }
      if n < k {
        LatestIsLastPoint(op, ms[..k], key, n, j);
        assert forall i | n < i < k :: ms[..k][i] == ms[i];
      }
    }
  }

  /** Two points have one key exactly if their texts for "device" and for "direction" agree. */
  lemma KeysAgreeExactly(p: Point, q: Point)
    requires Labelled(p) && Labelled(q)
    ensures KeyOfPoint(p) == KeyOfPoint(q) <==>
              && AsString(p.attrs["device"]) == AsString(q.attrs["device"])
              && AsString(p.attrs["direction"]) == AsString(q.attrs["direction"])
  {
  }

  /**
   When a key that was seen before makes the stage panic, in raw numbers: it has no time point now, or it had none
   before and there are new operations. A key first seen never does.
   */
  lemma KeyPanicsExactly(prev: OpData, op: OpData, o1: int, o2: int)
    requires prev.operations.Some? && prev.operations.value.value == Integer(o1) && IsInt64(o1)
    requires op.operations.Some? && op.operations.value.value == Integer(o2) && IsInt64(o2)
    ensures KeyPanics(Some(prev), op) <==> op.time.None? || (prev.time.None? && Wrapped(o2 - o1) > 0)
    ensures !KeyPanics(None, op)
  {
    WrappedIs(o2 - o1);
    hide Wrap64, Wrapped;
  }
}
