/**
 `metricStats`: integrates a per-second rate over microsecond timestamps into
 whole seconds and a microsecond carry, in int64 arithmetic.
 */
module DcgmStats {
  import opened Go

  const MICROS: int := 1_000_000

  datatype FieldValue =
    | DoubleField(ts: Int64, d: real)
    | Int64Field(ts: Int64, i: Int64)
    | OtherField(ts: Int64)

  predicate Numeric(fv: FieldValue) {
    !fv.OtherField?
  }

  /** A value of one of the two types that `asInt64` converts. */
  type Sample = fv: FieldValue | Numeric(fv) witness Int64Field(0, 0)

  function AsInt64(fv: Sample): Int64 {
    match fv
    case DoubleField(_, d) => Float64ToInt64(d)
    case Int64Field(_, i) => i
  }

  function AsReal(fv: Sample): real {
    match fv
    case DoubleField(_, d) => d
    case Int64Field(_, i) => i as real
  }

  datatype Stats = Stats(last: Option<FieldValue>, seconds: Int64, micros: Int64, initial: Int64, cumulative: Int64)

  const NEW: Stats := Stats(None, 0, 0, 0, 0)

  /** `float64(n) * f` */
  function Times(n: int, f: real): real {
    n as real * f
  }

  /** The rate-microseconds one accepted sample adds, as int64 computes them. */
  function Increment(prev: FieldValue, fv: Sample): Int64 {
    var tsDelta := Wrap64(fv.ts - prev.ts);
    match fv
    case DoubleField(_, d) => Float64ToInt64(Times(tsDelta, d))
    case Int64Field(_, i) => Wrap64(tsDelta * i)
  }

  function Updated(s: Stats, fv: FieldValue): Stats {
    if !Numeric(fv) then s
    else if s.last.None? then s.(last := Some(fv), initial := AsInt64(fv))
    else if s.last.value.ts >= fv.ts then s
    else
      var micros := Wrap64(s.micros + Increment(s.last.value, fv));
      Stats(Some(fv), Wrap64(s.seconds + Quo(micros, MICROS)), Rem(micros, MICROS), s.initial,
            Wrap64(AsInt64(fv) - s.initial))
  }

  /** A metric's state after a sequence of samples. */
  function After(fvs: seq<FieldValue>): Stats {
    if fvs == [] then NEW else Updated(After(fvs[..|fvs| - 1]), fvs[|fvs| - 1])
  }

  /** The pointee of `lastFieldValue`. Nothing in the receiver assigns through that pointer. */
  class FieldBox {
    var value: FieldValue

    constructor (v: FieldValue)
      ensures value == v
    {
      value := v;
    }
  }

  class MetricStats {
    /** The device and field these statistics belong to. */
    ghost const key: (nat, string)
    var lastFieldValue: FieldBox?
    var integratedRateSeconds: Int64
    var integratedRateMicroseconds: Int64
    var initialCumulativeValue: Int64
    var cumulativeValue: Int64

    ghost function State(): Stats
      reads this, lastFieldValue
    {
      Stats(if lastFieldValue == null then None else Some(lastFieldValue.value),
            integratedRateSeconds, integratedRateMicroseconds, initialCumulativeValue, cumulativeValue)
    }

    constructor (ghost key: (nat, string))
      ensures State() == NEW && lastFieldValue == null && this.key == key
    {
      this.key := key;
      lastFieldValue := null;
      integratedRateSeconds, integratedRateMicroseconds := 0, 0;
      initialCumulativeValue, cumulativeValue := 0, 0;
    }

    /** Go's `newValue := *value`: the copy shares the pointee of `lastFieldValue`. */
    constructor Copy(other: MetricStats)
      ensures State() == other.State() && lastFieldValue == other.lastFieldValue
      ensures key == other.key
    {
      key := other.key;
      lastFieldValue := other.lastFieldValue;
      integratedRateSeconds := other.integratedRateSeconds;
      integratedRateMicroseconds := other.integratedRateMicroseconds;
      initialCumulativeValue := other.initialCumulativeValue;
      cumulativeValue := other.cumulativeValue;
    }

    /** Replaces the `lastFieldValue` pointer; never writes through it. */
    method Update(fieldValue: FieldValue)
      modifies this
      ensures State() == Updated(old(State()), fieldValue)
      ensures lastFieldValue == old(lastFieldValue) || fresh(lastFieldValue)
    {
      hide Wrap64, Quo, Rem, Increment, Float64ToInt64;
      var ts := fieldValue.ts;
      if !Numeric(fieldValue) {
        return;
      }
      var intValue := AsInt64(fieldValue);
      if lastFieldValue == null {
        initialCumulativeValue := intValue;
      } else {
        if lastFieldValue.value.ts >= ts {
          return;
        }
        cumulativeValue := Wrap64(intValue - initialCumulativeValue);
        integratedRateMicroseconds :=
          Wrap64(integratedRateMicroseconds + Increment(lastFieldValue.value, fieldValue));
        integratedRateSeconds := Wrap64(integratedRateSeconds + Quo(integratedRateMicroseconds, MICROS));
        integratedRateMicroseconds := Rem(integratedRateMicroseconds, MICROS);
      }
      lastFieldValue := new FieldBox(fieldValue);
    }
  }

  // ------------------------------------------------------------------
  // Which samples count
  // ------------------------------------------------------------------

  /** Sample `k` is numeric and strictly newer than every numeric sample before it. */
  predicate NewMaximum(fvs: seq<FieldValue>, k: nat)
    requires k < |fvs|
  {
    !fvs[k].OtherField? && forall j | 0 <= j < k && !fvs[j].OtherField? :: fvs[j].ts < fvs[k].ts
  }

  function Accepted(fvs: seq<FieldValue>): seq<Sample> {
    if fvs == [] then []
    else
      var k := |fvs| - 1;
      Accepted(fvs[..k]) + (if NewMaximum(fvs, k) then [fvs[k]] else [])
  }

  predicate Increasing(acc: seq<Sample>) {
    forall i | 0 < i < |acc| :: acc[i - 1].ts < acc[i].ts
  }

  /** The remembered sample is the newest numeric one. */
  predicate Remembers(last: Option<FieldValue>, fvs: seq<FieldValue>) {
    if last.None? then forall i | 0 <= i < |fvs| :: !Numeric(fvs[i])
    else
      && (exists i | 0 <= i < |fvs| :: fvs[i] == last.value)
      && Numeric(last.value)
      && (forall i | 0 <= i < |fvs| && Numeric(fvs[i]) :: fvs[i].ts <= last.value.ts)
  }

  lemma {:induction false} LastIsNewest(fvs: seq<FieldValue>)
    ensures Remembers(After(fvs).last, fvs)
  {
    hide Wrap64, Quo, Rem, Increment, AsInt64;
    if fvs != [] {
      var k := |fvs| - 1;
      LastIsNewest(fvs[..k]);
      var last := After(fvs[..k]).last;
      if last.Some? {
        var j :| 0 <= j < k && fvs[..k][j] == last.value;
        assert fvs[j] == last.value;
      }
      assert forall i | 0 <= i < k :: fvs[..k][i] == fvs[i];
    }
  }

  /** A sample is taken exactly when it is a new maximum. */
  lemma TakenIffNewMaximum(fvs: seq<FieldValue>, k: nat)
    requires k < |fvs|
    ensures var last := After(fvs[..k]).last;
            NewMaximum(fvs, k) <==> Numeric(fvs[k]) && (last.None? || last.value.ts < fvs[k].ts)
  {
    LastIsNewest(fvs[..k]);
    var last := After(fvs[..k]).last;
    if last.Some? {
      var j :| 0 <= j < k && fvs[..k][j] == last.value;
      assert fvs[j] == last.value;
    }
    assert forall i | 0 <= i < k :: fvs[..k][i] == fvs[i];
  }

  /** `Update` reads nothing but the strictly new maxima, which come in increasing order. */
  lemma {:induction false} OnlyNewMaximaCount(fvs: seq<FieldValue>)
    ensures After(Accepted(fvs)) == After(fvs)
    ensures Increasing(Accepted(fvs))
    ensures After(fvs).last == if Accepted(fvs) == [] then None else Some(Accepted(fvs)[|Accepted(fvs)| - 1])
  {
    hide Wrap64, Quo, Rem, Increment, AsInt64;
    if fvs != [] {
      var k := |fvs| - 1;
      OnlyNewMaximaCount(fvs[..k]);
      TakenIffNewMaximum(fvs, k);
      if NewMaximum(fvs, k) {
        assert Accepted(fvs)[..|Accepted(fvs)| - 1] == Accepted(fvs[..k]);
      } else {
        assert Accepted(fvs) == Accepted(fvs[..k]);
      }
    }
  }

  predicate Covered(a: seq<FieldValue>, fv: FieldValue) {
    Numeric(fv) ==> exists j | 0 <= j < |a| :: Numeric(a[j]) && fv.ts <= a[j].ts
  }

  /** Samples no newer than one already seen may be inserted anywhere without effect. */
  lemma {:induction false} StaleMayBeInserted(a: seq<FieldValue>, stale: seq<FieldValue>, b: seq<FieldValue>)
    requires forall i | 0 <= i < |stale| :: Covered(a, stale[i])
    ensures After(a + stale + b) == After(a + b)
  {
    hide Wrap64, Quo, Rem, Increment, AsInt64;
    if b != [] {
      var k := |b| - 1;
      StaleMayBeInserted(a, stale, b[..k]);
      assert (a + stale + b)[..|a + stale + b| - 1] == a + stale + b[..k];
      assert (a + b)[..|a + b| - 1] == a + b[..k];
    } else if stale != [] {
      var k := |stale| - 1;
      StaleMayBeInserted(a, stale[..k], []);
      var all := a + stale;
      var n := |all| - 1;
      assert a + stale + [] == all && a + stale[..k] + [] == all[..n];
      assert all[n] == stale[k];
      if Numeric(stale[k]) {
        var j :| 0 <= j < |a| && Numeric(a[j]) && stale[k].ts <= a[j].ts;
        assert all[j] == a[j];
      }
      TakenIffNewMaximum(all, n);
    } else {
      assert a + stale + b == a + b;
    }
  }

  /** A poll that returns samples of the previous poll again leaves the same state as one that does not. */
  lemma OverlappingPolls(before: seq<FieldValue>, overlap: seq<FieldValue>, next: seq<FieldValue>)
    ensures After(before + overlap + overlap + next) == After(before + overlap + next)
  {
    var a := before + overlap;
    forall j | 0 <= j < |overlap| ensures Covered(a, overlap[j]) {
      assert a[|before| + j] == overlap[j];
    }
    StaleMayBeInserted(a, overlap, next);
  }

  /** As samples arrive the remembered timestamp never goes back. */
  lemma {:induction false} TimestampNeverDecreases(fvs: seq<FieldValue>, more: seq<FieldValue>)
    requires After(fvs).last.Some?
    ensures After(fvs + more).last.Some? && After(fvs).last.value.ts <= After(fvs + more).last.value.ts
  {
    hide Wrap64, Quo, Rem, Increment, AsInt64;
    if more == [] {
      assert fvs + more == fvs;
    } else {
      TimestampNeverDecreases(fvs, more[..|more| - 1]);
      assert (fvs + more)[..|fvs + more| - 1] == fvs + more[..|more| - 1];
    }
  }

  lemma {:induction false} AcceptedGrows(fvs: seq<FieldValue>, more: seq<FieldValue>)
    ensures Accepted(fvs) <= Accepted(fvs + more)
  {
    if more == [] {
      assert fvs + more == fvs;
    } else {
      AcceptedGrows(fvs, more[..|more| - 1]);
      assert (fvs + more)[..|fvs + more| - 1] == fvs + more[..|more| - 1];
    }
  }

  // ------------------------------------------------------------------
  // What the accepted samples add up to
  // ------------------------------------------------------------------

  lemma {:induction false} LastOfIncreasing(acc: seq<Sample>)
    requires Increasing(acc) && acc != []
    ensures After(acc).last == Some(acc[|acc| - 1])
  {
    hide Wrap64, Quo, Rem, Increment, AsInt64;
    if |acc| > 1 {
      LastOfIncreasing(acc[..|acc| - 1]);
    }
  }

  lemma {:induction false} CumulativeOfIncreasing(acc: seq<Sample>)
    requires Increasing(acc) && acc != []
    ensures After(acc).initial == AsInt64(acc[0])
    ensures After(acc).cumulative == Wrap64(AsInt64(acc[|acc| - 1]) - AsInt64(acc[0]))
  {
    hide Quo, Rem, Increment, AsInt64;
    if |acc| > 1 {
      var k := |acc| - 1;
      CumulativeOfIncreasing(acc[..k]);
      LastOfIncreasing(acc[..k]);
    }
  }

  /** The cumulative value is the last accepted value minus the first. */
  lemma CumulativeIsLastMinusFirst(fvs: seq<FieldValue>)
    ensures var acc, s := Accepted(fvs), After(fvs);
            if acc == [] then s == NEW
            else s.cumulative == Wrap64(AsInt64(acc[|acc| - 1]) - AsInt64(acc[0]))
  {
    OnlyNewMaximaCount(fvs);
    if Accepted(fvs) != [] {
      CumulativeOfIncreasing(Accepted(fvs));
    }
  }

  /** Of int64 samples the cumulative value is the difference of the raw values, wrapped only if int64 cannot hold it. */
  lemma CumulativeOfIntegers(fvs: seq<FieldValue>)
    requires Accepted(fvs) != [] && Accepted(fvs)[0].Int64Field? && Accepted(fvs)[|Accepted(fvs)| - 1].Int64Field?
    ensures var first, last, c := Accepted(fvs)[0].i, Accepted(fvs)[|Accepted(fvs)| - 1].i, After(fvs).cumulative;
            var d: int := last - first;
            c == if d > INT64_MAX then d - TWO_64 else if d < INT64_MIN then d + TWO_64 else d
  {
    CumulativeIsLastMinusFirst(fvs);
  }

  /** Of double samples in int64 range it is the difference of the raw values to within their fractions. */
  lemma CumulativeOfDoubles(fvs: seq<FieldValue>)
    requires Accepted(fvs) != [] && Accepted(fvs)[0].DoubleField? && Accepted(fvs)[|Accepted(fvs)| - 1].DoubleField?
    requires var first, last := Accepted(fvs)[0].d, Accepted(fvs)[|Accepted(fvs)| - 1].d;
             && INT64_MIN as real <= first <= INT64_MAX as real && INT64_MIN as real <= last <= INT64_MAX as real
             && INT64_MIN as real + 2.0 <= last - first <= INT64_MAX as real - 2.0
    ensures var first, last, c := Accepted(fvs)[0].d, Accepted(fvs)[|Accepted(fvs)| - 1].d, After(fvs).cumulative;
            && -2.0 < c as real - (last - first) < 2.0
            && (first == first.Floor as real && last == last.Floor as real ==> c as real == last - first)
  {
    CumulativeIsLastMinusFirst(fvs);
    hide Accepted, After, Wrap64;
    TruncatedInRange(Accepted(fvs)[0].d);
    TruncatedInRange(Accepted(fvs)[|Accepted(fvs)| - 1].d);
  }

  /** Converting a real that int64 can hold loses less than one, and nothing of a whole number. */
  lemma TruncatedInRange(r: real)
    requires INT64_MIN as real <= r <= INT64_MAX as real
    ensures -1.0 < r - Float64ToInt64(r) as real < 1.0
    ensures r == r.Floor as real ==> Float64ToInt64(r) == r.Floor
  {
  }

  /** The rate-microseconds of one interval in unbounded integers: time passed times the new sample's rate. */
  function Area(prev: FieldValue, fv: Sample): int {
    match fv
    case DoubleField(_, d) => Float64ToInt64(Times(Wrap64(fv.ts - prev.ts), d))
    case Int64Field(_, i) => (fv.ts - prev.ts) * i
  }

  function TotalArea(acc: seq<Sample>): int {
    if |acc| <= 1 then 0
    else TotalArea(acc[..|acc| - 1]) + Area(acc[|acc| - 2], acc[|acc| - 1])
  }

  function Integrated(s: Stats): int {
    MICROS * s.seconds + s.micros
  }

  lemma IncrementIsArea(prev: FieldValue, fv: Sample)
    ensures Congruent(Area(prev, fv), Increment(prev, fv))
    ensures IsInt64(fv.ts - prev.ts) && IsInt64(Area(prev, fv)) ==> Increment(prev, fv) == Area(prev, fv)
  {
    if fv.Int64Field? {
      var delta := fv.ts - prev.ts;
      WrapIsCongruent(delta);
      WrapIsCongruent(Wrap64(delta) * fv.i);
      CongruentProduct(delta, Wrap64(delta), fv.i);
      CongruentTransitive(Area(prev, fv), Wrap64(delta) * fv.i, Increment(prev, fv));
    }
  }

  /** The carry step in unbounded integers, and in int64. */
  lemma CarryConserves(micros: int, seconds: int, increment: int)
    ensures var sum := micros + increment;
            MICROS * (seconds + Quo(sum, MICROS)) + Rem(sum, MICROS) == MICROS * seconds + micros + increment
    ensures var sum := Wrap64(micros + increment);
            Congruent(MICROS * Wrap64(seconds + Quo(sum, MICROS)) + Rem(sum, MICROS),
                      MICROS * seconds + micros + increment)
  {
    QuoRem(micros + increment, MICROS);
    var sum := Wrap64(micros + increment);
    QuoRem(sum, MICROS);
    WrapIsCongruent(micros + increment);
    var s := seconds + Quo(sum, MICROS);
    WrapIsCongruent(s);
    CongruentProduct(s, Wrap64(s), MICROS);
    var j, k := (micros + increment - sum) / TWO_64, (s * MICROS - Wrap64(s) * MICROS) / TWO_64;
    CongruentWhenMultiple(MICROS * Wrap64(s) + Rem(sum, MICROS), MICROS * seconds + micros + increment, -j - k);
  }

  lemma UpdateConserves(s: Stats, fv: Sample, total: int)
    requires s.last.Some? && s.last.value.ts < fv.ts
    requires Congruent(Integrated(s), total)
    ensures -MICROS < Updated(s, fv).micros < MICROS
    ensures Congruent(Integrated(Updated(s, fv)), total + Area(s.last.value, fv))
  {
    var prev := s.last.value;
    var increment := Increment(prev, fv);
    CarryConserves(s.micros, s.seconds, increment);
    IncrementIsArea(prev, fv);
    hide Increment, Area, Wrap64, Quo, Rem, Congruent, AsInt64;
    CongruentSymmetric(Area(prev, fv), increment);
    CongruentSum(Integrated(s), total, increment, Area(prev, fv));
    CongruentTransitive(Integrated(Updated(s, fv)), Integrated(s) + increment, total + Area(prev, fv));
  }

  lemma {:induction false} IncreasingConserves(acc: seq<Sample>)
    requires Increasing(acc)
    ensures -MICROS < After(acc).micros < MICROS
    ensures Congruent(Integrated(After(acc)), TotalArea(acc))
  {
    if acc != [] {
      var k := |acc| - 1;
      IncreasingConserves(acc[..k]);
      hide Increment, Area, Wrap64, Quo, Rem, AsInt64;
      if k > 0 {
        LastOfIncreasing(acc[..k]);
        UpdateConserves(After(acc[..k]), acc[k], TotalArea(acc[..k]));
      }
    }
  }

  /**
   For every sample sequence: the carry stays below one second, and seconds and carry together hold
   the total area up to int64 wrap-around.
   */
  lemma ConservesModulo64(fvs: seq<FieldValue>)
    ensures -MICROS < After(fvs).micros < MICROS
    ensures Congruent(Integrated(After(fvs)), TotalArea(Accepted(fvs)))
  {
    OnlyNewMaximaCount(fvs);
    IncreasingConserves(Accepted(fvs));
  }

  // ------------------------------------------------------------------
  // Without overflow
  // ------------------------------------------------------------------

  /** The increments that can be added to any carry below one second without overflow. */
  const MIN_INCREMENT: int := INT64_MIN + (MICROS - 1)
  const MAX_INCREMENT: int := INT64_MAX - (MICROS - 1)

  /** A total area whose whole seconds are an int64 under either sign of the carry: enough, not the widest there is. */
  const MAX_TOTAL: int := MICROS * (INT64_MAX - 1)

  predicate IntervalInRange(prev: FieldValue, fv: Sample) {
    IsInt64(fv.ts - prev.ts) && MIN_INCREMENT <= Area(prev, fv) <= MAX_INCREMENT
  }

  /** No interval, area or running total of these samples is too wide for int64. */
  predicate InRange(acc: seq<Sample>) {
    |acc| <= 1 || (
      var k := |acc| - 1;
      InRange(acc[..k]) && IntervalInRange(acc[k - 1], acc[k]) && Abs(TotalArea(acc)) <= MAX_TOTAL)
  }

  /** Between the bounds no increment overflows the accumulator, whatever was integrated before. */
  lemma CarryCannotOverflow(fvs: seq<FieldValue>, increment: int)
    requires MIN_INCREMENT <= increment <= MAX_INCREMENT
    ensures IsInt64(After(fvs).micros + increment)
  {
    ConservesModulo64(fvs);
  }

  /** Every carry below one second, of either sign, is left by two samples. */
  lemma CarryIsReached(carry: int)
    requires -MICROS < carry < MICROS
    ensures After([Int64Field(0, 0), Int64Field(1, carry)]).micros == carry
  {
    var a, b := Int64Field(0, 0), Int64Field(1, carry);
    assert [a, b][..1] == [a] && [a][..0] == [];
    assert After([a]) == Stats(Some(a), 0, 0, 0, 0);
    assert After([a, b]) == Updated(After([a]), b);
  }

  /** An increment is safe after every history exactly if it is between the bounds. */
  lemma SafeIncrementsExactly(increment: int)
    ensures (forall fvs :: IsInt64(After(fvs).micros + increment)) <==> MIN_INCREMENT <= increment <= MAX_INCREMENT
  {
    CarryIsReached(MICROS - 1);
    CarryIsReached(1 - MICROS);
    if MIN_INCREMENT <= increment <= MAX_INCREMENT {
      forall fvs ensures IsInt64(After(fvs).micros + increment) {
        CarryCannotOverflow(fvs, increment);
      }
    }
    hide After;
    if increment > MAX_INCREMENT {
      assert !IsInt64(After([Int64Field(0, 0), Int64Field(1, MICROS - 1)]).micros + increment);
    } else if increment < MIN_INCREMENT {
      assert !IsInt64(After([Int64Field(0, 0), Int64Field(1, 1 - MICROS)]).micros + increment);
    }
  }

  /** What an overflow does: rates that are all positive integrate to a negative number of seconds. */
  lemma OneMoreOverflows()
    ensures var fvs := [Int64Field(0, 1), Int64Field(1, MICROS - 1), Int64Field(2, MAX_INCREMENT + 1)];
            After(fvs[..2]).micros == MICROS - 1 && After(fvs).seconds < 0
  {
    var fvs := [Int64Field(0, 1), Int64Field(1, MICROS - 1), Int64Field(2, MAX_INCREMENT + 1)];
    assert fvs[..2][..1][..0] == [];
    assert fvs[..2][..1] == [fvs[0]];
    assert After(fvs[..2][..1]) == Stats(Some(fvs[0]), 0, 0, 1, 0);
    assert After(fvs[..2]) == Stats(Some(fvs[1]), 0, MICROS - 1, 1, MICROS - 2);
  }

  lemma UpdateIsExact(s: Stats, fv: Sample)
    requires s.last.Some? && s.last.value.ts < fv.ts
    requires -MICROS < s.micros < MICROS && IntervalInRange(s.last.value, fv)
    requires Abs(Integrated(s) + Area(s.last.value, fv)) <= MAX_TOTAL
    ensures Integrated(Updated(s, fv)) == Integrated(s) + Area(s.last.value, fv)
    ensures Updated(s, fv).micros == Rem(s.micros + Area(s.last.value, fv), MICROS)
  {
    IncrementIsArea(s.last.value, fv);
    CarryConserves(s.micros, s.seconds, Increment(s.last.value, fv));
    hide Area, AsInt64, Increment;
    var sum := s.micros + Area(s.last.value, fv);
    assert Wrap64(sum) == sum;
    hide Wrap64, Quo, Rem;
    assert IsInt64(s.seconds + Quo(sum, MICROS));
  }

  lemma {:induction false} IncreasingIsExact(acc: seq<Sample>)
    requires Increasing(acc) && InRange(acc)
    ensures Integrated(After(acc)) == TotalArea(acc)
  {
    hide Increment, Area, Wrap64, Quo, Rem, AsInt64, IntervalInRange;
    if acc != [] {
      var k := |acc| - 1;
      IncreasingIsExact(acc[..k]);
      IncreasingConserves(acc[..k]);
      if k > 0 {
        LastOfIncreasing(acc[..k]);
        UpdateIsExact(After(acc[..k]), acc[k]);
      }
    }
  }

  /** While nothing is out of range, seconds and carry hold exactly the total area. */
  lemma ConservesExactly(fvs: seq<FieldValue>)
    requires InRange(Accepted(fvs))
    ensures Integrated(After(fvs)) == TotalArea(Accepted(fvs))
  {
    OnlyNewMaximaCount(fvs);
    IncreasingIsExact(Accepted(fvs));
  }

  predicate NonNegativeRates(acc: seq<Sample>) {
    forall i | 0 <= i < |acc| :: AsReal(acc[i]) >= 0.0
  }

  lemma AreaIsNonNegative(prev: FieldValue, fv: Sample)
    requires AsReal(fv) >= 0.0 && prev.ts < fv.ts && IntervalInRange(prev, fv)
    ensures Area(prev, fv) >= 0
  {
    var delta := fv.ts - prev.ts;
    assert Wrap64(delta) == delta;
    hide Wrap64;
    if fv.DoubleField? {
      NonNegativeProduct(delta as real, fv.d);
      assert Times(delta, fv.d) >= 0.0;
    } else {
      assert fv.i >= 0;
    }
  }

  lemma NonNegativeProduct(x: real, y: real)
    requires x >= 0.0 && y >= 0.0
    ensures x * y >= 0.0
  {
  }

  lemma ProductOfReals(x: int, y: int)
    ensures x as real * y as real == (x * y) as real
  {
  }

  lemma {:induction false} IncreasingIsWhole(acc: seq<Sample>)
    requires Increasing(acc) && InRange(acc) && NonNegativeRates(acc)
    ensures After(acc).micros >= 0 && TotalArea(acc) >= 0
  {
    hide Increment, Area, Wrap64, Quo, Rem, AsInt64, AsReal, IntervalInRange;
    if |acc| > 1 {
      var k := |acc| - 1;
      var s := After(acc[..k]);
      IncreasingIsWhole(acc[..k]);
      IncreasingConserves(acc[..k]);
      IncreasingIsExact(acc[..k]);
      LastOfIncreasing(acc[..k]);
      AreaIsNonNegative(acc[k - 1], acc[k]);
      UpdateIsExact(s, acc[k]);
      QuoRem(s.micros + Area(acc[k - 1], acc[k]), MICROS);
    } else if |acc| == 1 {
      assert acc[..0] == [];
    }
  }

  /** For non-negative rates the reported seconds are the whole seconds of the total area. */
  lemma SecondsAreWholeTotal(fvs: seq<FieldValue>)
    requires InRange(Accepted(fvs)) && NonNegativeRates(Accepted(fvs))
    ensures After(fvs).seconds == TotalArea(Accepted(fvs)) / 1_000_000
  {
    OnlyNewMaximaCount(fvs);
    IncreasingIsWhole(Accepted(fvs));
    ConservesExactly(fvs);
    ConservesModulo64(fvs);
  }

  lemma {:induction false} TotalAreaGrows(acc: seq<Sample>, n: nat)
    requires n <= |acc| && Increasing(acc) && InRange(acc) && NonNegativeRates(acc)
    ensures InRange(acc[..n]) && TotalArea(acc[..n]) <= TotalArea(acc)
  {
    hide Area, AsReal, IntervalInRange;
    if n == |acc| {
      assert acc[..n] == acc;
    } else {
      var k := |acc| - 1;
      assert acc[..k][..n] == acc[..n];
      TotalAreaGrows(acc[..k], n);
      if k > 0 {
        AreaIsNonNegative(acc[k - 1], acc[k]);
      }
    }
  }

  lemma WholeSecondsGrow(x: int, y: int)
    requires x <= y
    ensures x / MICROS <= y / MICROS
  {
  }

  /** For non-negative rates the reported seconds never decrease. */
  lemma SecondsNeverDecrease(fvs: seq<FieldValue>, more: seq<FieldValue>)
    requires InRange(Accepted(fvs + more)) && NonNegativeRates(Accepted(fvs + more))
    ensures After(fvs).seconds <= After(fvs + more).seconds
  {
    hide After, Accepted, InRange, TotalArea, Increasing, AsReal;
    var acc, acc' := Accepted(fvs), Accepted(fvs + more);
    AcceptedGrows(fvs, more);
    assert acc == acc'[..|acc|];
    OnlyNewMaximaCount(fvs + more);
    TotalAreaGrows(acc', |acc|);
    assert NonNegativeRates(acc);
    SecondsAreWholeTotal(fvs);
    SecondsAreWholeTotal(fvs + more);
    WholeSecondsGrow(TotalArea(acc), TotalArea(acc'));
  }

  /** The area of one interval with no truncation. */
  function Swept(prev: FieldValue, fv: Sample): real {
    Times(fv.ts - prev.ts, AsReal(fv))
  }

  function RealArea(acc: seq<Sample>): real {
    if |acc| <= 1 then 0.0
    else RealArea(acc[..|acc| - 1]) + Swept(acc[|acc| - 2], acc[|acc| - 1])
  }

  lemma IntIntervalIsExact(prev: FieldValue, fv: Sample)
    requires fv.Int64Field?
    ensures Swept(prev, fv) == Area(prev, fv) as real
  {
    ProductOfReals(fv.ts - prev.ts, fv.i);
    assert Swept(prev, fv) == Times(fv.ts - prev.ts, fv.i as real);
  }

  lemma DoubleIntervalDrift(prev: FieldValue, fv: Sample)
    requires fv.DoubleField? && IsInt64(fv.ts - prev.ts) && Area(prev, fv) != INT64_MIN
    ensures -1.0 < Swept(prev, fv) - Area(prev, fv) as real < 1.0
  {
    var delta := Wrap64(fv.ts - prev.ts);
    assert delta == fv.ts - prev.ts;
    hide Wrap64, Float64ToInt64, Trunc, Times;
    ConversionDrift(Times(delta, fv.d));
  }

  lemma IntervalDrift(prev: FieldValue, fv: Sample)
    requires IntervalInRange(prev, fv)
    ensures -1.0 < Swept(prev, fv) - Area(prev, fv) as real < 1.0
  {
    hide Swept, Area;
    if fv.Int64Field? {
      IntIntervalIsExact(prev, fv);
    } else {
      DoubleIntervalDrift(prev, fv);
    }
  }

  lemma ConversionDrift(r: real)
    ensures var t := Float64ToInt64(r);
            t != INT64_MIN ==> -1.0 < r - t as real < 1.0
  {
  }

  lemma DriftAdds(n: nat, r: real, t: int, dr: real, a: int)
    requires -(n as real) < r - t as real < n as real
    requires -1.0 < dr - a as real < 1.0
    ensures -((n + 1) as real) < r + dr - (t + a) as real < (n + 1) as real
  {
    assert (t + a) as real == t as real + a as real;
  }

  /** Truncating double increments drifts by less than one rate-microsecond per accepted sample. */
  lemma {:induction false} TruncationDrift(acc: seq<Sample>)
    requires acc != [] && InRange(acc)
    ensures -(|acc| as real) < RealArea(acc) - TotalArea(acc) as real < |acc| as real
  {
    hide Area, Swept, IntervalInRange;
    if |acc| > 1 {
      var k := |acc| - 1;
      IntervalDrift(acc[k - 1], acc[k]);
      TruncationDrift(acc[..k]);
      DriftAdds(k, RealArea(acc[..k]), TotalArea(acc[..k]), Swept(acc[k - 1], acc[k]), Area(acc[k - 1], acc[k]));
    }
  }

  /** What is integrated is within one rate-microsecond per accepted sample of the true area. */
  lemma IntegratedDrift(fvs: seq<FieldValue>)
    requires Accepted(fvs) != [] && InRange(Accepted(fvs))
    ensures var acc := Accepted(fvs);
            -(|acc| as real) < RealArea(acc) - Integrated(After(fvs)) as real < |acc| as real
  {
    ConservesExactly(fvs);
    TruncationDrift(Accepted(fvs));
  }
}
