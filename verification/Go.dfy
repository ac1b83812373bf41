/** Go's integer arithmetic, written out over Dafny's unbounded integers. */
module Go {

  const INT64_MIN: int := -0x8000_0000_0000_0000
  const INT64_MAX: int := 0x7FFF_FFFF_FFFF_FFFF
  const TWO_64: int := 0x1_0000_0000_0000_0000

  datatype Option<+T> = None | Some(value: T) {
    function GetOr(default: T): T {
      if Some? then value else default
    }
  }

  datatype Result<+T> = Ok(value: T) | Err(message: string)

  predicate IsInt64(x: int) {
    INT64_MIN <= x <= INT64_MAX
  }

  type Int64 = x: int | IsInt64(x)

  /** The int64 that two's complement wrap-around leaves of `x`. */
  function Wrap64(x: int): (r: Int64)
    ensures IsInt64(x) ==> r == x
  {
    (x - INT64_MIN) % TWO_64 + INT64_MIN
  }

  /** The wrapped difference of two int64 values is the difference itself exactly if it is not too large. */
  lemma WrappedDifference(x: Int64, y: Int64)
    requires x >= y
    ensures x - y <= INT64_MAX ==> Wrap64(x - y) == x - y
    ensures x - y > INT64_MAX ==> Wrap64(x - y) == x - y - TWO_64 < 0
  {
    var d: int := x - y;
    if d > INT64_MAX {
      assert IsInt64(x) && IsInt64(y);
      assert INT64_MIN <= d - TWO_64 < 0;
      CongruentWhenMultiple(d, d - TWO_64, 1);
      CongruentWraps(d, d - TWO_64);
    }
  }

  function Abs(x: int): nat {
    if x < 0 then -x else x
  }

  function Min(x: int, y: int): int {
    if x < y then x else y
  }

  function Max(x: int, y: int): int {
    if x < y then y else x
  }

  /** Go's `/`: truncates toward zero. */
  function Quo(x: int, y: int): (q: int)
    requires y > 0
  {
    if x < 0 then -(-x / y) else x / y
  }

  /** Go's `%`: the remainder takes the sign of the dividend. */
  function Rem(x: int, y: int): (r: int)
    requires y > 0
    ensures -y < r < y
  {
    if x < 0 then -(-x % y) else x % y
  }

  /** Drops the fraction. */
  function Trunc(r: real): (t: int)
    ensures r >= 0.0 ==> 0.0 <= t as real <= r && r - t as real < 1.0
    ensures r <= 0.0 ==> r <= t as real <= 0.0 && t as real - r < 1.0
  {
    if r < 0.0 then -((-r).Floor) else r.Floor
  }

  /** Go's `int64(f)`. Out of range Go leaves the result to the platform; this is what amd64 gives. */
  function Float64ToInt64(r: real): (t: Int64)
    ensures IsInt64(Trunc(r)) ==> t == Trunc(r)
  {
    var t := Trunc(r);
    if IsInt64(t) then t else INT64_MIN
  }

  /** Go's language specification, "Arithmetic operators": x == (x / y) * y + x % y, and |x % y| < |y|. */
  lemma QuoRem(x: int, y: int)
    requires y > 0
    ensures Quo(x, y) * y + Rem(x, y) == x
    ensures x >= 0 ==> Quo(x, y) >= 0 && Rem(x, y) >= 0
    ensures x <= 0 ==> Quo(x, y) <= 0 && Rem(x, y) <= 0
  {
    var a := Abs(x);
    assert a == (a / y) * y + a % y;
    if x < 0 {
      assert (-(a / y)) * y == -((a / y) * y);
    }
  }

  /** Equal up to int64 wrap-around. */
  predicate Congruent(x: int, y: int) {
    (x - y) % TWO_64 == 0
  }

  lemma WrapIsCongruent(x: int)
    ensures Congruent(x, Wrap64(x))
  {
  }

  lemma CongruentWhenMultiple(x: int, y: int, k: int)
    requires x - y == k * TWO_64
    ensures Congruent(x, y)
  {
  }

  lemma CongruentSymmetric(x: int, y: int)
    requires Congruent(x, y)
    ensures Congruent(y, x)
  {
    CongruentWhenMultiple(y, x, -((x - y) / TWO_64));
  }

  lemma CongruentSum(x: int, y: int, x': int, y': int)
    requires Congruent(x, y) && Congruent(x', y')
    ensures Congruent(x + x', y + y')
  {
    CongruentWhenMultiple(x + x', y + y', (x - y) / TWO_64 + (x' - y') / TWO_64);
  }

  lemma CongruentProduct(x: int, y: int, f: int)
    requires Congruent(x, y)
    ensures Congruent(x * f, y * f)
  {
    var k := (x - y) / TWO_64;
    assert x == y + k * TWO_64;
    assert x * f == y * f + (k * f) * TWO_64;
    CongruentWhenMultiple(x * f, y * f, k * f);
  }

  lemma CongruentTransitive(x: int, y: int, z: int)
    requires Congruent(x, y) && Congruent(y, z)
    ensures Congruent(x, z)
  {
    CongruentSum(x, y, y, z);
  }

  lemma CongruentWraps(x: int, y: int)
    requires Congruent(x, y)
    ensures Wrap64(x) == Wrap64(y)
  {
    var k := (x - y) / TWO_64;
    assert x - INT64_MIN == (y - INT64_MIN) + k * TWO_64;
  }

  // ------------------------------------------------------------------
  // Decimal numerals
  // ------------------------------------------------------------------

  const DIGITS: string := "0123456789"

  predicate IsDigit(c: char) {
    '0' <= c <= '9'
  }

  /** What `\d+` matches. */
  predicate Numeral(s: string) {
    s != [] && forall i | 0 <= i < |s| :: IsDigit(s[i])
  }

  function DigitValue(c: char): nat {
    if IsDigit(c) then c as int - '0' as int else 0
  }

  function ValueOf(s: string): nat {
    if s == [] then 0 else 10 * ValueOf(s[..|s| - 1]) + DigitValue(s[|s| - 1])
  }

  /** `strconv.FormatInt(i, 10)` and `%d`. */
  function Decimal(i: int): string {
    if i < 0 then "-" + Digits(-i) else Digits(i)
  }

  function Digits(n: nat): string {
    if n < 10 then [DIGITS[n]] else Digits(n / 10) + [DIGITS[n % 10]]
  }

  /** `strconv.Atoi` on a numeral: out of range it returns the largest int64 and an error. */
  function Atoi(s: string): (r: (Int64, bool))
    requires Numeral(s)
    ensures r.1 <==> ValueOf(s) <= INT64_MAX
    ensures r.0 == if r.1 then ValueOf(s) else INT64_MAX
  {
    if ValueOf(s) <= INT64_MAX then (ValueOf(s), true) else (INT64_MAX, false)
  }

  lemma DigitRoundTrip(d: nat)
    requires d < 10
    ensures IsDigit(DIGITS[d]) && DigitValue(DIGITS[d]) == d
  {
  }

  lemma {:induction false} DigitsRoundTrip(n: nat)
    ensures Numeral(Digits(n)) && ValueOf(Digits(n)) == n
  {
    if n < 10 {
      assert Digits(n)[..0] == [];
    } else {
      DigitsRoundTrip(n / 10);
      DigitRoundTrip(n % 10);
      var s, c := Digits(n / 10), DIGITS[n % 10];
      hide Digits, DigitValue, IsDigit;
      assert (s + [c])[..|s|] == s;
    }
  }

  // ------------------------------------------------------------------
  // Strings
  // ------------------------------------------------------------------

  /** Go's `<` on strings. */
  predicate StringLess(a: string, b: string) {
    if b == [] then false
    else if a == [] then true
    else a[0] < b[0] || (a[0] == b[0] && StringLess(a[1..], b[1..]))
  }

  lemma {:induction false} StringOrder(a: string, b: string)
    ensures StringLess(a, b) ==> !StringLess(b, a)
    ensures !StringLess(a, b) && !StringLess(b, a) <==> a == b
  {
    if a != [] && b != [] {
      StringOrder(a[1..], b[1..]);
      if a[0] == b[0] && a[1..] == b[1..] {
        assert a == [a[0]] + a[1..] && b == [b[0]] + b[1..];
      }
    }
  }

  lemma {:induction false} StringLessTransitive(a: string, b: string, c: string)
    requires !StringLess(b, a) && !StringLess(c, b)
    ensures !StringLess(c, a)
  {
    if a != [] && b != [] && c != [] {
      if a[0] == b[0] == c[0] {
        StringLessTransitive(a[1..], b[1..], c[1..]);
      }
    }
  }

  predicate Sorted(ss: seq<string>) {
    forall i, j | 0 <= i < j < |ss| :: !StringLess(ss[j], ss[i])
  }

  function Insert(x: string, ss: seq<string>): seq<string> {
    if ss == [] || StringLess(x, ss[0]) then [x] + ss else [ss[0]] + Insert(x, ss[1..])
  }

  /** `sort.StringSlice(ss).Sort()`. */
  function Sort(ss: seq<string>): seq<string> {
    if ss == [] then [] else Insert(ss[0], Sort(ss[1..]))
  }

  lemma {:induction false} InsertKeepsAll(x: string, ss: seq<string>)
    ensures multiset(Insert(x, ss)) == multiset{x} + multiset(ss)
  {
    hide StringLess;
    if ss != [] && !StringLess(x, ss[0]) {
      InsertKeepsAll(x, ss[1..]);
      assert ss == [ss[0]] + ss[1..];
    }
  }

  lemma {:induction false} InsertKeepsSorted(x: string, ss: seq<string>)
    requires Sorted(ss)
    ensures Sorted(Insert(x, ss)) && multiset(Insert(x, ss)) == multiset{x} + multiset(ss)
  {
    hide StringLess;
    InsertKeepsAll(x, ss);
    if ss == [] {
    } else if StringLess(x, ss[0]) {
      StringOrder(x, ss[0]);
      forall j | 0 <= j < |ss| ensures !StringLess(ss[j], x) {
        if j > 0 {
          StringLessTransitive(x, ss[0], ss[j]);
        }
      }
    } else {
      var rest := Insert(x, ss[1..]);
      InsertKeepsSorted(x, ss[1..]);
      forall j | 0 <= j < |rest| ensures !StringLess(rest[j], ss[0]) {
        assert rest[j] in multiset(rest);
        assert rest[j] == x || rest[j] in ss[1..];
      }
    }
  }

  lemma {:induction false} SortIsSorted(ss: seq<string>)
    ensures Sorted(Sort(ss)) && multiset(Sort(ss)) == multiset(ss)
  {
    if ss != [] {
      SortIsSorted(ss[1..]);
      InsertKeepsSorted(ss[0], Sort(ss[1..]));
      assert ss == [ss[0]] + ss[1..];
    }
  }

  lemma {:induction false} SortedIsUnique(a: seq<string>, b: seq<string>)
    requires Sorted(a) && Sorted(b) && multiset(a) == multiset(b)
    ensures a == b
  {
    if a == [] {
      assert |multiset(b)| == 0;
    } else {
      assert a[0] in multiset(b) && |multiset(a)| == |multiset(b)|;
      assert b[0] in multiset(a);
      StringOrder(a[0], b[0]);
      assert a == [a[0]] + a[1..] && b == [b[0]] + b[1..];
      assert multiset(a[1..]) == multiset(a) - multiset{a[0]};
      assert multiset(b[1..]) == multiset(b) - multiset{b[0]};
      SortedIsUnique(a[1..], b[1..]);
    }
  }

  /** Sorting forgets the order the strings came in. */
  lemma SortIsCanonical(a: seq<string>, b: seq<string>)
    requires multiset(a) == multiset(b)
    ensures Sort(a) == Sort(b)
  {
    SortIsSorted(a);
    SortIsSorted(b);
    SortedIsUnique(Sort(a), Sort(b));
  }

  /** `strings.Join`. */
  function Join(ss: seq<string>, sep: string): string {
    if ss == [] then [] else if |ss| == 1 then ss[0] else ss[0] + sep + Join(ss[1..], sep)
  }
}
