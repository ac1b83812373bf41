/** The version computation of `BumpHotfix`: Core(-Identifier.Counter)? in, the next hotfix version out. */
module HotfixVersion {
  import opened Go

  const DEFAULT_IDENTIFIER: string := "hotfix"

  datatype Prerelease = Prerelease(id: string, counter: string)

  /** The submatches of the version regex: the three numerals of the core, and the prerelease if there is one. */
  datatype Version = Version(major: string, minor: string, patch: string, pre: Option<Prerelease>)

  // ------------------------------------------------------------------
  // What the regex matches
  // ------------------------------------------------------------------

  predicate DotFree(s: string) {
    forall i | 0 <= i < |s| :: s[i] != '.'
  }

  predicate WellFormed(v: Version) {
    && Numeral(v.major) && Numeral(v.minor) && Numeral(v.patch)
    && (v.pre.Some? ==> v.pre.value.id != [] && DotFree(v.pre.value.id) && Numeral(v.pre.value.counter))
  }

  function Core(v: Version): string {
    v.major + "." + v.minor + "." + v.patch
  }

  function Text(v: Version): string {
    match v.pre
    case None => Core(v)
    case Some(p) => Core(v) + "-" + p.id + "." + p.counter
  }

  /** The length of the leading run of digits. */
  function DigitRun(s: string): (n: nat)
    ensures n <= |s|
  {
    if s != [] && IsDigit(s[0]) then 1 + DigitRun(s[1..]) else 0
  }

  /** The length of the leading run without a dot. */
  function DotFreeRun(s: string): (n: nat)
    ensures n <= |s|
  {
    if s != [] && s[0] != '.' then 1 + DotFreeRun(s[1..]) else 0
  }

  /** A numeral and what follows it; no numeral, no match. */
  function TakeNumeral(s: string): Option<(string, string)> {
    var n := DigitRun(s);
    if n == 0 then None else Some((s[..n], s[n..]))
  }

  /** A numeral, a dot, and what follows. */
  function TakeField(s: string): Option<(string, string)> {
    var t := TakeNumeral(s);
    if t.Some? && t.value.1 != [] && t.value.1[0] == '.' then Some((t.value.0, t.value.1[1..])) else None
  }

  /** What follows the core: nothing, or a prerelease. */
  function MatchTail(s: string): Option<Option<Prerelease>> {
    if s == [] then Some(None)
    else
      var n := DotFreeRun(s[1..]);
      if s[0] == '-' && 0 < n < |s| - 1 && Numeral(s[n + 2..]) then Some(Some(Prerelease(s[1..n + 1], s[n + 2..])))
      else None
  }

  /** `VersionRegex.FindStringSubmatch`. */
  function FindSubmatch(s: string): Option<Version> {
    var major := TakeField(s);
    if major.None? then None else
    var minor := TakeField(major.value.1);
    if minor.None? then None else
    var patch := TakeNumeral(minor.value.1);
    if patch.None? then None else
    var pre := MatchTail(patch.value.1);
    if pre.None? then None else Some(Version(major.value.0, minor.value.0, patch.value.0, pre.value))
  }

  lemma {:induction false} RunOfDigits(s: string)
    ensures forall i | 0 <= i < DigitRun(s) :: IsDigit(s[i])
    ensures DigitRun(s) < |s| ==> !IsDigit(s[DigitRun(s)])
  {
    if s != [] && IsDigit(s[0]) {
      RunOfDigits(s[1..]);
      assert forall i | 0 < i < |s| :: s[i] == s[1..][i - 1];
    }
  }

  lemma {:induction false} RunWithoutDot(s: string)
    ensures DotFree(s[..DotFreeRun(s)])
    ensures DotFreeRun(s) < |s| ==> s[DotFreeRun(s)] == '.'
  {
    if s != [] && s[0] != '.' {
      RunWithoutDot(s[1..]);
      assert forall i | 0 < i < |s| :: s[i] == s[1..][i - 1];
    }
  }

  lemma NumeralIsTaken(n: string, rest: string)
    requires Numeral(n) && (rest == [] || !IsDigit(rest[0]))
    ensures TakeNumeral(n + rest) == Some((n, rest))
  {
    var s := n + rest;
    RunOfDigits(s);
    assert forall i | 0 <= i < |n| :: s[i] == n[i];
    assert forall i | 0 <= i < |rest| :: s[|n| + i] == rest[i];
    assert s[..|n|] == n && s[|n|..] == rest;
  }

  lemma FieldIsTaken(n: string, rest: string)
    requires Numeral(n)
    ensures TakeField(n + "." + rest) == Some((n, rest))
  {
    NumeralIsTaken(n, "." + rest);
    assert n + "." + rest == n + ("." + rest);
    assert ("." + rest)[1..] == rest;
  }

  lemma DotFreeIsTaken(id: string, rest: string)
    requires DotFree(id)
    ensures DotFreeRun(id + "." + rest) == |id|
  {
    var s := id + "." + rest;
    RunWithoutDot(s);
    assert s[|id|] == '.' && forall i | 0 <= i < |id| :: s[i] == id[i];
  }

  /** Three numerals with dots between them are found wherever no digit follows. */
  lemma CoreIsTaken(v: Version, tail: string)
    requires Numeral(v.major) && Numeral(v.minor) && Numeral(v.patch) && (tail == [] || !IsDigit(tail[0]))
    ensures FindSubmatch(Core(v) + tail)
         == if MatchTail(tail).Some? then Some(v.(pre := MatchTail(tail).value)) else None
  {
    var b := v.patch + tail;
    var a := v.minor + "." + b;
    assert Core(v) + tail == v.major + "." + a;
    FieldIsTaken(v.major, a);
    FieldIsTaken(v.minor, b);
    NumeralIsTaken(v.patch, tail);
    hide TakeField, TakeNumeral, MatchTail, Numeral;
  }

  function Tail(pre: Option<Prerelease>): string {
    if pre.None? then [] else "-" + (pre.value.id + "." + pre.value.counter)
  }

  lemma TextIsCoreAndTail(v: Version)
    ensures Text(v) == Core(v) + Tail(v.pre)
  {
  }

  lemma Assembled(v: Version, tail: string)
    ensures v.major + "." + (v.minor + "." + (v.patch + tail)) == Core(v) + tail
  {
  }

  lemma TailMatches(pre: Option<Prerelease>)
    requires pre.Some? ==> pre.value.id != [] && DotFree(pre.value.id) && Numeral(pre.value.counter)
    ensures MatchTail(Tail(pre)) == Some(pre)
  {
    if pre.Some? {
      var p := pre.value;
      var t := p.id + "." + p.counter;
      assert Tail(pre)[1..] == t;
      DotFreeIsTaken(p.id, p.counter);
      assert t[..|p.id|] == p.id && t[|p.id| + 1..] == p.counter;
      assert Tail(pre)[1..|p.id| + 1] == t[..|p.id|] && Tail(pre)[|p.id| + 2..] == t[|p.id| + 1..];
    }
  }

  /** The regex is unambiguous: what it finds in the text of a version is that version ... */
  lemma TextMatches(v: Version)
    requires WellFormed(v)
    ensures FindSubmatch(Text(v)) == Some(v)
  {
    TailMatches(v.pre);
    CoreIsTaken(v, Tail(v.pre));
    TextIsCoreAndTail(v);
  }

  lemma TakenNumeral(s: string)
    requires TakeNumeral(s).Some?
    ensures Numeral(TakeNumeral(s).value.0) && s == TakeNumeral(s).value.0 + TakeNumeral(s).value.1
  {
    RunOfDigits(s);
  }

  lemma TakenField(s: string)
    requires TakeField(s).Some?
    ensures Numeral(TakeField(s).value.0) && s == TakeField(s).value.0 + "." + TakeField(s).value.1
  {
    TakenNumeral(s);
    var rest := TakeNumeral(s).value.1;
    assert rest == "." + rest[1..];
  }

  lemma MatchedTail(s: string)
    requires MatchTail(s).Some?
    ensures var pre := MatchTail(s).value;
            && s == Tail(pre)
            && (pre.Some? ==> pre.value.id != [] && DotFree(pre.value.id) && Numeral(pre.value.counter))
  {
    if s != [] {
      var t := s[1..];
      var n := DotFreeRun(t);
      RunWithoutDot(t);
      assert s == "-" + t && t == t[..n] + "." + t[n + 1..];
      assert t[..n] == s[1..n + 1] && t[n + 1..] == s[n + 2..];
    }
  }

  /** ... and whatever it finds anything in is the text of a well-formed version. */
  lemma MatchIsText(s: string)
    requires FindSubmatch(s).Some?
    ensures WellFormed(FindSubmatch(s).value) && Text(FindSubmatch(s).value) == s
  {
    var v := FindSubmatch(s).value;
    var a := TakeField(s).value.1;
    var b := TakeField(a).value.1;
    var tail := TakeNumeral(b).value.1;
    TakenField(s);
    TakenField(a);
    TakenNumeral(b);
    MatchedTail(tail);
    hide TakeField, TakeNumeral, MatchTail, Numeral, DotFree, Text, Core, Tail;
    Assembled(v, tail);
    TextIsCoreAndTail(v);
  }

  // ------------------------------------------------------------------
  // Bumping
  // ------------------------------------------------------------------

  /** The new version text for one identifier; counters are Go ints. */
  function Bump(version: string, identifier: string): Result<string> {
    match FindSubmatch(version)
    case None => Err("invalid version format")
    case Some(v) =>
      MatchIsText(version);
      if v.pre.Some? && v.pre.value.id == identifier then
        var counter := Atoi(v.pre.value.counter).0;
        Ok(Core(v) + "-" + identifier + "." + Decimal(Wrap64(counter + 1)))
      else
        var (patch, inRange) := Atoi(v.patch);
        if !inRange then Err("invalid patch version")
        else Ok(v.major + "." + v.minor + "." + Decimal(Wrap64(patch + 1)) + "-" + identifier + "." + "0")
  }

  predicate SameIdentifier(v: Version, identifier: string) {
    v.pre.Some? && v.pre.value.id == identifier
  }

  /** The number that a bump increments. */
  function Incremented(v: Version, identifier: string): nat {
    if SameIdentifier(v, identifier) then ValueOf(v.pre.value.counter) else ValueOf(v.patch)
  }

  /** The version a bump means to produce. */
  function Next(v: Version, identifier: string): Version {
    var n := Decimal(Incremented(v, identifier) + 1);
    if SameIdentifier(v, identifier) then v.(pre := Some(Prerelease(identifier, n)))
    else v.(patch := n, pre := Some(Prerelease(identifier, "0")))
  }

  /** Within int range, what is printed is the text of the version meant. */
  lemma BumpPrintsNext(v: Version, identifier: string)
    requires WellFormed(v) && Incremented(v, identifier) < INT64_MAX
    ensures Bump(Text(v), identifier) == Ok(Text(Next(v, identifier)))
  {
    hide FindSubmatch, Decimal, Wrap64, ValueOf, WellFormed;
    TextMatches(v);
    var n := Decimal(Incremented(v, identifier) + 1);
    assert Wrap64(Incremented(v, identifier) + 1) == Incremented(v, identifier) + 1;
  }

  lemma NextIsWellFormed(v: Version, identifier: string)
    requires WellFormed(v) && identifier != [] && DotFree(identifier)
    ensures WellFormed(Next(v, identifier))
  {
    DigitsRoundTrip(Incremented(v, identifier) + 1);
  }

  /** A prerelease whose identifier has a dot, or whose counter is no numeral, is not matched. */
  lemma BadTail(id: string, counter: string)
    requires !DotFree(id) || !Numeral(counter)
    requires '.' !in counter
    ensures MatchTail("-" + (id + "." + counter)).None?
  {
    var t := id + "." + counter;
    var s := "-" + t;
    assert s[1..] == t;
    RunWithoutDot(t);
    var n := DotFreeRun(t);
    assert t[|id|] == '.' && forall i | 0 <= i < |id| :: t[i] == id[i];
    if DotFree(id) {
      DotFreeIsTaken(id, counter);
      assert s[|id| + 2..] == counter;
    } else {
      var j :| 0 <= j < |id| && id[j] == '.';
      assert t[j] == '.';
      if n < |s| - 1 {
        assert s[n + 2..][|id| - n - 1] == t[|id|];
      }
    }
  }

  lemma DecimalHasNoDot(i: int)
    ensures '.' !in Decimal(i)
    ensures i < 0 ==> Decimal(i)[0] == '-'
  {
    DigitsRoundTrip(Abs(i));
    assert forall k | 0 <= k < |Digits(Abs(i))| :: IsDigit(Digits(Abs(i))[k]);
  }

  /** A patch that is printed with a sign is not matched. */
  lemma BadPatch(v: Version, rest: string)
    requires Numeral(v.major) && Numeral(v.minor) && rest != [] && !IsDigit(rest[0])
    ensures FindSubmatch(v.major + "." + v.minor + "." + rest).None?
  {
    var a := v.minor + "." + rest;
    assert v.major + "." + v.minor + "." + rest == v.major + "." + a;
    FieldIsTaken(v.major, a);
    FieldIsTaken(v.minor, rest);
  }

  /** A counter that is printed with a sign is not matched either. */
  lemma BadCounter(v: Version, identifier: string, printed: string)
    requires WellFormed(v) && '.' !in printed && !Numeral(printed)
    ensures FindSubmatch(Core(v) + "-" + identifier + "." + printed).None?
  {
    var tail := "-" + (identifier + "." + printed);
    BadTail(identifier, printed);
    CoreIsTaken(v, tail);
    hide FindSubmatch, MatchTail, Core, Numeral;
    Regrouped(Core(v), identifier, printed);
  }

  lemma Regrouped(core: string, identifier: string, printed: string)
    ensures core + "-" + identifier + "." + printed == core + ("-" + (identifier + "." + printed))
  {
  }

  lemma NegativeIsNoNumeral(i: int)
    requires i < 0
    ensures var printed := Decimal(i);
            '.' !in printed && printed != [] && !IsDigit(printed[0]) && !Numeral(printed)
  {
    DecimalHasNoDot(i);
  }

  lemma CounterOverflows(v: Version, identifier: string)
    requires WellFormed(v) && SameIdentifier(v, identifier) && Incremented(v, identifier) >= INT64_MAX
    ensures Bump(Text(v), identifier).Ok? && FindSubmatch(Bump(Text(v), identifier).value).None?
  {
    assert Wrap64(INT64_MAX + 1) == INT64_MIN;
    hide Decimal, Wrap64, Numeral, FindSubmatch;
    TextMatches(v);
    NegativeIsNoNumeral(INT64_MIN);
    BadCounter(v, identifier, Decimal(INT64_MIN));
  }

  lemma Regroup(a: string, b: string, c: string, d: string, e: string, f: string)
    ensures a + b + c + d + e + f == a + (b + c + d + e + f)
  {
  }

  lemma PatchOverflows(v: Version, identifier: string)
    requires WellFormed(v) && !SameIdentifier(v, identifier) && Incremented(v, identifier) >= INT64_MAX
    ensures Bump(Text(v), identifier).Ok? ==> FindSubmatch(Bump(Text(v), identifier).value).None?
  {
    assert Wrap64(INT64_MAX + 1) == INT64_MIN;
    hide Decimal, Wrap64, Numeral, FindSubmatch;
    TextMatches(v);
    NegativeIsNoNumeral(INT64_MIN);
    if ValueOf(v.patch) == INT64_MAX {
      var printed := Decimal(INT64_MIN);
      var rest := printed + "-" + identifier + "." + "0";
      BadPatch(v, rest);
      Regroup(v.major + "." + v.minor + ".", printed, "-", identifier, ".", "0");
    }
  }

  lemma DottedIdentifier(v: Version, identifier: string)
    requires WellFormed(v) && !DotFree(identifier) && Incremented(v, identifier) < INT64_MAX
    ensures FindSubmatch(Text(Next(v, identifier))).None?
  {
    var w := Next(v, identifier);
    DigitsRoundTrip(Incremented(v, identifier) + 1);
    BadTail(identifier, "0");
    CoreIsTaken(w, Tail(w.pre));
    TextIsCoreAndTail(w);
  }

  /**
   A bump yields a text that the regex matches again exactly when the identifier has no dot and the number to
   increment is below the largest int64; the match is then the version meant.
   */
  lemma BumpMatchesAgainExactly(version: string, identifier: string)
    requires FindSubmatch(version).Some? && identifier != []
    ensures var v, t := FindSubmatch(version).value, Bump(version, identifier);
            && (t.Ok? && FindSubmatch(t.value).Some?
                <==> DotFree(identifier) && Incremented(v, identifier) < INT64_MAX)
            && (DotFree(identifier) && Incremented(v, identifier) < INT64_MAX ==>
                  FindSubmatch(t.value) == Some(Next(v, identifier)))
  {
    MatchIsText(version);
    var v := FindSubmatch(version).value;
    hide FindSubmatch, Bump, Text, Next, Incremented;
    if Incremented(v, identifier) < INT64_MAX {
      BumpPrintsNext(v, identifier);
      if DotFree(identifier) {
        NextIsWellFormed(v, identifier);
        TextMatches(Next(v, identifier));
      } else {
        DottedIdentifier(v, identifier);
      }
    } else if SameIdentifier(v, identifier) {
      CounterOverflows(v, identifier);
    } else {
      PatchOverflows(v, identifier);
    }
  }

  // ------------------------------------------------------------------
  // Precedence: section 11 of Semantic Versioning 2.0.0
  // ------------------------------------------------------------------

  /** Numeric fields compare numerically and come before the others, which compare lexically: items 11.4.1 to 11.4.3. */
  predicate FieldPrecedes(a: string, b: string) {
    if Numeral(a) && Numeral(b) then ValueOf(a) < ValueOf(b)
    else if Numeral(a) || Numeral(b) then Numeral(a)
    else StringLess(a, b)
  }

  /** The length of the part of an identifier before the first '+': what follows is build metadata, item 10. */
  function BuildStart(id: string): (n: nat)
    ensures n <= |id|
    ensures n < |id| <==> '+' in id
  {
    if id == [] || id[0] == '+' then 0
    else
      assert id == [id[0]] + id[1..];
      1 + BuildStart(id[1..])
  }

  /** The dot-separated fields that count for precedence: a counter behind a '+' belongs to the build metadata. */
  function Fields(p: Prerelease): seq<string> {
    if '+' in p.id then [p.id[..BuildStart(p.id)]] else [p.id, p.counter]
  }

  /** Fields from left to right; of two equal beginnings the longer comes later: item 11.4.4. */
  predicate FieldsPrecede(a: seq<string>, b: seq<string>) {
    if b == [] then false
    else if a == [] then true
    else FieldPrecedes(a[0], b[0]) || (!FieldPrecedes(b[0], a[0]) && FieldsPrecede(a[1..], b[1..]))
  }

  /** A prerelease comes before its release: item 11.3. */
  predicate PrereleasePrecedes(a: Option<Prerelease>, b: Option<Prerelease>) {
    a.Some? && (b.None? || FieldsPrecede(Fields(a.value), Fields(b.value)))
  }

  predicate Precedes(v: Version, w: Version) {
    var a, b := ValueOf(v.major), ValueOf(w.major);
    var c, d := ValueOf(v.minor), ValueOf(w.minor);
    var e, f := ValueOf(v.patch), ValueOf(w.patch);
    a < b || (a == b && (c < d || (c == d && (e < f || (e == f && PrereleasePrecedes(v.pre, w.pre))))))
  }

  lemma NoFieldPrecedesItself(x: string)
    ensures !FieldPrecedes(x, x)
  {
    StringOrder(x, x);
  }

  /** Fields as in the examples of section 11: numbers by value, before words, and words as ASCII sorts them. */
  lemma FieldExamples()
    ensures FieldPrecedes("2", "11") && !FieldPrecedes("11", "2")
    ensures FieldPrecedes("11", "alpha") && !FieldPrecedes("alpha", "11")
    ensures FieldPrecedes("2", "-a") && !FieldPrecedes("-a", "2")
    ensures FieldPrecedes("alpha", "beta") && !FieldPrecedes("beta", "alpha")
    ensures FieldPrecedes("beta", "rc") && !FieldPrecedes("rc", "beta")
  {
    assert ValueOf("2") == 2 by {
      assert "2"[..0] == [];
    }
    assert ValueOf("11") == 11 by {
      assert "11"[..1] == "1" && "1"[..0] == [];
    }
    hide ValueOf;
    assert !IsDigit("-a"[0]);
    assert !IsDigit("alpha"[0]) && !IsDigit("beta"[0]) && !IsDigit("rc"[0]);
  }

  lemma SingleFields(x: string, y: string)
    ensures FieldsPrecede([x], [y]) <==> FieldPrecedes(x, y)
  {
    assert [x][1..] == [] && [y][1..] == [];
    hide FieldPrecedes;
  }

  lemma FieldsOfSame(id: string, a: string, b: string)
    requires Numeral(a) && Numeral(b)
    ensures FieldsPrecede(Fields(Prerelease(id, a)), Fields(Prerelease(id, b))) <==> '+' !in id && ValueOf(a) < ValueOf(b)
  {
    hide BuildStart, ValueOf;
    assert FieldPrecedes(a, b) <==> ValueOf(a) < ValueOf(b);
    hide FieldPrecedes, Numeral;
    var x := id[..BuildStart(id)];
    NoFieldPrecedesItself(x);
    SingleFields(x, x);
    NoFieldPrecedesItself(id);
    SingleFields(a, b);
    assert [id, a][1..] == [a] && [id, b][1..] == [b];
  }

  /** Incrementing a counter behind a '+' leaves the version where it was; any other bump makes it greater. */
  lemma NextIsGreater(v: Version, identifier: string)
    requires WellFormed(v)
    ensures Precedes(v, Next(v, identifier)) <==> !(SameIdentifier(v, identifier) && '+' in identifier)
  {
    hide Decimal, StringLess, Numeral, FieldsPrecede, Fields;
    var n := Decimal(Incremented(v, identifier) + 1);
    DecimalOfNat(Incremented(v, identifier) + 1);
    if SameIdentifier(v, identifier) {
      assert v.pre.value == Prerelease(identifier, v.pre.value.counter);
      FieldsOfSame(identifier, v.pre.value.counter, n);
    }
  }

  lemma DecimalOfNat(n: nat)
    ensures Numeral(Decimal(n)) && ValueOf(Decimal(n)) == n
  {
    DigitsRoundTrip(n);
  }

  /**
   Whatever a bump yields that still is a version comes strictly after the version bumped, except when it only
   increments a counter that the identifier's '+' makes build metadata.
   */
  lemma BumpIsGreater(version: string, identifier: string)
    requires FindSubmatch(version).Some? && identifier != []
    requires Bump(version, identifier).Ok? && FindSubmatch(Bump(version, identifier).value).Some?
    ensures var v := FindSubmatch(version).value;
            Precedes(v, FindSubmatch(Bump(version, identifier).value).value) <==>
              !(SameIdentifier(v, identifier) && '+' in identifier)
  {
    hide FindSubmatch, Bump, Precedes, Next, Incremented, SameIdentifier;
    BumpMatchesAgainExactly(version, identifier);
    MatchIsText(version);
    NextIsGreater(FindSubmatch(version).value, identifier);
  }

  /** The override, else the spec's identifier, else the default: never empty. */
  function ChooseIdentifier(specified: string, override: string): (id: string)
    ensures id != []
    ensures id in {override, specified, DEFAULT_IDENTIFIER}
  {
    if override != [] then override else if specified != [] then specified else DEFAULT_IDENTIFIER
  }

  /** The version that `BumpHotfix` writes. */
  function BumpHotfix(version: string, specified: string, override: string): Result<string> {
    Bump(version, ChooseIdentifier(specified, override))
  }

  /**
   For every version, identifier of the spec and override: an error if the version does not match; else the result
   matches exactly if the identifier chosen has no dot and the number to increment is in range, and then has the
   override, else the spec's identifier, else the default, and is greater exactly if it does not go on with an
   identifier that has a '+'.
   */
  lemma BumpHotfixExactly(version: string, specified: string, override: string)
    ensures var id, t := ChooseIdentifier(specified, override), BumpHotfix(version, specified, override);
            if FindSubmatch(version).None? then t.Err?
            else
              var v := FindSubmatch(version).value;
              && (DotFree(id) && Incremented(v, id) < INT64_MAX <==> t.Ok? && FindSubmatch(t.value).Some?)
              && (t.Ok? && FindSubmatch(t.value).Some? ==>
                    && FindSubmatch(t.value).value.pre.Some?
                    && FindSubmatch(t.value).value.pre.value.id
                       == (if override != [] then override else if specified != [] then specified else "hotfix")
                    && (Precedes(v, FindSubmatch(t.value).value) <==> !(SameIdentifier(v, id) && '+' in id)))
  {
    hide FindSubmatch, Incremented, Precedes, SameIdentifier;
    var id := ChooseIdentifier(specified, override);
    if FindSubmatch(version).Some? {
      BumpMatchesAgainExactly(version, id);
      if Bump(version, id).Ok? && FindSubmatch(Bump(version, id).value).Some? {
        BumpIsGreater(version, id);
      }
      hide Bump;
    }
  }

  /** "1.2.3-a+b.0" becomes "1.2.3-a+b.1", which is no greater. */
  lemma PlusIsNotGreater()
    ensures var v := Version("1", "2", "3", Some(Prerelease("a+b", "0")));
            && Text(v) == "1.2.3-a+b.0" && Text(Next(v, "a+b")) == "1.2.3-a+b.1"
            && !Precedes(v, Next(v, "a+b"))
  {
    var v := Version("1", "2", "3", Some(Prerelease("a+b", "0")));
    PlusNext(v);
    PlusText("0");
    PlusText("1");
    assert WellFormed(v) && SameIdentifier(v, "a+b") && "a+b"[1] == '+';
    hide *;
    NextIsGreater(v, "a+b");
    assert "1.2.3-a+b." + "0" == "1.2.3-a+b.0" && "1.2.3-a+b." + "1" == "1.2.3-a+b.1";
  }

  lemma PlusNext(v: Version)
    requires v == Version("1", "2", "3", Some(Prerelease("a+b", "0")))
    ensures Next(v, "a+b") == v.(pre := Some(Prerelease("a+b", "1")))
  {
    assert "0"[..0] == [] && ValueOf("0") == 0;
    assert Decimal(1) == "1";
  }

  lemma PlusText(counter: string)
    ensures Text(Version("1", "2", "3", Some(Prerelease("a+b", counter)))) == "1.2.3-a+b." + counter
  {
    assert "1" + "." + "2" + "." + "3" == "1.2.3";
    assert "1.2.3" + "-" + "a+b" + "." == "1.2.3-a+b.";
  }

  // ------------------------------------------------------------------
  // Bumping again and again
  // ------------------------------------------------------------------

  function BumpTimes(version: string, identifier: string, n: nat): Result<string> {
    if n == 0 then Ok(version)
    else
      var r := BumpTimes(version, identifier, n - 1);
      if r.Ok? then Bump(r.value, identifier) else r
  }

  /** The version after `n` bumps of a plain one. */
  function Bumped(v: Version, identifier: string, n: nat): Version
    requires n > 0
  {
    v.(patch := Decimal(ValueOf(v.patch) + 1), pre := Some(Prerelease(identifier, Decimal(n - 1))))
  }

  lemma NextOfBumped(v: Version, identifier: string, n: nat)
    requires WellFormed(v) && identifier != [] && DotFree(identifier) && 1 < n <= INT64_MAX
    ensures var u := Bumped(v, identifier, n - 1);
            WellFormed(u) && Incremented(u, identifier) < INT64_MAX && Next(u, identifier) == Bumped(v, identifier, n)
  {
    DigitsRoundTrip(ValueOf(v.patch) + 1);
    DigitsRoundTrip(n - 2);
    hide Numeral, Digits;
  }

  /** After `n` bumps of a plain x.y.z with one identifier the version is x.y.(z+1)-identifier.(n-1). */
  lemma {:induction false} RepeatedBumps(v: Version, identifier: string, n: nat)
    requires WellFormed(v) && v.pre.None? && identifier != [] && DotFree(identifier)
    requires ValueOf(v.patch) < INT64_MAX && 0 < n <= INT64_MAX
    ensures BumpTimes(Text(v), identifier, n)
         == Ok(v.major + "." + v.minor + "." + Decimal(ValueOf(v.patch) + 1) + "-" + identifier + "." + Decimal(n - 1))
  {
    hide Bump, Decimal;
    if n == 1 {
      assert BumpTimes(Text(v), identifier, 0) == Ok(Text(v));
      BumpPrintsNext(v, identifier);
      ZeroIsPrinted();
    } else {
      RepeatedBumps(v, identifier, n - 1);
      NextOfBumped(v, identifier, n);
      var u := Bumped(v, identifier, n - 1);
      BumpPrintsNext(u, identifier);
      hide WellFormed, Next, Incremented;
      assert BumpTimes(Text(v), identifier, n - 1) == Ok(Text(u));
    }
  }

  lemma ZeroIsPrinted()
    ensures Decimal(0) == "0"
  {
  }
}
