/** Plain X.Y.Z versions: parsing, printing, bumping, and their order as in
    item 11 of Semantic Versioning 2.0.0. */
module Semver {
  import opened Bytes
  import opened Decimals
  import opened LineSplit
  import opened VersionLines
  import opened Wrappers

  const DOT: byte := 46
  const ZERO: byte := 48
  const PATCH: Bytes := Ascii("patch")
  const MINOR: Bytes := Ascii("minor")
  const MAJOR: Bytes := Ascii("major")

  datatype Version = Version(major: nat, minor: nat, patch: nat)

  /** Precedence: major, then minor, then patch, numerically. */
  predicate Precedes(a: Version, b: Version) {
    a.major < b.major || (a.major == b.major && (a.minor < b.minor || (a.minor == b.minor && a.patch < b.patch)))
  }

  function DigitCount(s: Bytes): (n: nat)
    ensures n <= |s|
  {
    if s == [] || !IsDigit(s[0]) then 0 else 1 + DigitCount(s[1..])
  }

  lemma {:induction false} DigitCountIsDigits(s: Bytes)
    ensures AllDigits(s[..DigitCount(s)])
  {
    if s != [] && IsDigit(s[0]) {
      DigitCountIsDigits(s[1..]);
      var d := s[..DigitCount(s)];
      forall i | 0 <= i < |d| ensures IsDigit(d[i]) {
        assert i > 0 ==> d[i] == s[1..][..DigitCount(s[1..])][i - 1];
      }
    }
  }

  /** A number without leading zeros, and what follows it. */
  function Number(s: Bytes): Option<(nat, Bytes)> {
    var n := DigitCount(s);
    DigitCountIsDigits(s);
    if n == 0 || (n > 1 && s[0] == ZERO) then None else Some((Value(s[..n], 0), s[n..]))
  }

  function AfterDot(s: Bytes): Option<(nat, Bytes)> {
    if s == [] || s[0] != DOT then None else Number(s[1..])
  }

  /** _parse_version */
  function Parse(value: Bytes): Option<Version> {
    var a := Number(Strip(value));
    if a == None then None
    else
      var b := AfterDot(a.value.1);
      if b == None then None
      else
        var c := AfterDot(b.value.1);
        if c == None || c.value.1 != [] then None else Some(Version(a.value.0, b.value.0, c.value.0))
  }

  function Print(v: Version): Bytes {
    Decimal(v.major) + ([DOT] + (Decimal(v.minor) + ([DOT] + Decimal(v.patch))))
  }

  function Bumped(v: Version, requested: Bytes): Option<Version> {
    if requested == PATCH then Some(v.(patch := v.patch + 1))
    else if requested == MINOR then Some(Version(v.major, v.minor + 1, 0))
    else if requested == MAJOR then Some(Version(v.major + 1, 0, 0))
    else None
  }

  /** resolve_next_version: an explicit version is passed on untrimmed. */
  function Resolve(current: Bytes, requested: Bytes): Option<Bytes> {
    var v := Parse(current);
    if v == None then None
    else if Bumped(v.value, requested).Some? then Some(Print(Bumped(v.value, requested).value))
    else if Parse(requested).Some? then Some(requested)
    else None
  }

  // ---- printing is canonical ----

  lemma {:induction false} NoLeadingZero(n: nat)
    ensures Decimal(n)[0] == ZERO ==> |Decimal(n)| == 1
  {
    if n >= 10 {
      NoLeadingZero(n / 10);
      if Decimal(n / 10)[0] == ZERO {
        assert n / 10 > 0;
        PositiveStart(n / 10);
      }
    }
  }

  lemma {:induction false} PositiveStart(n: nat)
    requires n > 0
    ensures Decimal(n)[0] != ZERO
  {
    if n >= 10 { PositiveStart(n / 10); }
  }

  lemma {:induction false} DigitCountOf(d: Bytes, rest: Bytes)
    requires AllDigits(d) && (rest == [] || !IsDigit(rest[0]))
    ensures DigitCount(d + rest) == |d|
  {
    if d == [] {
      assert d + rest == rest;
    } else {
      assert (d + rest)[1..] == d[1..] + rest;
      DigitCountOf(d[1..], rest);
    }
  }

  lemma NumberOf(n: nat, rest: Bytes)
    requires rest == [] || !IsDigit(rest[0])
    ensures Number(Decimal(n) + rest) == Some((n, rest))
  {
    var d := Decimal(n);
    DigitCountOf(d, rest);
    NoLeadingZero(n);
    DecimalValue(n);
    assert (d + rest)[..|d|] == d && (d + rest)[|d|..] == rest;
    hide Decimal, Value, DigitCount;
  }

  lemma PrintedBytes(v: Version)
    ensures Trimmed(Print(v)) && Unbroken(Print(v)) && Print(v) != []
  {
    var a, b, c := Decimal(v.major), Decimal(v.minor), Decimal(v.patch);
    var p := Print(v);
    assert p[0] == a[0] && p[|p| - 1] == c[|c| - 1] && IsDigit(a[0]) && IsDigit(c[|c| - 1]);
    hide Decimal;
    assert forall x :: x in p ==> x in a || x in b || x in c || x == DOT;
  }

  lemma AfterDotOf(n: nat, rest: Bytes)
    requires rest == [] || !IsDigit(rest[0])
    ensures AfterDot([DOT] + (Decimal(n) + rest)) == Some((n, rest))
  {
    NumberOf(n, rest);
    hide Decimal, Number;
    assert ([DOT] + (Decimal(n) + rest))[1..] == Decimal(n) + rest;
  }

  /** What is printed is parsed back. */
  lemma ParseInvertsPrint(v: Version)
    ensures Parse(Print(v)) == Some(v)
  {
    var third := [DOT] + (Decimal(v.patch) + []);
    var second := [DOT] + (Decimal(v.minor) + third);
    assert Decimal(v.patch) + [] == Decimal(v.patch);
    assert Print(v) == Decimal(v.major) + second;
    PrintedBytes(v);
    StripIsTrimmed(Print(v));
    hide Decimal, Number, Strip, AfterDot, Print;
    NumberOf(v.major, second);
    AfterDotOf(v.minor, third);
    AfterDotOf(v.patch, []);
  }

  /** A patch, minor or major bump is strictly later, and parses as the bump. */
  lemma BumpsIncrease(current: Bytes, requested: Bytes)
    requires Resolve(current, requested).Some? && (requested == PATCH || requested == MINOR || requested == MAJOR)
    ensures var (v, w) := (Parse(current), Parse(Resolve(current, requested).value));
            v.Some? && w.Some? && Precedes(v.value, w.value) && w == Bumped(v.value, requested)
  {
    ResolveParses(current, requested);
    BumpedBy(Parse(current).value, requested);
    assert PATCH == Ascii("patch") && MINOR == Ascii("minor") && MAJOR == Ascii("major");
    hide Parse, Print, Bumped, Resolve, PATCH, MINOR, MAJOR;
  }

  /** A request is resolved exactly if both it and the current text make sense, and
      an explicit version stands for itself. */
  lemma ResolvesExactly(current: Bytes, requested: Bytes)
    ensures var bump := requested in {Ascii("patch"), Ascii("minor"), Ascii("major")};
            && (Resolve(current, requested).Some? <==> Parse(current).Some? && (bump || Parse(requested).Some?))
            && (!bump && Resolve(current, requested).Some? ==> Resolve(current, requested).value == requested)
  {
    assert PATCH == Ascii("patch") && MINOR == Ascii("minor") && MAJOR == Ascii("major");
    hide Parse, Print, PATCH, MINOR, MAJOR;
  }

  /** w is later than v, has the given shape, and nothing of that shape lies between. */
  ghost predicate NextWith(v: Version, w: Version, shape: Version -> bool) {
    Precedes(v, w) && shape(w) && forall x :: Precedes(v, x) && shape(x) ==> x == w || Precedes(w, x)
  }

  /** patch goes to the next version of all, minor to the next without a patch, and
      major to the next with neither a minor nor a patch. */
  lemma BumpsAreNext(current: Bytes, requested: Bytes)
    requires Resolve(current, requested).Some?
    ensures var (v, w) := (Parse(current), Parse(Resolve(current, requested).value));
            && v.Some? && w.Some?
            && (requested == Ascii("patch") ==> NextWith(v.value, w.value, x => true))
            && (requested == Ascii("minor") ==> NextWith(v.value, w.value, (x: Version) => x.patch == 0))
            && (requested == Ascii("major") ==> NextWith(v.value, w.value, (x: Version) => x.minor == 0 && x.patch == 0))
  {
    ResolveParses(current, requested);
    BumpedBy(Parse(current).value, requested);
    NextVersions(Parse(current).value);
    hide Parse, Print, Resolve, Bumped, NextWith;
  }

  lemma BumpedBy(v: Version, requested: Bytes)
    ensures requested == Ascii("patch") ==> Bumped(v, requested) == Some(Version(v.major, v.minor, v.patch + 1))
    ensures requested == Ascii("minor") ==> Bumped(v, requested) == Some(Version(v.major, v.minor + 1, 0))
    ensures requested == Ascii("major") ==> Bumped(v, requested) == Some(Version(v.major + 1, 0, 0))
  {
    assert PATCH[0] == 112 && MINOR[1] == 105 && MAJOR[1] == 97 && MINOR[0] == 109 && MAJOR[0] == 109;
  }

  lemma NextVersions(v: Version)
    ensures NextWith(v, Version(v.major, v.minor, v.patch + 1), x => true)
    ensures NextWith(v, Version(v.major, v.minor + 1, 0), (x: Version) => x.patch == 0)
    ensures NextWith(v, Version(v.major + 1, 0, 0), (x: Version) => x.minor == 0 && x.patch == 0)
  {
  }

  lemma ResolveParses(current: Bytes, requested: Bytes)
    requires Resolve(current, requested).Some?
    ensures Parse(current).Some? && Parse(Resolve(current, requested).value).Some?
    ensures var (v, w) := (Parse(current).value, Parse(Resolve(current, requested).value));
            Bumped(v, requested).Some? ==> w == Bumped(v, requested)
  {
    var v := Parse(current).value;
    hide Parse, Print;
    if Bumped(v, requested).Some? {
      ParseInvertsPrint(Bumped(v, requested).value);
    }
  }

  // ---- exactly the plain versions parse ----

  /** Digits without a leading zero are the decimal spelling of their value. */
  lemma {:induction false} DigitsAreDecimal(d: Bytes)
    requires d != [] && AllDigits(d) && (|d| > 1 ==> d[0] != ZERO)
    ensures d == Decimal(Value(d, 0)) && (d[0] != ZERO ==> Value(d, 0) > 0)
  {
    var n := |d| - 1;
    assert d == d[..n] + [d[n]];
    if n == 0 {
      assert d[..0] == [] && Value([], 0) == 0;
    } else {
      DigitsAreDecimal(d[..n]);
    }
  }

  lemma NumberIs(s: Bytes)
    requires Number(s).Some?
    ensures s == Decimal(Number(s).value.0) + Number(s).value.1
  {
    var n := DigitCount(s);
    DigitCountIsDigits(s);
    DigitsAreDecimal(s[..n]);
    hide Decimal, Value, DigitCount;
    assert s == s[..n] + s[n..];
  }

  lemma AfterDotIs(s: Bytes)
    requires AfterDot(s).Some?
    ensures s == [DOT] + (Decimal(AfterDot(s).value.0) + AfterDot(s).value.1)
  {
    NumberIs(s[1..]);
    hide Decimal, Number;
    assert s == [s[0]] + s[1..];
  }

  /** A text is the version it parses as, in plain spelling, but for spaces around it. */
  lemma ParsesExactly(value: Bytes, v: Version)
    ensures Parse(value) == Some(v) <==> Strip(value) == Print(v)
  {
    if Strip(value) == Print(v) {
      ParseInvertsPrint(v);
      PrintedBytes(v);
      StripIsTrimmed(Print(v));
      hide Number, AfterDot, Strip, Print;
    } else if Parse(value) == Some(v) {
      SpelledOut(value);
    }
  }

  lemma SpelledOut(value: Bytes)
    requires Parse(value).Some?
    ensures Strip(value) == Print(Parse(value).value)
  {
    hide Number, Decimal, Strip, AfterDot;
    var s := Strip(value);
    NumberIs(s);
    var b := Number(s).value.1;
    AfterDotIs(b);
    var c := AfterDot(b).value.1;
    AfterDotIs(c);
    var v := Parse(value).value;
    assert Decimal(v.patch) + [] == Decimal(v.patch);
  }

  // ---- what a version may contain ----

  lemma {:induction false} StripKeeps(s: Bytes, x: byte)
    requires x in s && x !in Strip(s)
    ensures IsSpace(x)
  {
    if s != [] {
      if IsSpace(s[0]) {
        if x != s[0] { assert s == [s[0]] + s[1..]; StripKeeps(s[1..], x); }
      } else if IsSpace(s[|s| - 1]) {
        if x != s[|s| - 1] { assert s == s[..|s| - 1] + [s[|s| - 1]]; StripKeeps(s[..|s| - 1], x); }
      }
    }
  }

  lemma NumberBytes(s: Bytes, x: byte)
    requires Number(s).Some? && x in s && x !in Number(s).value.1
    ensures IsDigit(x)
  {
    var n := DigitCount(s);
    DigitCountIsDigits(s);
    assert s == s[..n] + s[n..];
    assert x in s[..n];
  }

  lemma AfterDotBytes(s: Bytes, x: byte)
    requires AfterDot(s).Some? && x in s && x !in AfterDot(s).value.1
    ensures IsDigit(x) || x == DOT
  {
    if x != s[0] {
      assert s == [s[0]] + s[1..];
      NumberBytes(s[1..], x);
    }
  }

  lemma ParsedBytes(v: Bytes, x: byte)
    requires Parse(v).Some? && x in v
    ensures IsDigit(x) || x == DOT || (IsSpace(x) && x !in Strip(v))
  {
    hide Number, AfterDot, Strip, IsSpace;
    var s := Strip(v);
    if x !in s {
      StripKeeps(v, x);
    } else if x !in Number(s).value.1 {
      NumberBytes(s, x);
    } else if x !in AfterDot(Number(s).value.1).value.1 {
      AfterDotBytes(Number(s).value.1, x);
    } else {
      AfterDotBytes(AfterDot(Number(s).value.1).value.1, x);
    }
  }

  /** What Resolve yields can stand in a declaration, if the request is one line. */
  lemma ResolvedBytes(current: Bytes, requested: Bytes)
    requires Resolve(current, requested).Some?
    ensures var next := Resolve(current, requested).value;
            && next != [] && Parse(next).Some? && (Unbroken(requested) ==> Unbroken(next))
            && (forall x :: x in next ==> IsDigit(x) || x == DOT || IsSpace(x))
            && (Trimmed(next) ==> forall x :: x in next ==> IsDigit(x) || x == DOT)
  {
    var next := Resolve(current, requested).value;
    if Bumped(Parse(current).value, requested).Some? {
      var w := Bumped(Parse(current).value, requested).value;
      ParseInvertsPrint(w);
      PrintedBytes(w);
    }
    StripIsTrimmed(next);
    assert Parse(next).Some? && next != [];
    hide Parse, Resolve, Strip, IsSpace, Bumped, Print;
    forall x | x in next
      ensures (IsDigit(x) || x == DOT || IsSpace(x)) && (Trimmed(next) ==> IsDigit(x) || x == DOT)
    {
      ParsedBytes(next, x);
    }
  }
}
