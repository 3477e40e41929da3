/** Line splitting as bytes.splitlines does it, and what cutting the input into
    chunks does to the lines. */
module LineSplit {
  import opened Bytes

  const LF: byte := 10
  const CR: byte := 13

  predicate Terminated(s: Bytes) {
    s != [] && (s[|s| - 1] == LF || s[|s| - 1] == CR)
  }

  predicate Unbroken(s: Bytes) {
    LF !in s && CR !in s
  }

  /** The length of the first line, with its terminator LF, CR or CR LF. */
  function FirstLine(s: Bytes): (n: nat)
    requires s != []
    ensures 0 < n <= |s|
  {
    if s[0] == LF then 1
    else if s[0] == CR then (if |s| > 1 && s[1] == LF then 2 else 1)
    else if |s| == 1 then 1
    else 1 + FirstLine(s[1..])
  }

  /** data.splitlines(keepends=True) */
  function SplitLines(s: Bytes): (lines: seq<Bytes>)
    ensures s == [] <==> lines == []
  {
    if s == [] then [] else [s[..FirstLine(s)]] + SplitLines(s[FirstLine(s)..])
  }

  function Flat(lines: seq<Bytes>): Bytes {
    if lines == [] then [] else lines[0] + Flat(lines[1..])
  }

  lemma FlatCons(line: Bytes, rest: seq<Bytes>)
    ensures Flat([]) == [] && Flat([line] + rest) == line + Flat(rest)
  {
    assert ([line] + rest)[1..] == rest;
  }

  lemma {:induction false} FlatAppend(a: seq<Bytes>, b: seq<Bytes>)
    ensures Flat(a + b) == Flat(a) + Flat(b)
  {
    hide Flat;
    if a == [] {
      FlatCons([], []);
      assert a + b == b;
    } else {
      var line, rest := a[0], a[1..];
      FlatAppend(rest, b);
      FlatCons(line, rest);
      FlatCons(line, rest + b);
      assert a == [line] + rest && a + b == [line] + (rest + b);
    }
  }

  lemma FlatOne(line: Bytes)
    ensures Flat([line]) == line
  {
    assert Flat([line]) == line + Flat([]);
  }

  /** No byte is lost or invented. */
  lemma {:induction false} LinesAreTheInput(s: Bytes)
    ensures Flat(SplitLines(s)) == s
  {
    if s != [] {
      LinesAreTheInput(s[FirstLine(s)..]);
    }
  }

  /** A terminator stands only at the end of a line, and CR before LF only there. */
  predicate IsLine(l: Bytes) {
    && l != []
    && forall i :: 0 <= i < |l| - 1 ==> l[i] != LF && (l[i] == CR ==> i == |l| - 2 && l[|l| - 1] == LF)
  }

  lemma {:induction false} FirstLineIsLine(s: Bytes)
    requires s != []
    ensures IsLine(s[..FirstLine(s)])
    ensures FirstLine(s) < |s| ==> Terminated(s[..FirstLine(s)])
  {
    if s[0] != LF && s[0] != CR && |s| > 1 {
      FirstLineIsLine(s[1..]);
      var l, m := s[..FirstLine(s)], s[1..][..FirstLine(s[1..])];
      forall i | 0 <= i < |l| - 1 ensures l[i] != LF && (l[i] == CR ==> i == |l| - 2 && l[|l| - 1] == LF) {
        assert i > 0 ==> l[i] == m[i - 1];
      }
    }
  }

  lemma {:induction false} LinesAreLines(s: Bytes)
    ensures forall i :: 0 <= i < |SplitLines(s)| ==>
              IsLine(SplitLines(s)[i]) && (i < |SplitLines(s)| - 1 ==> Terminated(SplitLines(s)[i]))
  {
    if s != [] {
      var n := FirstLine(s);
      FirstLineIsLine(s);
      LinesAreLines(s[n..]);
      forall i | 0 <= i < |SplitLines(s)|
        ensures IsLine(SplitLines(s)[i]) && (i < |SplitLines(s)| - 1 ==> Terminated(SplitLines(s)[i]))
      {
        assert i > 0 ==> SplitLines(s)[i] == SplitLines(s[n..])[i - 1];
      }
    }
  }

  // ---- cutting the input ----

  /** The cut between a and b falls inside a CR LF pair. */
  predicate CutsPair(a: Bytes, b: Bytes) {
    a != [] && b != [] && a[|a| - 1] == CR && b[0] == LF
  }

  lemma {:induction false} FirstLineOfPrefix(a: Bytes, b: Bytes)
    requires a != []
    ensures FirstLine(a) < |a| || (Terminated(a) && !CutsPair(a, b)) ==> FirstLine(a + b) == FirstLine(a)
    ensures FirstLine(a) == |a| && CutsPair(a, b) ==> FirstLine(a + b) == |a| + 1
  {
    if a[0] != LF && a[0] != CR && |a| > 1 {
      FirstLineOfPrefix(a[1..], b);
      assert (a + b)[1..] == a[1..] + b;
    } else if |a| == 1 && b != [] {
      assert (a + b)[1] == b[0];
    }
  }

  lemma SplitOff(line: Bytes, rest: Bytes)
    requires line != [] && FirstLine(line + rest) == |line|
    ensures SplitLines(line + rest) == [line] + SplitLines(rest)
  {
    var s := line + rest;
    assert s[..|line|] == line && s[|line|..] == rest;
  }

  lemma OneLine(line: Bytes)
    requires line != [] && FirstLine(line) == |line|
    ensures SplitLines(line) == [line]
  {
    assert line + [] == line;
    SplitOff(line, []);
  }

  /** A cut inside a pair makes two lines of one. */
  lemma CutLine(line: Bytes, b: Bytes)
    requires line != [] && FirstLine(line) == |line| && CutsPair(line, b)
    ensures |SplitLines(line + b)| == |SplitLines(b)|
  {
    FirstLineOfPrefix(line, b);
    assert (line + [LF]) + b[1..] == line + b && [LF] + b[1..] == b;
    SplitOff(line + [LF], b[1..]);
    SplitOff([LF], b[1..]);
  }

  /** The lines of a + b, when the first line of a is not all of it. */
  lemma SplitOffBoth(line: Bytes, rest: Bytes, b: Bytes)
    requires line != [] && FirstLine(line + rest) == |line| == FirstLine((line + rest) + b)
    ensures SplitLines(line + rest) == [line] + SplitLines(rest)
    ensures SplitLines((line + rest) + b) == [line] + SplitLines(rest + b)
  {
    hide FirstLine, SplitLines;
    SplitOff(line, rest);
    assert line + (rest + b) == (line + rest) + b;
    SplitOff(line, rest + b);
  }

  lemma AppendAssoc<T>(x: seq<T>, y: seq<T>, z: seq<T>)
    ensures x + (y + z) == (x + y) + z
  {
  }

  predicate CutCounted(a: Bytes, b: Bytes) {
    if CutsPair(a, b) then |SplitLines(a + b)| + 1 == |SplitLines(a)| + |SplitLines(b)|
    else SplitLines(a + b) == SplitLines(a) + SplitLines(b)
  }

  lemma CountedFurther(line: Bytes, rest: Bytes, b: Bytes)
    requires line != [] && FirstLine(line + rest) == |line| == FirstLine((line + rest) + b)
    requires CutCounted(rest, b) && CutsPair(rest, b) == CutsPair(line + rest, b)
    ensures CutCounted(line + rest, b)
  {
    hide SplitLines, FirstLine, CutsPair;
    SplitOffBoth(line, rest, b);
    AppendAssoc([line], SplitLines(rest), SplitLines(b));
  }

  /** A cut after a terminator leaves the lines as they are, unless it falls
      inside a CR LF pair: then there is exactly one line more. */
  lemma {:induction false} SplitAfterTerminator(a: Bytes, b: Bytes)
    requires a == [] || Terminated(a)
    ensures CutCounted(a, b)
    decreases |a|
  {
    if a == [] {
      assert a + b == b;
    } else {
      FirstLineOfPrefix(a, b);
      if FirstLine(a) < |a| {
        var line, rest := a[..FirstLine(a)], a[FirstLine(a)..];
        assert CutsPair(rest, b) == CutsPair(a, b) && Terminated(rest);
        SplitAfterTerminator(rest, b);
        assert line + rest == a;
        hide *;
        CountedFurther(line, rest, b);
      } else {
        SplitWhole(a, b);
      }
    }
  }

  lemma SplitWhole(a: Bytes, b: Bytes)
    requires Terminated(a) && FirstLine(a) == |a|
    ensures CutCounted(a, b)
  {
    OneLine(a);
    FirstLineOfPrefix(a, b);
    hide SplitLines, FirstLine, Terminated;
    if CutsPair(a, b) {
      CutLine(a, b);
    } else {
      SplitOff(a, b);
    }
  }

  lemma {:induction false} UnbrokenIsOneLine(s: Bytes)
    requires Unbroken(s) && s != []
    ensures SplitLines(s) == [s]
  {
    UnbrokenFirstLine(s);
    OneLine(s);
  }

  lemma {:induction false} UnbrokenFirstLine(s: Bytes)
    requires Unbroken(s) && s != []
    ensures FirstLine(s) == |s|
  {
    if |s| > 1 {
      UnbrokenFirstLine(s[1..]);
    }
  }

  /** The cut at m leaves whole lines before it and no line break after it. */
  predicate CutAfterBreak(s: Bytes, m: nat)
    requires m <= |s|
  {
    (m == 0 || Terminated(s[..m])) && Unbroken(s[m..])
  }

  /** Where the unterminated rest of the input begins. */
  function LastBreak(s: Bytes): (m: nat)
    ensures m <= |s| && CutAfterBreak(s, m)
  {
    if s == [] || Terminated(s) then |s| else LastBreak(s[..|s| - 1])
  }

  lemma LinesAndRest(s: Bytes)
    ensures SplitLines(s) == SplitLines(s[..LastBreak(s)]) + (if LastBreak(s) < |s| then [s[LastBreak(s)..]] else [])
  {
    var m := LastBreak(s);
    assert s == s[..m] + s[m..];
    SplitAfterTerminator(s[..m], s[m..]);
    if m < |s| {
      UnbrokenIsOneLine(s[m..]);
    }
  }

  /** The same with the bytes spelled out: no line is empty, LF stands only at the end
      of a line, CR only there or before that LF, and every line but the last has one. */
  lemma LinesSpelledOut(s: Bytes, k: nat)
    requires k < |SplitLines(s)|
    ensures var l := SplitLines(s)[k];
            && l != []
            && (forall i :: 0 <= i < |l| - 1 ==> l[i] != 10 && (l[i] == 13 ==> i == |l| - 2 && l[|l| - 1] == 10))
            && (k < |SplitLines(s)| - 1 ==> l[|l| - 1] == 10 || l[|l| - 1] == 13)
  {
    LinesAreLines(s);
  }
}
