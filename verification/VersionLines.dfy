/** Lines of a TOML file: their bodies and endings, and replacing a body. */
module VersionLines {
  import opened Bytes
  import opened LineSplit

  predicate IsSpace(b: byte) { 9 <= b <= 13 || b == 32 || 28 <= b <= 31 }

  /** str.strip() */
  function Strip(s: Bytes): Bytes {
    if s == [] then s
    else if IsSpace(s[0]) then Strip(s[1..])
    else if IsSpace(s[|s| - 1]) then Strip(s[..|s| - 1])
    else s
  }

  predicate Trimmed(s: Bytes) { s == [] || (!IsSpace(s[0]) && !IsSpace(s[|s| - 1])) }

  lemma {:induction false} StripIsTrimmed(s: Bytes)
    ensures Trimmed(Strip(s)) && (Trimmed(s) <==> Strip(s) == s) && |Strip(s)| <= |s|
  {
    if s != [] {
      if IsSpace(s[0]) {
        StripIsTrimmed(s[1..]);
      } else if IsSpace(s[|s| - 1]) {
        StripIsTrimmed(s[..|s| - 1]);
      }
    }
  }

  lemma {:induction false} StripAfterSpaces(s: Bytes, space: Bytes)
    requires Trimmed(s) && forall i :: 0 <= i < |space| ==> IsSpace(space[i])
    ensures Strip(s + space) == s
  {
    if space == [] {
      assert s + space == s;
      StripIsTrimmed(s);
    } else if s == [] {
      assert s + space == space;
      StripAfterSpaces([], space[1..]);
      assert [] + space[1..] == space[1..];
    } else {
      var n := |space| - 1;
      StripAfterSpaces(s, space[..n]);
      assert (s + space)[..|s + space| - 1] == s + space[..n];
    }
  }

  /** line.rstrip("\r\n") */
  function Body(line: Bytes): (b: Bytes)
    ensures b <= line
  {
    if line != [] && (line[|line| - 1] == LF || line[|line| - 1] == CR) then Body(line[..|line| - 1]) else line
  }

  function Ending(line: Bytes): Bytes { line[|Body(line)|..] }

  predicate AllBreaks(s: Bytes) { forall i :: 0 <= i < |s| ==> s[i] == LF || s[i] == CR }

  lemma {:induction false} BodyParts(line: Bytes)
    ensures line == Body(line) + Ending(line) && AllBreaks(Ending(line))
    ensures Body(line) == [] || !Terminated(Body(line))
  {
    if line != [] && (line[|line| - 1] == LF || line[|line| - 1] == CR) {
      BodyParts(line[..|line| - 1]);
      assert Ending(line) == Ending(line[..|line| - 1]) + [line[|line| - 1]];
    }
  }

  lemma {:induction false} BodyOf(b: Bytes, ending: Bytes)
    requires AllBreaks(ending) && (b == [] || !Terminated(b))
    ensures Body(b + ending) == b && Ending(b + ending) == ending
  {
    if ending == [] {
      assert b + ending == b;
    } else {
      var n := |ending| - 1;
      BodyOf(b, ending[..n]);
      assert (b + ending)[..|b + ending| - 1] == b + ending[..n];
    }
    assert (b + ending)[|b|..] == ending;
  }

  // ---- reading a file as text ----

  /** path.read_text(): CR LF and CR are read as LF. */
  function ReadText(raw: Bytes): Bytes {
    if raw == [] then []
    else if raw[0] != CR then [raw[0]] + ReadText(raw[1..])
    else if |raw| > 1 && raw[1] == LF then [LF] + ReadText(raw[2..])
    else [LF] + ReadText(raw[1..])
  }

  lemma {:induction false} ReadHasNoCr(raw: Bytes)
    ensures CR !in ReadText(raw)
  {
    if raw != [] {
      ReadHasNoCr(raw[1..]);
      if |raw| > 1 { ReadHasNoCr(raw[2..]); }
    }
  }

  /** Exactly the files without CR are read as they are. */
  lemma {:induction false} ReadsAsItIs(raw: Bytes)
    ensures ReadText(raw) == raw <==> CR !in raw
  {
    ReadHasNoCr(raw);
    if raw != [] && CR !in raw {
      assert raw == [raw[0]] + raw[1..];
      ReadsAsItIs(raw[1..]);
    }
  }

  lemma {:induction false} FlatBytes(lines: seq<Bytes>, x: byte)
    requires forall i :: 0 <= i < |lines| ==> x !in lines[i]
    ensures x !in Flat(lines)
  {
    if lines != [] {
      FlatBytes(lines[1..], x);
    }
  }

  /** A line holds only bytes of the text. */
  lemma {:induction false} LineBytes(text: Bytes, i: nat, x: byte)
    requires i < |SplitLines(text)| && x !in text
    ensures x !in SplitLines(text)[i]
  {
    var n := FirstLine(text);
    assert text == text[..n] + text[n..];
    if i > 0 {
      LineBytes(text[n..], i - 1, x);
    }
  }

  // ---- lists of lines that are the lines of their text ----

  ghost predicate Proper(lines: seq<Bytes>) {
    lines == [] || (lines[0] != [] && FirstLine(lines[0] + Flat(lines[1..])) == |lines[0]| && Proper(lines[1..]))
  }

  lemma {:induction false} SplitIsProper(s: Bytes)
    ensures Proper(SplitLines(s))
  {
    if s != [] {
      var n := FirstLine(s);
      SplitIsProper(s[n..]);
      LinesAreTheInput(s[n..]);
      assert s[..n] + s[n..] == s;
      assert SplitLines(s)[1..] == SplitLines(s[n..]);
    }
  }

  /** Splitting the text of a proper list gives the list back. */
  lemma {:induction false} ProperSplits(lines: seq<Bytes>)
    requires Proper(lines)
    ensures SplitLines(Flat(lines)) == lines
  {
    if lines != [] {
      ProperSplits(lines[1..]);
      SplitOff(lines[0], Flat(lines[1..]));
      assert [lines[0]] + lines[1..] == lines;
    }
  }

  lemma {:induction false} FirstLineSkips(body: Bytes, rest: Bytes)
    requires Unbroken(body) && rest != []
    ensures FirstLine(body + rest) == |body| + FirstLine(rest)
  {
    if body == [] {
      assert body + rest == rest;
    } else {
      assert body[0] in body && forall b :: b in body[1..] ==> b in body;
      FirstLineSkips(body[1..], rest);
      assert (body + rest)[1..] == body[1..] + rest;
    }
  }

  /** Where a line ends depends only on what begins right after it. */
  lemma {:induction false} FirstLineStable(line: Bytes, x: Bytes, y: Bytes)
    requires line != [] && FirstLine(line + x) == |line|
    requires (x == [] <==> y == []) && (x != [] ==> x[0] == y[0])
    ensures FirstLine(line + y) == |line|
  {
    if line[0] != LF && line[0] != CR && |line| > 1 {
      assert (line + x)[1..] == line[1..] + x && (line + y)[1..] == line[1..] + y;
      FirstLineStable(line[1..], x, y);
    } else if |line| == 1 && x != [] {
      assert (line + x)[1] == x[0] && (line + y)[1] == y[0];
    }
  }

  lemma FlatNonEmpty(lines: seq<Bytes>)
    requires Proper(lines)
    ensures Flat(lines) == [] <==> lines == []
    ensures lines != [] ==> Flat(lines)[0] == lines[0][0]
  {
  }

  /** Replacing a non-empty unbroken body, keeping its first byte and the line's
      ending, keeps a list proper. */
  lemma {:induction false} ReplaceKeepsProper(lines: seq<Bytes>, k: nat, line: Bytes)
    requires Proper(lines) && k < |lines|
    requires Unbroken(Body(lines[k])) && Unbroken(Body(line)) && Body(lines[k]) != [] && Body(line) != []
    requires Body(line)[0] == Body(lines[k])[0] && Ending(line) == Ending(lines[k])
    ensures Proper(lines[k := line])
    decreases k
  {
    var changed := lines[k := line];
    if k == 0 {
      var rest := Flat(lines[1..]);
      BodyParts(line);
      BodyParts(lines[0]);
      BodyEnds(Body(lines[0]), Body(line), Ending(line), rest);
      assert changed[1..] == lines[1..];
    } else {
      ReplaceKeepsProper(lines[1..], k - 1, line);
      assert changed[1..] == lines[1..][k - 1 := line];
      FlatNonEmpty(lines[1..]);
      FlatNonEmpty(changed[1..]);
      BodyParts(line);
      BodyParts(lines[k]);
      assert changed[1..][0][0] == lines[1..][0][0];
      FirstLineStable(lines[0], Flat(lines[1..]), Flat(changed[1..]));
    }
  }

  lemma BodyEnds(was: Bytes, body: Bytes, ending: Bytes, rest: Bytes)
    requires Unbroken(was) && Unbroken(body) && was != [] && body != []
    requires FirstLine((was + ending) + rest) == |was + ending|
    ensures FirstLine((body + ending) + rest) == |body + ending|
  {
    var tail := ending + rest;
    assert (was + ending) + rest == was + tail && (body + ending) + rest == body + tail;
    if tail == [] {
      assert was + tail == was && body + tail == body;
      UnbrokenFirstLine(body);
    } else {
      FirstLineSkips(was, tail);
      FirstLineSkips(body, tail);
    }
  }
}
