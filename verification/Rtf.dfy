/** The licence text as RTF: escaping, and a reader that undoes it. */
module Rtf {
  import opened Bytes
  import opened Decimals
  import opened Utf16
  import opened Wrappers

  const LF: byte := 10
  const CR: byte := 13
  const BACKSLASH: byte := 92
  const OPEN: byte := 123
  const CLOSE: byte := 125
  const QUESTION: byte := 63
  const MINUS: byte := 45
  const LETTER_U: byte := 117
  const PAR: Bytes := [BACKSLASH, 112, 97, 114, LF]   // \par and a line feed

  // ---- decimal numbers ----

  /** The number at the front of b, and what follows its digits. */
  function ReadNumber(b: Bytes, acc: nat): (nat, Bytes) {
    if b != [] && IsDigit(b[0]) then ReadNumber(b[1..], acc * 10 + (b[0] as int - 48)) else (acc, b)
  }

  lemma {:induction false} ReadDigits(d: Bytes, rest: Bytes, acc: nat)
    requires AllDigits(d)
    ensures ReadNumber(d + rest, acc) == ReadNumber(rest, Value(d, acc))
  {
    if d == [] {
      assert d + rest == rest;
    } else {
      var n := |d| - 1;
      assert d + rest == d[..n] + ([d[n]] + rest);
      ReadDigits(d[..n], [d[n]] + rest, acc);
      assert ([d[n]] + rest)[1..] == rest;
    }
  }

  lemma ReadDecimal(n: nat, rest: Bytes)
    requires rest != [] && !IsDigit(rest[0])
    ensures ReadNumber(Decimal(n) + rest, 0) == (n, rest)
  {
    ReadDigits(Decimal(n), rest, 0);
    DecimalValue(n);
  }

  // ---- escaping ----

  function Signed(u: Unit): int { if u >= 0x8000 then u - 0x10000 else u }

  function Number(n: int): Bytes { if n < 0 then [MINUS] + Decimal(-n) else Decimal(n) }

  function EscapeUnit(u: Unit): Bytes {
    if u == BACKSLASH || u == OPEN || u == CLOSE then [BACKSLASH, u]
    else if u < 128 then [u]
    else [BACKSLASH, LETTER_U] + Number(Signed(u)) + [QUESTION]
  }

  function EscapeUnits(u: seq<Unit>): Bytes {
    if u == [] then [] else EscapeUnit(u[0]) + EscapeUnits(u[1..])
  }

  /** Every number written lies in the range of a signed 16-bit integer. */
  lemma SignedRange(u: Unit)
    ensures -32768 <= Signed(u) <= 32767 && (Signed(u) + 0x10000) % 0x10000 == u
  {
  }

  // ---- the reader ----

  function Prepend(u: seq<Unit>, rest: Option<seq<Unit>>): Option<seq<Unit>> {
    if rest == None then None else Some(u + rest.value)
  }

  /** Reads to the brace that closes the document; None for anything malformed. */
  function Read(b: Bytes): Option<seq<Unit>>
    decreases |b|
  {
    if b == [] || b[0] == OPEN then None
    else if b[0] == CLOSE then (if b[1..] == [LF] then Some([]) else None)
    else if b[0] == LF then Read(b[1..])
    else if b[0] != BACKSLASH then (if b[0] < 128 then Prepend([b[0]], Read(b[1..])) else None)
    else if |b| < 2 then None
    else if b[1] == BACKSLASH || b[1] == OPEN || b[1] == CLOSE then Prepend([b[1]], Read(b[2..]))
    else if PAR <= b then Prepend([LF], Read(b[|PAR|..]))
    else if b[1] == LETTER_U then ReadEscape(b[2..])
    else None
  }

  /** N? after \u */
  function ReadEscape(b: Bytes): Option<seq<Unit>>
    decreases |b|, 1
  {
    var negative := b != [] && b[0] == MINUS;
    var digits := if negative then b[1..] else b;
    var (n, rest) := ReadNumber(digits, 0);
    ReadShrinks(digits, 0);
    if rest == digits || rest == [] || rest[0] != QUESTION || n > 0x8000 then None
    else Prepend([if negative then (0x10000 - n) % 0x10000 else n], Read(rest[1..]))
  }

  lemma {:induction false} ReadShrinks(b: Bytes, acc: nat)
    ensures |ReadNumber(b, acc).1| <= |b|
  {
    if b != [] && IsDigit(b[0]) {
      ReadShrinks(b[1..], acc * 10 + (b[0] as int - 48));
    }
  }

  lemma ReadSimpleUnit(u: Unit, rest: Bytes)
    requires u < 128 && u != LF
    ensures Read(EscapeUnit(u) + rest) == Prepend([u], Read(rest))
  {
    assert (EscapeUnit(u) + rest)[|EscapeUnit(u)|..] == rest;
  }

  lemma ReadNumberedUnit(u: Unit, rest: Bytes)
    requires u >= 128
    ensures ReadEscape(Number(Signed(u)) + ([QUESTION] + rest)) == Prepend([u], Read(rest))
  {
    var tail := [QUESTION] + rest;
    var n: nat := if u >= 0x8000 then 0x10000 - u else u;
    var b := Number(Signed(u)) + tail;
    ReadDecimal(n, tail);
    NumberParts(u, tail);
    hide Read, Number, Decimal, ReadNumber;
    assert tail[1..] == rest;
  }

  lemma NumberParts(u: Unit, tail: Bytes)
    ensures var n, b := (if u >= 0x8000 then 0x10000 - u else u), Number(Signed(u)) + tail;
            && b != [] && Decimal(n) + tail != tail
            && (b[0] == MINUS <==> u >= 0x8000) && (if u >= 0x8000 then b[1..] else b) == Decimal(n) + tail
  {
    var n := if u >= 0x8000 then 0x10000 - u else u;
    assert IsDigit(Decimal(n)[0]);
    assert |Decimal(n) + tail| > |tail|;
  }

  lemma WideParts(u: Unit, rest: Bytes)
    requires u >= 128
    ensures EscapeUnit(u) + rest == [BACKSLASH, LETTER_U] + (Number(Signed(u)) + ([QUESTION] + rest))
  {
    hide Number;
  }

  lemma ReadUnit(u: Unit, rest: Bytes)
    requires u != LF
    ensures Read(EscapeUnit(u) + rest) == Prepend([u], Read(rest))
  {
    hide *;
    if u < 128 {
      ReadSimpleUnit(u, rest);
    } else {
      ReadNumberedUnit(u, rest);
      ReadIntroducer(Number(Signed(u)) + ([QUESTION] + rest));
      WideParts(u, rest);
    }
  }

  lemma ReadIntroducer(b: Bytes)
    ensures Read([BACKSLASH, LETTER_U] + b) == ReadEscape(b)
  {
    var c := [BACKSLASH, LETTER_U] + b;
    assert c[2..] == b && c[1] != PAR[1];
    hide ReadEscape;
  }

  lemma PrependNothing(u: seq<Unit>, rest: Option<seq<Unit>>)
    requires u == []
    ensures Prepend(u, rest) == rest
  {
    if rest != None {
      assert u + rest.value == rest.value;
    }
  }

  lemma {:induction false} ReadUnits(u: seq<Unit>, rest: Bytes)
    requires forall i :: 0 <= i < |u| ==> u[i] != LF
    ensures Read(EscapeUnits(u) + rest) == Prepend(u, Read(rest))
  {
    hide Read, EscapeUnit, Prepend;
    if u == [] {
      assert EscapeUnits(u) + rest == rest;
      PrependNothing(u, Read(rest));
    } else {
      ReadUnits(u[1..], rest);
      assert EscapeUnits(u) + rest == EscapeUnit(u[0]) + (EscapeUnits(u[1..]) + rest);
      ReadUnit(u[0], EscapeUnits(u[1..]) + rest);
      PrependTwice([u[0]], u[1..], Read(rest));
      assert [u[0]] + u[1..] == u;
    }
  }

  lemma ReadPar(rest: Bytes)
    ensures Read(PAR + rest) == Prepend([LF], Read(rest))
  {
    assert (PAR + rest)[|PAR|..] == rest;
  }

  // ---- lines ----

  function ReplacePairs(t: Text): Text {
    if |t| < 2 then t
    else if t[0] == CR && t[1] == LF then [LF] + ReplacePairs(t[2..])
    else [t[0]] + ReplacePairs(t[1..])
  }

  function ReplaceReturns(t: Text): (r: Text)
    ensures |r| == |t| && forall i :: 0 <= i < |t| ==> r[i] == if t[i] == CR then LF else t[i]
  {
    seq(|t|, i requires 0 <= i < |t| => if t[i] == CR then LF as Scalar else t[i])
  }

  function Normalized(t: Text): Text {
    var n := ReplaceReturns(ReplacePairs(t));
    if n != [] && n[|n| - 1] == LF then n[..|n| - 1] else n
  }

  lemma {:induction false} NothingToReplace(t: Text)
    requires CR !in t
    ensures ReplacePairs(t) == t
  {
    if |t| >= 2 {
      assert t[0] in t && forall c :: c in t[1..] ==> c in t;
      NothingToReplace(t[1..]);
    }
  }

  /** A text with LF lines and no final line feed is read back as it was. */
  lemma NormalTextKept(t: Text)
    requires CR !in t && (t == [] || t[|t| - 1] != LF)
    ensures Normalized(t) == t
  {
    NothingToReplace(t);
    assert forall i :: 0 <= i < |t| ==> t[i] in t;
    assert ReplaceReturns(t) == t;
  }

  /** split("\n") */
  function Split(t: Text): (lines: seq<Text>)
    ensures lines != [] && forall i :: 0 <= i < |lines| ==> LF !in lines[i]
  {
    if t == [] then [[]]
    else
      var rest := Split(t[1..]);
      if t[0] == LF then [[]] + rest else [[t[0]] + rest[0]] + rest[1..]
  }

  /** Each line with its line feed. */
  function Lines(lines: seq<Text>): Text {
    if lines == [] then [] else lines[0] + [LF] + Lines(lines[1..])
  }

  lemma {:induction false} LinesOfSplit(t: Text)
    ensures Lines(Split(t)) == t + [LF]
  {
    if t != [] {
      LinesOfSplit(t[1..]);
      var rest := Split(t[1..]);
      assert t == [t[0]] + t[1..];
      if t[0] == LF {
        assert ([[]] + rest)[1..] == rest;
      } else {
        assert ([[t[0]] + rest[0]] + rest[1..])[1..] == rest[1..];
        assert ([t[0]] + rest[0]) + [LF] + Lines(rest[1..]) == [t[0]] + (rest[0] + [LF] + Lines(rest[1..]));
      }
    } else {
      assert Lines([[]]) == [] + [LF] + Lines([]);
    }
  }

  // ---- the document ----

  const HEADER_A := "\\rtf1\\ansi\\ansicpg1252\\deff0"
  const HEADER_B := "\\fonttbl"
  const HEADER_C := "\\f0\\fnil\\fcharset0 Arial;"
  const HEADER_D := "\n\\pard\\f0\\fs16\n"
  const HEADER: Bytes :=
    [OPEN] + Ascii(HEADER_A) + [OPEN] + Ascii(HEADER_B) + [OPEN] + Ascii(HEADER_C) + [CLOSE, CLOSE] + Ascii(HEADER_D)
  const FOOTER: Bytes := [LF, CLOSE, LF]

  function Body(lines: seq<Text>): Bytes {
    if lines == [] then [] else EscapeUnits(Encode(lines[0])) + PAR + Body(lines[1..])
  }

  function Render(license: Text): Bytes {
    HEADER + Body(Split(Normalized(license))) + FOOTER
  }

  function ReadDocument(doc: Bytes): Option<Text> {
    if HEADER <= doc then
      var units := Read(doc[|HEADER|..]);
      if units == None then None else Utf16.Decode(units.value)
    else None
  }

  lemma {:induction false} EncodedLineHasNoBreak(line: Text)
    requires LF !in line
    ensures forall i :: 0 <= i < |Encode(line)| ==> Encode(line)[i] != LF
  {
    if line != [] {
      assert line[0] in line;
      assert forall c :: c in line[1..] ==> c in line;
      EncodedLineHasNoBreak(line[1..]);
    }
  }

  lemma ReadFooter()
    ensures Read(FOOTER) == Some([])
  {
    var closing: Bytes := [CLOSE, LF];
    assert FOOTER == [LF] + closing && FOOTER[1..] == closing && closing[1..] == [LF];
    assert Read(closing) == Some([]);
    assert FOOTER[0] == LF;
  }

  lemma ReadLine(line: Text, rest: Bytes)
    requires LF !in line
    ensures Read(EscapeUnits(Encode(line)) + (PAR + rest)) == Prepend(Encode(line + [LF]), Read(rest))
  {
    var units := Encode(line);
    EncodedLineHasNoBreak(line);
    EncodeAppend(line, [LF]);
    assert Encode([LF]) == [LF] + Encode([]) == [LF];
    hide *;
    ReadUnits(units, PAR + rest);
    ReadPar(rest);
    PrependTwice(units, [LF], Read(rest));
  }

  lemma PrependTwice(a: seq<Unit>, b: seq<Unit>, rest: Option<seq<Unit>>)
    ensures Prepend(a, Prepend(b, rest)) == Prepend(a + b, rest)
  {
    if rest.Some? {
      assert a + (b + rest.value) == (a + b) + rest.value;
    }
  }

  lemma BodyParts(lines: seq<Text>)
    requires lines != []
    ensures Body(lines) + FOOTER == EscapeUnits(Encode(lines[0])) + (PAR + (Body(lines[1..]) + FOOTER))
  {
    hide PAR, FOOTER, EscapeUnits, Encode;
  }

  lemma {:induction false} ReadBody(lines: seq<Text>)
    requires forall i :: 0 <= i < |lines| ==> LF !in lines[i]
    ensures Read(Body(lines) + FOOTER) == Some(Encode(Lines(lines)))
  {
    if lines == [] {
      assert Body(lines) + FOOTER == FOOTER;
      ReadFooter();
    } else {
      ReadBody(lines[1..]);
      var rest := Body(lines[1..]) + FOOTER;
      BodyParts(lines);
      EncodeAppend(lines[0] + [LF], Lines(lines[1..]));
      hide Read, EscapeUnits, Encode, PAR, Body, FOOTER;
      ReadLine(lines[0], rest);
    }
  }

  /** Reading a rendered licence gives back its newline-normalised text, each
      line of it ended by a line feed. */
  lemma ReadInvertsRender(license: Text)
    ensures ReadDocument(Render(license)) == Some(Normalized(license) + [LF])
  {
    var lines := Split(Normalized(license));
    ReadBody(lines);
    LinesOfSplit(Normalized(license));
    DecodeInvertsEncode(Normalized(license) + [LF]);
    assert Render(license) == HEADER + (Body(lines) + FOOTER);
    assert Render(license)[|HEADER|..] == Body(lines) + FOOTER;
  }

  /** Two licences render alike exactly when their normalised texts agree. */
  lemma RenderIdentifiesText(a: Text, b: Text)
    ensures Render(a) == Render(b) <==> Normalized(a) == Normalized(b)
  {
    ReadInvertsRender(a);
    ReadInvertsRender(b);
    if Render(a) == Render(b) {
      assert (Normalized(a) + [LF])[..|Normalized(a)|] == (Normalized(b) + [LF])[..|Normalized(b)|];
    }
  }

  // ---- ASCII, and balanced braces ----

  /** The depth of unescaped braces after b, or None once a brace closes nothing. */
  function Depth(b: Bytes, d: nat): Option<nat>
    decreases |b|
  {
    if b == [] then Some(d)
    else if b[0] == BACKSLASH && |b| > 1 then Depth(b[2..], d)
    else if b[0] == OPEN then Depth(b[1..], d + 1)
    else if b[0] == CLOSE then (if d == 0 then None else Depth(b[1..], d - 1))
    else Depth(b[1..], d)
  }

  predicate NoBrace(b: Bytes) { OPEN !in b && CLOSE !in b }

  /** A piece without braces, whose last byte is no backslash, keeps the depth. */
  lemma {:induction false} DepthKept(piece: Bytes, rest: Bytes, d: nat)
    requires NoBrace(piece) && (piece == [] || piece[|piece| - 1] != BACKSLASH)
    ensures Depth(piece + rest, d) == Depth(rest, d)
    decreases |piece|
  {
    if piece == [] {
      assert piece + rest == rest;
    } else {
      var n := if piece[0] == BACKSLASH then 2 else 1;
      assert piece[0] in piece && forall b :: b in piece[n..] ==> b in piece;
      DepthKept(piece[n..], rest, d);
      assert (piece + rest)[n..] == piece[n..] + rest;
    }
  }

  lemma DigitsPlain(n: int)
    ensures NoBrace(Number(n)) && BACKSLASH !in Number(n)
    ensures AllAscii(Number(n))
  {
  }

  lemma DepthOfUnit(u: Unit, rest: Bytes, d: nat)
    ensures Depth(EscapeUnit(u) + rest, d) == Depth(rest, d)
  {
    if u == BACKSLASH || u == OPEN || u == CLOSE {
      assert (EscapeUnit(u) + rest)[2..] == rest;
    } else {
      DigitsPlain(Signed(u));
      hide Number, Depth;
      DepthKept(EscapeUnit(u), rest, d);
    }
  }

  lemma {:induction false} DepthOfUnits(u: seq<Unit>, rest: Bytes, d: nat)
    ensures Depth(EscapeUnits(u) + rest, d) == Depth(rest, d)
  {
    if u == [] {
      assert EscapeUnits(u) + rest == rest;
    } else {
      assert EscapeUnits(u) + rest == EscapeUnit(u[0]) + (EscapeUnits(u[1..]) + rest);
      hide Depth, EscapeUnit;
      DepthOfUnit(u[0], EscapeUnits(u[1..]) + rest, d);
      DepthOfUnits(u[1..], rest, d);
    }
  }

  lemma {:induction false} DepthOfBody(lines: seq<Text>, rest: Bytes, d: nat)
    ensures Depth(Body(lines) + rest, d) == Depth(rest, d)
  {
    hide Depth, EscapeUnits, Encode, NoBrace;
    if lines == [] {
      assert Body(lines) + rest == rest;
    } else {
      var after := Body(lines[1..]) + rest;
      assert Body(lines) + rest == EscapeUnits(Encode(lines[0])) + (PAR + after);
      ParIsPlain();
      DepthOfUnits(Encode(lines[0]), PAR + after, d);
      DepthKept(PAR, after, d);
      DepthOfBody(lines[1..], rest, d);
    }
  }

  lemma ParIsPlain()
    ensures NoBrace(PAR) && PAR != [] && PAR[|PAR| - 1] != BACKSLASH
  {
  }

  predicate PlainPiece(h: string) {
    h != "" && h[|h| - 1] != '\\' && forall c :: c in h ==> c != '{' && c != '}' && c as int < 128
  }

  predicate AllAscii(b: Bytes) { forall x :: x in b ==> x < 128 }

  lemma PlainPieceAscii(h: string)
    requires PlainPiece(h)
    ensures NoBrace(Ascii(h)) && Ascii(h)[|Ascii(h)| - 1] != BACKSLASH && AllAscii(Ascii(h))
  {
    assert forall i :: 0 <= i < |h| ==> h[i] in h;
  }

  lemma HeaderPieces()
    ensures PlainPiece(HEADER_A) && PlainPiece(HEADER_B) && PlainPiece(HEADER_C) && PlainPiece(HEADER_D)
  {
    LongestPiece();
  }

  lemma LongestPiece()
    ensures PlainPiece(HEADER_A)
  {
  }

  lemma DepthOfHeader(rest: Bytes)
    ensures Depth(HEADER + rest, 0) == Depth(rest, 1)
  {
    HeaderPieces();
    PlainPieceAscii(HEADER_A);
    PlainPieceAscii(HEADER_B);
    PlainPieceAscii(HEADER_C);
    PlainPieceAscii(HEADER_D);
    var a, b, c, d := Ascii(HEADER_A), Ascii(HEADER_B), Ascii(HEADER_C), Ascii(HEADER_D);
    var r3 := d + rest;
    var r2 := c + ([CLOSE, CLOSE] + r3);
    var r1 := b + ([OPEN] + r2);
    assert HEADER + rest == [OPEN] + (a + ([OPEN] + r1));
    DepthKept(a, [OPEN] + r1, 1);
    DepthKept(b, [OPEN] + r2, 2);
    DepthKept(c, [CLOSE, CLOSE] + r3, 3);
    DepthKept(d, rest, 1);
    OpenBrace(a + ([OPEN] + r1), 0);
    OpenBrace(r1, 1);
    OpenBrace(r2, 2);
    CloseBraces(r3);
  }

  lemma OpenBrace(rest: Bytes, d: nat)
    ensures Depth([OPEN] + rest, d) == Depth(rest, d + 1)
  {
    assert ([OPEN] + rest)[1..] == rest;
  }

  lemma CloseBraces(rest: Bytes)
    ensures Depth([CLOSE, CLOSE] + rest, 3) == Depth(rest, 1)
  {
    var b := [CLOSE, CLOSE] + rest;
    assert b[1..][1..] == rest;
  }

  /** The document is ASCII, and its unescaped braces balance. */
  lemma RenderIsBalancedAscii(license: Text)
    ensures Depth(Render(license), 0) == Some(0)
    ensures AllAscii(Render(license))
  {
    var lines := Split(Normalized(license));
    assert Render(license) == HEADER + (Body(lines) + FOOTER);
    FooterDepth();
    BodyIsAscii(lines);
    HeaderIsAscii();
    hide Depth, Body, HEADER, AllAscii;
    AsciiAppend(Body(lines), FOOTER);
    AsciiAppend(HEADER, Body(lines) + FOOTER);
    DepthOfHeader(Body(lines) + FOOTER);
    DepthOfBody(lines, FOOTER, 1);
  }

  lemma FooterDepth()
    ensures Depth(FOOTER, 1) == Some(0) && AllAscii(FOOTER)
  {
    var closing: Bytes, last: Bytes := [CLOSE, LF], [LF];
    assert FOOTER == [LF] + closing && FOOTER[1..] == closing && closing[1..] == last && last[1..] == [];
    assert Depth(last, 0) == Depth([], 0) == Some(0);
    assert Depth(closing, 1) == Depth(last, 0);
    assert AllAscii(FOOTER);
  }

  lemma AsciiAppend(a: Bytes, b: Bytes)
    requires AllAscii(a) && AllAscii(b)
    ensures AllAscii(a + b)
  {
  }

  lemma HeaderIsAscii()
    ensures AllAscii(HEADER)
  {
    HeaderPieces();
    PlainPieceAscii(HEADER_A);
    PlainPieceAscii(HEADER_B);
    PlainPieceAscii(HEADER_C);
    PlainPieceAscii(HEADER_D);
    var a, b, c, d := Ascii(HEADER_A), Ascii(HEADER_B), Ascii(HEADER_C), Ascii(HEADER_D);
    assert HEADER == [OPEN] + a + [OPEN] + b + [OPEN] + c + [CLOSE, CLOSE] + d;
    assert AllAscii([OPEN]) && AllAscii([CLOSE, CLOSE]);
    hide *;
    AsciiAppend([OPEN], a);
    AsciiAppend([OPEN] + a, [OPEN]);
    AsciiAppend([OPEN] + a + [OPEN], b);
    AsciiAppend([OPEN] + a + [OPEN] + b, [OPEN]);
    AsciiAppend([OPEN] + a + [OPEN] + b + [OPEN], c);
    AsciiAppend([OPEN] + a + [OPEN] + b + [OPEN] + c, [CLOSE, CLOSE]);
    AsciiAppend([OPEN] + a + [OPEN] + b + [OPEN] + c + [CLOSE, CLOSE], d);
  }

  lemma {:induction false} UnitsAreAscii(u: seq<Unit>)
    ensures AllAscii(EscapeUnits(u))
  {
    if u != [] {
      UnitsAreAscii(u[1..]);
      DigitsPlain(Signed(u[0]));
      AsciiAppend(EscapeUnit(u[0]), EscapeUnits(u[1..]));
    }
  }

  lemma {:induction false} BodyIsAscii(lines: seq<Text>)
    ensures AllAscii(Body(lines))
  {
    if lines != [] {
      UnitsAreAscii(Encode(lines[0]));
      BodyIsAscii(lines[1..]);
      hide EscapeUnits, Encode;
      AsciiAppend(EscapeUnits(Encode(lines[0])), PAR);
      AsciiAppend(EscapeUnits(Encode(lines[0])) + PAR, Body(lines[1..]));
    }
  }

  // ---- _rtf_escape_line and render_license_rtf ----

  method EscapeLine(line: Text) returns (out: Bytes)
    ensures out == EscapeUnits(Encode(line))
  {
    var parts: seq<Bytes> := [];
    var i := 0;
    assert Concat([]) == EscapeUnits(Encode(line[..0]));
    hide *;
    while i < |line|
      invariant i <= |line|
      invariant Concat(parts) == EscapeUnits(Encode(line[..i]))
    {
      var more := EscapeChar(line[i]);
      ConcatAppend(parts, more);
      NextChar(line, i, more);
      parts := parts + more;
      i := i + 1;
    }
    assert line[..i] == line;
    out := Concat(parts);
  }

  method EscapeChar(c: Scalar) returns (more: seq<Bytes>)
    ensures Concat(more) == EscapeUnits(UnitsOf(c))
  {
    if c == BACKSLASH || c == OPEN || c == CLOSE {
      more := [[BACKSLASH, c]];
    } else if c < 128 {
      more := [[c]];
    } else {
      more := EscapeWide(c);
    }
  }

  function Concat(parts: seq<Bytes>): Bytes {
    if parts == [] then [] else parts[0] + Concat(parts[1..])
  }

  lemma ConcatFirst(x: Bytes, rest: seq<Bytes>)
    ensures Concat([x] + rest) == x + Concat(rest)
  {
    assert ([x] + rest)[1..] == rest;
  }

  lemma {:induction false} ConcatAppend(a: seq<Bytes>, b: seq<Bytes>)
    ensures Concat(a + b) == Concat(a) + Concat(b)
  {
    if a == [] {
      assert a + b == b;
    } else {
      ConcatAppend(a[1..], b);
      ConcatAppendNext(a[0], a[1..], b);
      hide *;
      assert [a[0]] + a[1..] == a && [a[0]] + (a[1..] + b) == a + b;
    }
  }

  lemma ConcatAppendNext(x: Bytes, a: seq<Bytes>, b: seq<Bytes>)
    requires Concat(a + b) == Concat(a) + Concat(b)
    ensures Concat([x] + (a + b)) == Concat([x] + a) + Concat(b)
  {
    hide *;
    ConcatFirst(x, a);
    ConcatFirst(x, a + b);
    AppendAssoc(x, Concat(a), Concat(b));
  }

  lemma EscapeFirst(u: Unit, rest: seq<Unit>)
    ensures EscapeUnits([u] + rest) == EscapeUnit(u) + EscapeUnits(rest)
  {
    assert ([u] + rest)[1..] == rest;
    hide EscapeUnit;
  }

  lemma AppendAssoc<T>(x: seq<T>, y: seq<T>, z: seq<T>)
    ensures x + (y + z) == (x + y) + z
  {
  }

  lemma EscapeAppendNext(u: Unit, a: seq<Unit>, b: seq<Unit>)
    requires EscapeUnits(a + b) == EscapeUnits(a) + EscapeUnits(b)
    ensures EscapeUnits([u] + (a + b)) == EscapeUnits([u] + a) + EscapeUnits(b)
  {
    hide *;
    EscapeFirst(u, a);
    EscapeFirst(u, a + b);
    AppendAssoc(EscapeUnit(u), EscapeUnits(a), EscapeUnits(b));
  }

  lemma EscapeNothing(b: seq<Unit>)
    ensures EscapeUnits([] + b) == EscapeUnits([]) + EscapeUnits(b)
  {
    assert [] + b == b;
  }

  lemma {:induction false} EscapeAppend(a: seq<Unit>, b: seq<Unit>)
    ensures EscapeUnits(a + b) == EscapeUnits(a) + EscapeUnits(b)
  {
    hide *;
    if a == [] {
      EscapeNothing(b);
    } else {
      EscapeAppend(a[1..], b);
      EscapeAppendNext(a[0], a[1..], b);
      Rejoin(a, b);
    }
  }

  lemma Rejoin(a: seq<Unit>, b: seq<Unit>)
    requires a != []
    ensures [a[0]] + a[1..] == a && [a[0]] + (a[1..] + b) == a + b
  {
  }

  lemma NextChar(line: Text, i: nat, more: seq<Bytes>)
    requires i < |line| && Concat(more) == EscapeUnits(UnitsOf(line[i]))
    ensures EscapeUnits(Encode(line[..i + 1])) == EscapeUnits(Encode(line[..i])) + Concat(more)
  {
    assert line[..i + 1] == line[..i] + [line[i]];
    EncodeAppend(line[..i], [line[i]]);
    assert Encode([line[i]]) == UnitsOf(line[i]) + Encode([]) == UnitsOf(line[i]);
    EscapeAppend(Encode(line[..i]), UnitsOf(line[i]));
  }

  lemma ConcatSnoc(parts: seq<Bytes>, part: Bytes)
    ensures Concat(parts + [part]) == Concat(parts) + part
  {
    ConcatAppend(parts, [part]);
    assert Concat([part]) == part + Concat([]) == part;
  }

  lemma EscapeSnoc(units: seq<Unit>, u: Unit)
    ensures EscapeUnits(units + [u]) == EscapeUnits(units) + EscapeUnit(u)
  {
    EscapeAppend(units, [u]);
    hide EscapeUnit;
    assert EscapeUnits([u]) == EscapeUnit(u) + EscapeUnits([]) == EscapeUnit(u);
  }

  lemma NextUnit(units: seq<Unit>, k: nat, parts: seq<Bytes>, part: Bytes)
    requires k < |units| && part == EscapeUnit(units[k])
    requires Concat(parts) == EscapeUnits(units[..k])
    ensures Concat(parts + [part]) == EscapeUnits(units[..k + 1])
  {
    hide *;
    ConcatSnoc(parts, part);
    EscapeSnoc(units[..k], units[k]);
    assert units[..k + 1] == units[..k] + [units[k]];
  }

  lemma WideUnits(c: Scalar)
    requires c >= 128
    ensures UnitsOf(c)[0] >= 128 && (|UnitsOf(c)| == 2 ==> UnitsOf(c)[1] >= 128)
  {
  }

  method EscapePair(low: byte, high: byte) returns (part: Bytes)
    ensures Pair(low, high) >= 128 ==> part == EscapeUnit(Pair(low, high))
  {
    var unit := low as int + 256 * high as int;
    var signed := if unit >= 0x8000 then unit - 0x10000 else unit;
    part := [BACKSLASH, LETTER_U] + Number(signed) + [QUESTION];
  }

  /** A character outside ASCII, from its UTF-16-LE bytes two at a time. */
  method EscapeWide(c: Scalar) returns (parts: seq<Bytes>)
    requires c >= 128
    ensures Concat(parts) == EscapeUnits(UnitsOf(c))
  {
    ghost var units := UnitsOf(c);
    var encoded := LittleEndian(UnitsOf(c));
    parts := [];
    var offset := 0;
    ghost var k := 0;
    assert Concat([]) == EscapeUnits(units[..0]);
    WideUnits(c);
    hide *;
    while offset < |encoded|
      invariant offset == 2 * k && k <= |units|
      invariant Concat(parts) == EscapeUnits(units[..k])
    {
      var part := EscapePair(encoded[offset], encoded[offset + 1]);
      PairIsUnit(units, k);
      NextUnit(units, k, parts, part);
      parts := parts + [part];
      offset, k := offset + 2, k + 1;
    }
    assert units[..|units|] == units;
  }

  method RenderLicense(license: Text) returns (doc: Bytes)
    ensures doc == Render(license)
  {
    var lines := Split(Normalized(license));
    var body: Bytes := [];
    var i := 0;
    hide Body, Split, Normalized, EscapeUnits, Encode, HEADER, FOOTER, PAR;
    BodyOfNone(lines);
    while i < |lines|
      invariant i <= |lines|
      invariant body == Body(lines[..i])
    {
      var escaped := EscapeLine(lines[i]);
      BodyNext(lines, i);
      body := body + (escaped + PAR);
      i := i + 1;
    }
    assert lines[..i] == lines;
    doc := HEADER + body + FOOTER;
  }

  lemma BodyOfNone(lines: seq<Text>)
    ensures Body(lines[..0]) == []
  {
  }

  lemma {:induction false} BodyAppend(a: seq<Text>, line: Text)
    ensures Body(a + [line]) == Body(a) + (EscapeUnits(Encode(line)) + PAR)
  {
    hide EscapeUnits, Encode, PAR;
    if a == [] {
      assert a + [line] == [line] && [line][1..] == [];
    } else {
      BodyAppend(a[1..], line);
      assert (a + [line])[1..] == a[1..] + [line];
      AppendAssoc(EscapeUnits(Encode(a[0])) + PAR, Body(a[1..]), EscapeUnits(Encode(line)) + PAR);
    }
  }

  lemma BodyNext(lines: seq<Text>, i: nat)
    requires i < |lines|
    ensures Body(lines[..i + 1]) == Body(lines[..i]) + (EscapeUnits(Encode(lines[i])) + PAR)
  {
    assert lines[..i + 1] == lines[..i] + [lines[i]];
    BodyAppend(lines[..i], lines[i]);
  }
}
