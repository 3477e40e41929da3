/** Which line of a TOML file declares the version of a table, and which bytes of
    it are the version: read off the file, not off the reader. */
module TomlLines {
  import opened Bytes
  import opened LineSplit
  import opened VersionLines
  import opened TomlVersion
  import opened Wrappers

  // ---- the version in a line ----

  predicate SpacesIn(b: Bytes, i: int, j: int) {
    0 <= i <= j <= |b| && forall k :: i <= k < j ==> IsSpace(b[k])
  }

  /** Spaces, the word version, spaces, an equals sign, spaces, a quote; then the
      version, which is not empty and has no quote; then a quote. */
  predicate VersionAt(b: Bytes, w: int, e: int, p: int, q: int) {
    && 0 <= w && w + 7 <= e < p - 1 < q - 1 < |b| - 1
    && SpacesIn(b, 0, w) && b[w..w + 7] == Ascii("version") && SpacesIn(b, w + 7, e) && b[e] == 61
    && SpacesIn(b, e + 1, p - 1) && b[p - 1] == 34
    && (forall k :: p <= k < q ==> b[k] != 34) && b[q] == 34
  }

  ghost predicate HasVersion(b: Bytes, p: int, q: int) { exists w, e :: VersionAt(b, w, e, p, q) }

  lemma {:induction false} Skipped(b: Bytes, i: nat)
    requires i <= |b|
    ensures var j := SkipSpaces(b, i); SpacesIn(b, i, j) && (j < |b| ==> !IsSpace(b[j]))
    decreases |b| - i
  {
    hide IsSpace;
    if i < |b| && IsSpace(b[i]) { Skipped(b, i + 1); }
  }

  lemma {:induction false} SkipsTo(b: Bytes, i: nat, j: nat)
    requires SpacesIn(b, i, j) && j < |b| && !IsSpace(b[j])
    ensures SkipSpaces(b, i) == j
    decreases j - i
  {
    hide IsSpace;
    if i < j { SkipsTo(b, i + 1, j); }
  }

  lemma WordIs()
    ensures VERSION == Ascii("version") && |VERSION| == 7 && VERSION[0] == 118
    ensures !IsSpace(118) && !IsSpace(61) && !IsSpace(34) && EQUALS == 61 && QUOTE == 34
  {
    assert "version"[0] == 'v' && "version"[1] == 'e' && "version"[2] == 'r' && "version"[3] == 's' && "version"[4] == 'i'
           && "version"[5] == 'o' && "version"[6] == 'n';
  }

  lemma SpanFound(b: Bytes, w: int, e: int, p: int, q: int)
    requires VersionAt(b, w, e, p, q)
    ensures VersionSpan(b) == Some((p, q))
  {
    WordIs();
    assert b[w] == b[w..w + 7][0] == 118;
    hide IsSpace, VERSION;
    SkipsTo(b, 0, w);
    SkipsTo(b, w + 7, e);
    SkipsTo(b, e + 1, p - 1);
    assert VersionStart(b) == Some(p);
    QuoteFound(b, p, q);
  }

  /** The reader's span is the version of the line, and where it finds none there
      is none. */
  lemma VersionSpanExactly(b: Bytes, p: int, q: int)
    ensures HasVersion(b, p, q) <==> VersionSpan(b).Some? && VersionSpan(b).value == (p, q)
  {
    if w, e :| VersionAt(b, w, e, p, q) {
      SpanFound(b, w, e, p, q);
    }
    if VersionSpan(b).Some? && VersionSpan(b).value == (p, q) {
      WordIs();
      var w := SkipSpaces(b, 0);
      Skipped(b, 0);
      Skipped(b, w + 7);
      var e := SkipSpaces(b, w + 7);
      Skipped(b, e + 1);
      QuoteIsFirst(b, p);
      hide IsSpace, VERSION, SkipSpaces, FindQuote;
      assert VersionAt(b, w, e, p, q);
    }
  }

  // ---- the line in a file ----

  /** A line that, but for spaces around it, begins with [ and ends with ]. */
  predicate IsTableLine(line: Bytes) {
    var s := Strip(line); |s| > 1 && s[0] == 91 && s[|s| - 1] == 93
  }

  predicate Opens(line: Bytes, table: Bytes) { Strip(line) == [91] + table + [93] }

  /** Line i stands below the line [table], with no other table line between. */
  ghost predicate Below(lines: seq<Bytes>, table: Bytes, i: int) {
    exists h :: OpenAt(lines, table, h, i)
  }

  predicate OpenAt(lines: seq<Bytes>, table: Bytes, h: int, i: int) {
    0 <= h < i < |lines| && Opens(lines[h], table) && forall m :: h < m <= i ==> !IsTableLine(lines[m])
  }

  ghost predicate Declares(lines: seq<Bytes>, table: Bytes, i: int, p: int, q: int) {
    Below(lines, table, i) && HasVersion(Body(lines[i]), p, q)
  }

  lemma TableLineIs(line: Bytes, table: Bytes)
    ensures IsHeader(line) <==> IsTableLine(line)
    ensures Opens(line, table) <==> Strip(line) == Header(table)
    ensures Opens(line, table) ==> IsTableLine(line)
  {
    hide Strip;
    assert BRACKET == 91 && CLOSING == 93;
  }

  /** The same, if the first line already stands in the table. */
  ghost predicate BelowOr(lines: seq<Bytes>, table: Bytes, inTable: bool, i: int) {
    Below(lines, table, i) || (inTable && NoTableLine(lines, i))
  }

  predicate NoTableLine(lines: seq<Bytes>, i: int) {
    0 <= i < |lines| && forall m :: 0 <= m <= i ==> !IsTableLine(lines[m])
  }

  lemma BelowRest(lines: seq<Bytes>, table: Bytes, inTable: bool, i: int)
    requires lines != [] && 0 < i < |lines|
    ensures BelowOr(lines, table, inTable, i) <==> BelowOr(lines[1..], table, InTable(lines[0], table, inTable), i - 1)
  {
    var rest := lines[1..];
    TableLineIs(lines[0], table);
    hide IsTableLine, Opens, IsHeader, Strip;
    assert forall m :: 0 < m < |lines| ==> lines[m] == rest[m - 1];
    var before := i - 1;
    if h :| OpenAt(rest, table, h, before) {
      OpenAtShifts(lines, table, h + 1, i);
      assert OpenAt(lines, table, h + 1, i);
    }
    if h :| OpenAt(lines, table, h, i) {
      if h > 0 {
        OpenAtShifts(lines, table, h, i);
        assert OpenAt(rest, table, h - 1, i - 1);
      }
    }
    if NoTableLine(rest, i - 1) && Opens(lines[0], table) {
      assert forall m :: 0 < m <= i ==> lines[m] == rest[m - 1];
      assert OpenAt(lines, table, 0, i);
    }
  }

  lemma OpenAtShifts(lines: seq<Bytes>, table: Bytes, h: int, i: int)
    requires lines != [] && h > 0
    ensures OpenAt(lines[1..], table, h - 1, i - 1) <==> OpenAt(lines, table, h, i)
  {
    var rest := lines[1..];
    hide IsTableLine, Opens;
    assert forall m :: 0 < m < |lines| ==> lines[m] == rest[m - 1];
    assert forall m :: 0 <= m < |rest| ==> rest[m] == lines[m + 1];
  }

  ghost predicate DeclaresOr(lines: seq<Bytes>, table: Bytes, inTable: bool, i: int) {
    BelowOr(lines, table, inTable, i) && 0 <= i < |lines| && VersionSpan(Body(lines[i])).Some?
  }

  ghost predicate FirstDeclares(lines: seq<Bytes>, table: Bytes, inTable: bool, r: Option<nat>) {
    match r
    case None => forall i :: !DeclaresOr(lines, table, inTable, i)
    case Some(k) => DeclaresOr(lines, table, inTable, k) && forall i :: 0 <= i < k ==> !DeclaresOr(lines, table, inTable, i)
  }

  lemma FirstOfAll(lines: seq<Bytes>, table: Bytes, inTable: bool)
    requires lines != []
    ensures DeclaresOr(lines, table, inTable, 0) <==> !IsHeader(lines[0]) && inTable && VersionSpan(Body(lines[0])).Some?
  {
    TableLineIs(lines[0], table);
    hide IsTableLine, IsHeader, VersionSpan, Body, Opens;
  }

  lemma DeclaresRest(lines: seq<Bytes>, table: Bytes, inTable: bool, i: int)
    requires lines != [] && 0 < i
    ensures DeclaresOr(lines, table, inTable, i) <==> DeclaresOr(lines[1..], table, InTable(lines[0], table, inTable), i - 1)
  {
    if i < |lines| { BelowRest(lines, table, inTable, i); }
    hide BelowOr, InTable, VersionSpan, Body;
  }

  lemma {:induction false} FirstVersionLine(lines: seq<Bytes>, table: Bytes, inTable: bool)
    ensures FirstDeclares(lines, table, inTable, VersionLine(lines, table, inTable))
  {
    NotBefore(lines, table, inTable);
    if lines != [] {
      var inside := InTable(lines[0], table, inTable);
      FirstVersionLine(lines[1..], table, inside);
      FirstOfAll(lines, table, inTable);
      assert [lines[0]] + lines[1..] == lines;
      VersionLineFirst(lines[0], lines[1..], table, inTable);
      hide *;
      FirstOrLater(lines, table, inTable, VersionLine(lines[1..], table, inside));
    } else {
      hide VersionSpan, Body, BelowOr;
    }
  }

  lemma FirstOrLater(lines: seq<Bytes>, table: Bytes, inTable: bool, rest: Option<nat>)
    requires lines != [] && FirstDeclares(lines[1..], table, InTable(lines[0], table, inTable), rest)
    ensures FirstDeclares(lines, table, inTable, if DeclaresOr(lines, table, inTable, 0) then Some(0) else Shift(rest, 1))
  {
    var inside := InTable(lines[0], table, inTable);
    NotBefore(lines, table, inTable);
    hide InTable, DeclaresOr;
    forall i | i > 0 ensures DeclaresOr(lines, table, inTable, i) <==> DeclaresOr(lines[1..], table, inside, i - 1) {
      DeclaresRest(lines, table, inTable, i);
    }
  }

  lemma NotBefore(lines: seq<Bytes>, table: Bytes, inTable: bool)
    ensures forall i :: i < 0 ==> !DeclaresOr(lines, table, inTable, i)
  {
    hide BelowOr;
  }

  /** The version of a table is what the first line declares that stands below the
      table's header and no other, and is a version line. */
  lemma TableVersionExactly(lines: seq<Bytes>, table: Bytes, v: Bytes)
    ensures TableVersion(lines, table) == Some(v) <==> FirstSays(lines, table, v)
  {
    FirstVersionLine(lines, table, false);
    var k := VersionLine(lines, table, false);
    forall i, p, q ensures Declares(lines, table, i, p, q) <==>
        DeclaresOr(lines, table, false, i) && VersionSpan(Body(lines[i])).value == (p, q)
    {
      if 0 <= i < |lines| { VersionSpanExactly(Body(lines[i]), p, q); }
    }
    hide VersionSpan, Body, VersionLine, Declares, DeclaresOr;
    if k.Some? {
      var (p, q) := VersionSpan(Body(lines[k.value])).value;
      if FirstSays(lines, table, v) {
        var i, p1, q1 :| SaysFirst(lines, table, v, i, p1, q1);
        assert i == k.value by {
          assert Declares(lines, table, k.value, p, q);
        }
      } else {
        assert SaysFirst(lines, table, VersionIn(Body(lines[k.value])), k.value, p, q);
      }
    }
  }

  ghost predicate SaysFirst(lines: seq<Bytes>, table: Bytes, v: Bytes, i: int, p: int, q: int) {
    && Declares(lines, table, i, p, q) && 0 <= i < |lines| && 0 <= p <= q <= |Body(lines[i])| && v == Body(lines[i])[p..q]
    && forall j, p1, q1 :: 0 <= j < i ==> !Declares(lines, table, j, p1, q1)
  }

  ghost predicate FirstSays(lines: seq<Bytes>, table: Bytes, v: Bytes) {
    exists i, p, q :: SaysFirst(lines, table, v, i, p, q)
  }

  // ---- stripped lines ----

  /** Bytes i up to j of s, with space before and behind, and none at either end. */
  predicate CutAt(s: Bytes, i: int, j: int) {
    SpacesIn(s, 0, i) && i <= j && SpacesIn(s, j, |s|) && (i < j ==> !IsSpace(s[i]) && !IsSpace(s[j - 1]))
  }

  lemma OneCut(s: Bytes, i: int, j: int, k: int, l: int)
    requires CutAt(s, i, j) && CutAt(s, k, l)
    ensures s[i..j] == s[k..l]
  {
    hide IsSpace;
    if i < j && k < l {
      assert i == k && j == l;
    }
  }

  lemma {:induction false} StripCuts(s: Bytes) returns (i: int, j: int)
    ensures CutAt(s, i, j) && Strip(s) == s[i..j]
  {
    hide IsSpace;
    if s == [] {
      i, j := 0, 0;
    } else if IsSpace(s[0]) {
      i, j := StripCuts(s[1..]);
      assert s[1..][i..j] == s[i + 1..j + 1];
      i, j := i + 1, j + 1;
    } else if IsSpace(s[|s| - 1]) {
      i, j := StripCuts(s[..|s| - 1]);
      assert s[..|s| - 1][i..j] == s[i..j];
    } else {
      i, j := 0, |s|;
    }
  }

  /** Stripping leaves what stands between the spaces at the ends. */
  lemma StripExactly(s: Bytes, t: Bytes)
    ensures Strip(s) == t <==> exists i, j :: CutAt(s, i, j) && t == s[i..j]
  {
    var i, j := StripCuts(s);
    hide Strip, IsSpace;
    if k, l :| CutAt(s, k, l) && t == s[k..l] {
      OneCut(s, i, j, k, l);
    }
  }

  lemma {:induction false} ReadBody(body: Bytes, rest: Bytes)
    requires forall x :: x in body ==> x != 10 && x != 13
    ensures ReadText(body + rest) == body + ReadText(rest)
  {
    if body == [] {
      assert body + rest == rest;
    } else {
      var x, more := body[0], body[1..];
      assert x in body && forall y :: y in more ==> y in body;
      ReadBody(more, rest);
      ReadFirst(x, more + rest);
      hide ReadText;
      assert body + rest == [x] + (more + rest);
    }
  }

  lemma ReadFirst(x: byte, rest: Bytes)
    requires x != 13
    ensures ReadText([x] + rest) == [x] + ReadText(rest)
  {
    assert ([x] + rest)[1..] == rest;
  }

  lemma ReadEnd(rest: Bytes)
    ensures ReadText([]) == []
    ensures ReadText([10] + rest) == [10] + ReadText(rest) == ReadText([13, 10] + rest)
    ensures (rest == [] || rest[0] != 10) ==> ReadText([13] + rest) == [10] + ReadText(rest)
  {
    assert ([10] + rest)[1..] == rest && ([13] + rest)[1..] == rest && ([13, 10] + rest)[2..] == rest;
  }

  /** A file is read with every line end as a line feed. */
  lemma LineEndsRead(body: Bytes, rest: Bytes)
    requires forall x :: x in body ==> x != 10 && x != 13
    ensures ReadText(body) == body
    ensures ReadText(body + ([10] + rest)) == body + ([10] + ReadText(rest)) == ReadText(body + ([13, 10] + rest))
    ensures (rest == [] || rest[0] != 10) ==> ReadText(body + ([13] + rest)) == body + ([10] + ReadText(rest))
  {
    hide ReadText;
    ReadEnd(rest);
    ReadBody(body, []);
    assert body + [] == body;
    ReadBody(body, [10] + rest);
    ReadBody(body, [13, 10] + rest);
    ReadBody(body, [13] + rest);
  }

  /** The white space of ASCII, as Python strips it. */
  lemma SpacesAre(b: byte)
    ensures IsSpace(b) <==> b in {9, 10, 11, 12, 13, 28, 29, 30, 31, 32}
  {
  }
}
