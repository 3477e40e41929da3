/** The version of a TOML table: the reader, the rewriter, and their agreement. */
module TomlVersion {
  import opened Bytes
  import opened LineSplit
  import opened VersionLines
  import opened Wrappers

  const QUOTE: byte := 34
  const EQUALS: byte := 61
  const BRACKET: byte := 91
  const CLOSING: byte := 93
  const VERSION: Bytes := [118, 101, 114, 115, 105, 111, 110]

  // ---- the version line: \s*version\s*=\s*" then the version then " ----

  function SkipSpaces(b: Bytes, i: nat): (j: nat)
    requires i <= |b|
    ensures i <= j <= |b|
    decreases |b| - i
  {
    if i < |b| && IsSpace(b[i]) then SkipSpaces(b, i + 1) else i
  }

  /** Where the version begins. */
  function VersionStart(b: Bytes): (r: Option<nat>)
    ensures r.Some? ==> 0 < r.value <= |b|
  {
    var i := SkipSpaces(b, 0);
    if i + |VERSION| > |b| || b[i..i + |VERSION|] != VERSION then None
    else
      var j := SkipSpaces(b, i + |VERSION|);
      if j >= |b| || b[j] != EQUALS then None
      else
        var k := SkipSpaces(b, j + 1);
        if k >= |b| || b[k] != QUOTE then None else Some(k + 1)
  }

  function FindQuote(b: Bytes, i: nat): (j: nat)
    requires i <= |b|
    ensures i <= j <= |b|
    decreases |b| - i
  {
    if i < |b| && b[i] != QUOTE then FindQuote(b, i + 1) else i
  }

  /** The span of the version in a version line. */
  function VersionSpan(b: Bytes): (r: Option<(nat, nat)>)
    ensures r.Some? ==> 0 < r.value.0 < r.value.1 < |b|
  {
    var start := VersionStart(b);
    if start == None then None
    else
      var stop := FindQuote(b, start.value);
      if stop == start.value || stop == |b| then None else Some((start.value, stop))
  }

  lemma {:induction false} SkipSame(b: Bytes, c: Bytes, i: nat, k: nat)
    requires i <= k <= |b| && k <= |c| && b[..k] == c[..k] && SkipSpaces(b, i) < k
    ensures SkipSpaces(c, i) == SkipSpaces(b, i)
    decreases k - i
  {
    assert b[i] == b[..k][i] == c[..k][i] == c[i];
    if IsSpace(b[i]) {
      SkipSame(b, c, i + 1, k);
    }
  }

  lemma SliceSame(b: Bytes, c: Bytes, p: nat, i: nat, n: nat)
    requires p <= |b| && p <= |c| && c[..p] == b[..p] && i + n <= p
    ensures b[i..i + n] == c[i..i + n]
    ensures n > 0 ==> b[i] == c[i]
  {
    assert forall k :: i <= k < i + n ==> b[k] == b[..p][k] && c[k] == c[..p][k];
  }

  lemma VersionLength()
    ensures |VERSION| == 7
  {
  }

  /** Whether a line introduces a version is decided before the version begins. */
  lemma StartSame(b: Bytes, c: Bytes)
    requires VersionStart(b).Some? && var p := VersionStart(b).value; p <= |c| && c[..p] == b[..p]
    ensures VersionStart(c) == VersionStart(b)
  {
    hide SkipSpaces, IsSpace, VERSION;
    var p := VersionStart(b).value;
    var i := SkipSpaces(b, 0);
    var j := SkipSpaces(b, i + |VERSION|);
    VersionLength();
    SkipSame(b, c, 0, p);
    SliceSame(b, c, p, i, |VERSION|);
    SkipSame(b, c, i + |VERSION|, p);
    SliceSame(b, c, p, j, 1);
    SkipSame(b, c, j + 1, p);
    SliceSame(b, c, p, p - 1, 1);
  }

  /** A version that can stand between quotes on one line. */
  predicate Quotable(v: Bytes) { v != [] && QUOTE !in v && Unbroken(v) }

  lemma {:induction false} QuoteFound(b: Bytes, i: nat, stop: nat)
    requires i <= stop < |b| && b[stop] == QUOTE && forall k :: i <= k < stop ==> b[k] != QUOTE
    ensures FindQuote(b, i) == stop
    decreases stop - i
  {
    if i < stop { QuoteFound(b, i + 1, stop); }
  }

  lemma {:induction false} QuoteIsFirst(b: Bytes, i: nat)
    requires i <= |b|
    ensures var j := FindQuote(b, i); (j < |b| ==> b[j] == QUOTE) && forall k :: i <= k < j ==> b[k] != QUOTE
    decreases |b| - i
  {
    if i < |b| && b[i] != QUOTE { QuoteIsFirst(b, i + 1); }
  }

  function WithVersion(b: Bytes, v: Bytes): Bytes
    requires VersionSpan(b).Some?
  {
    b[..VersionSpan(b).value.0] + v + b[VersionSpan(b).value.1..]
  }

  function VersionIn(b: Bytes): Bytes
    requires VersionSpan(b).Some?
  {
    b[VersionSpan(b).value.0..VersionSpan(b).value.1]
  }

  lemma OnlyKnownBytes(b: Bytes, p: nat, v: Bytes, q: nat)
    requires p <= q <= |b| && Unbroken(b) && Unbroken(v)
    ensures Unbroken(b[..p] + v + b[q..])
  {
    assert forall x :: x in b[..p] ==> x in b;
    assert forall x :: x in b[q..] ==> x in b;
  }

  lemma RewrittenSpan(b: Bytes, v: Bytes)
    requires VersionSpan(b).Some? && Quotable(v)
    ensures VersionSpan(WithVersion(b, v)) == Some((VersionSpan(b).value.0, VersionSpan(b).value.0 + |v|))
  {
    var (p, q) := VersionSpan(b).value;
    var c := WithVersion(b, v);
    assert c[..p] == b[..p];
    StartSame(b, c);
    hide VersionStart;
    QuoteIsFirst(b, p);
    assert c[p + |v|] == b[q];
    forall k | p <= k < p + |v| ensures c[k] != QUOTE {
      assert c[k] == v[k - p] && v[k - p] in v;
    }
    QuoteFound(c, p, p + |v|);
  }

  lemma Pieces(b: Bytes, p: nat, q: nat, v: Bytes)
    requires 0 < p <= q <= |b|
    ensures var c := b[..p] + v + b[q..];
            c[p..p + |v|] == v && c[..p] + b[p..q] + c[p + |v|..] == b && c[0] == b[0]
  {
  }

  /** The new version is read back, and putting the old one back restores the line. */
  lemma RewrittenLine(b: Bytes, v: Bytes)
    requires VersionSpan(b).Some? && Quotable(v) && Unbroken(b)
    ensures var c := WithVersion(b, v);
            && VersionSpan(c).Some? && VersionIn(c) == v && WithVersion(c, VersionIn(b)) == b
            && Unbroken(c) && c != [] && b != [] && c[0] == b[0]
  {
    var (p, q) := VersionSpan(b).value;
    RewrittenSpan(b, v);
    hide VersionSpan;
    OnlyKnownBytes(b, p, v, q);
    hide Unbroken;
    Pieces(b, p, q, v);
  }

  // ---- tables ----

  function Header(table: Bytes): Bytes { [BRACKET] + table + [CLOSING] }

  predicate IsHeader(line: Bytes) {
    var s := Strip(line);
    s != [] && s[0] == BRACKET && s[|s| - 1] == CLOSING
  }

  function InTable(line: Bytes, table: Bytes, inTable: bool): bool {
    if IsHeader(line) then Strip(line) == Header(table) else inTable
  }

  /** The index of the version line that counts, or none. */
  function VersionLine(lines: seq<Bytes>, table: Bytes, inTable: bool): (r: Option<nat>)
    ensures r.Some? ==> r.value < |lines| && VersionSpan(Body(lines[r.value])).Some?
  {
    if lines == [] then None
    else if !IsHeader(lines[0]) && inTable && VersionSpan(Body(lines[0])).Some? then Some(0)
    else
      var rest := VersionLine(lines[1..], table, InTable(lines[0], table, inTable));
      if rest == None then None else Some(rest.value + 1)
  }

  function Shift(k: Option<nat>, i: nat): Option<nat> { if k == None then None else Some(k.value + i) }

  lemma VersionLineFirst(line: Bytes, rest: seq<Bytes>, table: Bytes, inTable: bool)
    ensures VersionLine([line] + rest, table, inTable) ==
            if !IsHeader(line) && inTable && VersionSpan(Body(line)).Some? then Some(0)
            else Shift(VersionLine(rest, table, InTable(line, table, inTable)), 1)
  {
    hide IsHeader, VersionSpan, Body, InTable;
    assert ([line] + rest)[1..] == rest;
  }

  lemma {:induction false} StripStart(s: Bytes)
    ensures Strip(s) != [] ==> SkipSpaces(s, 0) < |s| && s[SkipSpaces(s, 0)] == Strip(s)[0]
    decreases |s|
  {
    if s != [] {
      if IsSpace(s[0]) {
        StripStart(s[1..]);
        SkipShift(s, 1);
      } else if IsSpace(s[|s| - 1]) {
        StripStart(s[..|s| - 1]);
      }
    }
  }

  lemma {:induction false} SkipShift(s: Bytes, i: nat)
    requires 0 < i <= |s|
    ensures SkipSpaces(s, i) == SkipSpaces(s[1..], i - 1) + 1
    decreases |s| - i
  {
    if i < |s| && IsSpace(s[i]) { SkipShift(s, i + 1); }
  }

  /** A header line is never a version line. */
  lemma HeaderHasNoVersion(line: Bytes)
    requires IsHeader(line)
    ensures VersionSpan(Body(line)) == None
  {
    StripStart(line);
    var b := Body(line);
    if VersionStart(b).Some? {
      assert b[..VersionStart(b).value] == line[..VersionStart(b).value];
      StartSame(b, line);
      VersionComesFirst(line);
    }
  }

  lemma VersionComesFirst(b: Bytes)
    requires VersionStart(b).Some?
    ensures SkipSpaces(b, 0) < |b| && b[SkipSpaces(b, 0)] == VERSION[0]
  {
    var i := SkipSpaces(b, 0);
    assert b[i] == b[i..i + |VERSION|][0];
  }

  /** _table_version, on the lines of the text; None where it raises. */
  function TableVersion(lines: seq<Bytes>, table: Bytes): Option<Bytes> {
    var k := VersionLine(lines, table, false);
    if k == None then None else Some(VersionIn(Body(lines[k.value])))
  }

  function NewLine(line: Bytes, v: Bytes): Bytes
    requires VersionSpan(Body(line)).Some?
  {
    WithVersion(Body(line), v) + Ending(line)
  }

  /** _replace_table_version. */
  function ReplaceTable(lines: seq<Bytes>, v: Bytes, table: Bytes): Option<seq<Bytes>> {
    var k := VersionLine(lines, table, false);
    if k == None then None else Some(lines[k.value := NewLine(lines[k.value], v)])
  }

  lemma NewLineParts(line: Bytes, v: Bytes)
    requires VersionSpan(Body(line)).Some? && Quotable(v) && Unbroken(Body(line))
    ensures var c := NewLine(line, v);
            && Body(c) == WithVersion(Body(line), v) && Ending(c) == Ending(line) && !IsHeader(c)
            && VersionSpan(Body(c)).Some? && VersionIn(Body(c)) == v
            && NewLine(c, VersionIn(Body(line))) == line
  {
    var b := Body(line);
    RewrittenLine(b, v);
    BodyParts(line);
    var c := WithVersion(b, v);
    assert c[|c| - 1] in c;
    BodyOf(c, Ending(line));
    if IsHeader(NewLine(line, v)) {
      HeaderHasNoVersion(NewLine(line, v));
    }
  }

  lemma {:induction false} VersionLineKept(lines: seq<Bytes>, table: Bytes, inTable: bool, line: Bytes)
    requires VersionLine(lines, table, inTable).Some?
    requires VersionSpan(Body(line)).Some? && !IsHeader(line)
    ensures VersionLine(lines[VersionLine(lines, table, inTable).value := line], table, inTable)
            == VersionLine(lines, table, inTable)
  {
    hide IsHeader, VersionSpan, Body, InTable, VersionLine;
    var k, first, rest := VersionLine(lines, table, inTable).value, lines[0], lines[1..];
    assert [first] + rest == lines;
    VersionLineFirst(first, rest, table, inTable);
    if k == 0 {
      assert [line] + rest == lines[0 := line];
      VersionLineFirst(line, rest, table, inTable);
    } else {
      VersionLineKept(rest, table, InTable(first, table, inTable), line);
      assert [first] + rest[k - 1 := line] == lines[k := line];
      VersionLineFirst(first, rest[k - 1 := line], table, inTable);
    }
  }

  predicate UnbrokenBodies(lines: seq<Bytes>) { forall i :: 0 <= i < |lines| ==> Unbroken(Body(lines[i])) }

  lemma LinesHaveUnbrokenBodies(text: Bytes)
    ensures UnbrokenBodies(SplitLines(text))
  {
    var lines := SplitLines(text);
    LinesAreLines(text);
    forall i | 0 <= i < |lines| ensures Unbroken(Body(lines[i])) {
      BodyUnbroken(lines[i]);
    }
  }

  lemma BodyUnbroken(line: Bytes)
    requires IsLine(line)
    ensures Unbroken(Body(line))
  {
    var b := Body(line);
    BodyParts(line);
    if x :| x in b && (x == LF || x == CR) {
      var i :| 0 <= i < |b| && b[i] == x;
      assert line[i] == b[i] && b[|b| - 1] == line[|b| - 1];
    }
  }

  /** The rewriter changes one line, there only the version; the reader then
      finds the new version; and rewriting back restores the text. */
  lemma ReplaceAgreesWithRead(lines: seq<Bytes>, v: Bytes, table: Bytes)
    requires UnbrokenBodies(lines) && Proper(lines) && Quotable(v)
    ensures ReplaceTable(lines, v, table).Some? <==> TableVersion(lines, table).Some?
    ensures ReplaceTable(lines, v, table).Some? ==>
              var changed := ReplaceTable(lines, v, table).value;
              && TableVersion(changed, table) == Some(v)
              && ReplaceTable(changed, TableVersion(lines, table).value, table) == Some(lines)
              && Proper(changed) && UnbrokenBodies(changed) && |changed| == |lines|
  {
    hide VersionSpan, WithVersion, VersionIn, NewLine, VersionLine, Body, Proper, Ending, IsHeader, Unbroken;
    var k := VersionLine(lines, table, false);
    if k.Some? {
      var line := lines[k.value];
      var c := NewLine(line, v);
      NewLineParts(line, v);
      NewLineFits(line, v);
      VersionLineKept(lines, table, false, c);
      ReplaceKeepsProper(lines, k.value, c);
      assert lines[k.value := c][k.value := line] == lines;
    }
  }

  lemma NewLineFits(line: Bytes, v: Bytes)
    requires VersionSpan(Body(line)).Some? && Quotable(v) && Unbroken(Body(line))
    ensures var c := NewLine(line, v);
            && Unbroken(Body(c)) && Body(c) != [] && Body(line) != [] && Body(c)[0] == Body(line)[0]
  {
    NewLineParts(line, v);
    RewrittenLine(Body(line), v);
    hide VersionSpan, WithVersion, NewLine, Unbroken, Body;
  }

  /** On text: what is written is read back as lines, and so as the new version. */
  lemma ReplaceInText(text: Bytes, v: Bytes, table: Bytes)
    requires Quotable(v) && TableVersion(SplitLines(text), table).Some?
    ensures var written := ReplaceTable(SplitLines(text), v, table);
            && written.Some?
            && SplitLines(Flat(written.value)) == written.value
            && TableVersion(SplitLines(Flat(written.value)), table) == Some(v)
            && var back := ReplaceTable(SplitLines(Flat(written.value)), TableVersion(SplitLines(text), table).value, table);
               back.Some? && Flat(back.value) == text
  {
    var lines := SplitLines(text);
    SplitIsProper(text);
    LinesHaveUnbrokenBodies(text);
    ReplaceAgreesWithRead(lines, v, table);
    ProperSplits(ReplaceTable(lines, v, table).value);
    LinesAreTheInput(text);
  }

  /** [table], and a line that declares v in it. */
  function Declaration(table: Bytes, v: Bytes): Bytes {
    (Header(table) + [LF]) + (VersionText(v) + [LF])
  }

  function VersionText(v: Bytes): Bytes { VERSION + [EQUALS, QUOTE] + v + [QUOTE] }

  lemma VersionTextSpan(v: Bytes)
    requires Quotable(v)
    ensures VersionSpan(VersionText(v)).Some? && VersionIn(VersionText(v)) == v && Unbroken(VersionText(v))
  {
    var b, n := VersionText(v), |VERSION|;
    assert b[0] == VERSION[0] == 118 && b[..n] == VERSION && b[n] == EQUALS && b[n + 1] == QUOTE;
    assert SkipSpaces(b, 0) == 0 && SkipSpaces(b, n) == n && SkipSpaces(b, n + 1) == n + 1;
    assert VersionStart(b) == Some(n + 2);
    forall k | n + 2 <= k < n + 2 + |v| ensures b[k] != QUOTE {
      assert b[k] == v[k - n - 2] && v[k - n - 2] in v;
    }
    assert b[n + 2 + |v|] == QUOTE;
    QuoteFound(b, n + 2, n + 2 + |v|);
    assert b[n + 2..n + 2 + |v|] == v;
    assert Unbroken(VERSION);
  }

  lemma HeaderLine(table: Bytes)
    requires Unbroken(table)
    ensures IsHeader(Header(table) + [LF]) && Strip(Header(table) + [LF]) == Header(table) && Unbroken(Header(table))
  {
    var h := Header(table);
    assert h[0] == BRACKET && h[|h| - 1] == CLOSING;
    StripAfterSpaces(h, [LF]);
  }

  lemma LineWithLf(body: Bytes, rest: Bytes)
    requires Unbroken(body)
    ensures SplitLines((body + [LF]) + rest) == [body + [LF]] + SplitLines(rest)
  {
    assert (body + [LF]) + rest == body + ([LF] + rest);
    FirstLineSkips(body, [LF] + rest);
    SplitOff(body + [LF], rest);
  }

  /** Such a text declares that version. */
  lemma DeclarationReads(table: Bytes, v: Bytes)
    requires Unbroken(table) && Quotable(v)
    ensures TableVersion(SplitLines(Declaration(table, v)), table) == Some(v) && CR !in Declaration(table, v)
  {
    DeclarationHasNoCr(table, v);
    DeclaringLine(v);
    hide *;
    var header, line := Header(table) + [LF], VersionText(v) + [LF];
    HeaderLine(table);
    DeclarationLines(table, v);
    HeaderThenVersion(header, line, table, v);
  }

  lemma DeclarationHasNoCr(table: Bytes, v: Bytes)
    requires Unbroken(table) && Quotable(v)
    ensures CR !in Declaration(table, v) && Unbroken(Header(table)) && Unbroken(VersionText(v))
  {
    HeaderLine(table);
    VersionTextSpan(v);
    hide Header, VersionText;
  }

  lemma DeclaringLine(v: Bytes)
    requires Quotable(v)
    ensures var line := VersionText(v) + [LF];
            !IsHeader(line) && VersionSpan(Body(line)).Some? && VersionIn(Body(line)) == v
  {
    VersionTextSpan(v);
    TextEndsInQuote(v);
    BodyOf(VersionText(v), [LF]);
    hide VersionText, VersionSpan, IsHeader, VersionIn, Body;
    if IsHeader(VersionText(v) + [LF]) { HeaderHasNoVersion(VersionText(v) + [LF]); }
  }

  lemma DeclarationLines(table: Bytes, v: Bytes)
    requires Unbroken(Header(table)) && Unbroken(VersionText(v))
    ensures SplitLines(Declaration(table, v)) == [Header(table) + [LF], VersionText(v) + [LF]]
  {
    hide Header, VersionText, SplitLines, Unbroken, VersionLine;
    var line := VersionText(v) + [LF];
    LineWithLf(Header(table), line);
    LineWithLf(VersionText(v), []);
    assert line + [] == line;
    NoLines(table, true);
    assert [line] + [] == [line];
  }

  lemma TextEndsInQuote(v: Bytes)
    ensures !Terminated(VersionText(v)) && VersionText(v) != []
  {
    assert VersionText(v)[|VersionText(v)| - 1] == QUOTE;
  }

  lemma HeaderThenVersion(header: Bytes, line: Bytes, table: Bytes, v: Bytes)
    requires IsHeader(header) && Strip(header) == Header(table) && !IsHeader(line)
    requires VersionSpan(Body(line)).Some? && VersionIn(Body(line)) == v
    ensures TableVersion([header, line], table) == Some(v)
  {
    hide IsHeader, Strip, Header, VersionSpan, Body, VersionIn, VersionLine;
    NoLines(table, true);
    VersionLineFirst(header, [line], table, false);
    VersionLineFirst(line, [], table, true);
    assert [header] + [line] == [header, line] && [line] + [] == [line];
  }

  lemma NoLines(table: Bytes, inTable: bool)
    ensures SplitLines([]) == [] && VersionLine([], table, inTable) == None
  {
  }

  lemma NewLineHasNoCr(line: Bytes, v: Bytes)
    requires VersionSpan(Body(line)).Some? && CR !in line && CR !in v
    ensures CR !in NewLine(line, v)
  {
    var b := Body(line);
    var (p, q) := VersionSpan(b).value;
    BodyParts(line);
    hide VersionSpan, Body;
    assert forall x :: x in b || x in Ending(line) ==> x in line;
    assert forall x :: x in b[..p] || x in b[q..] ==> x in b;
  }

  lemma ReplacedHasNoCr(text: Bytes, v: Bytes, table: Bytes)
    requires CR !in text && CR !in v && ReplaceTable(SplitLines(text), v, table).Some?
    ensures CR !in Flat(ReplaceTable(SplitLines(text), v, table).value)
  {
    var lines := SplitLines(text);
    var k := VersionLine(lines, table, false).value;
    var written := ReplaceTable(lines, v, table).value;
    hide SplitLines, VersionLine, NewLine, VersionSpan;
    forall i | 0 <= i < |lines| ensures CR !in written[i] {
      LineBytes(text, i, CR);
      if i == k { NewLineHasNoCr(lines[k], v); }
    }
    FlatBytes(written, CR);
  }

  // ---- the loops ----

  lemma VersionLineAt(lines: seq<Bytes>, i: nat, table: Bytes, inTable: bool)
    requires i < |lines|
    ensures Shift(VersionLine(lines[i..], table, inTable), i) ==
            if !IsHeader(lines[i]) && inTable && VersionSpan(Body(lines[i])).Some? then Some(i)
            else Shift(VersionLine(lines[i + 1..], table, InTable(lines[i], table, inTable)), i + 1)
  {
    hide IsHeader, VersionSpan, Body, InTable, VersionLine;
    VersionLineFirst(lines[i], lines[i + 1..], table, inTable);
    assert [lines[i]] + lines[i + 1..] == lines[i..];
  }

  lemma VersionLineEnds(lines: seq<Bytes>, table: Bytes, inTable: bool)
    ensures Shift(VersionLine(lines[|lines|..], table, inTable), |lines|) == None
  {
  }

  lemma VersionLineBegins(lines: seq<Bytes>, table: Bytes)
    ensures Shift(VersionLine(lines[0..], table, false), 0) == VersionLine(lines, table, false)
  {
    assert lines[0..] == lines;
  }

  method ReadTableVersion(text: Bytes, table: Bytes) returns (r: Option<Bytes>)
    ensures r == TableVersion(SplitLines(text), table)
  {
    var lines := SplitLines(text);
    var inTable := false;
    var i := 0;
    VersionLineBegins(lines, table);
    hide SplitLines, VersionLine, IsHeader, VersionSpan, VersionIn, Header, Strip, Body;
    while i < |lines|
      invariant i <= |lines|
      invariant Shift(VersionLine(lines[i..], table, inTable), i) == VersionLine(lines, table, false)
    {
      VersionLineAt(lines, i, table, inTable);
      if IsHeader(lines[i]) {
        inTable := Strip(lines[i]) == Header(table);
      } else if inTable && VersionSpan(Body(lines[i])).Some? {
        return Some(VersionIn(Body(lines[i])));
      }
      i := i + 1;
    }
    VersionLineEnds(lines, table, inTable);
    r := None;
  }

  /** What the output holds after i lines. */
  ghost predicate Written(output: seq<Bytes>, lines: seq<Bytes>, i: nat, at: Option<nat>, v: Bytes, replaced: bool) {
    && i <= |lines|
    && if replaced then
         at.Some? && at.value < i && VersionSpan(Body(lines[at.value])).Some?
         && output == lines[..i][at.value := NewLine(lines[at.value], v)]
       else output == lines[..i]
  }

  lemma WrittenNext(output: seq<Bytes>, lines: seq<Bytes>, i: nat, at: Option<nat>, v: Bytes, replaced: bool)
    requires Written(output, lines, i, at, v, replaced) && i < |lines|
    ensures Written(output + [lines[i]], lines, i + 1, at, v, replaced)
    ensures !replaced && at == Some(i) && VersionSpan(Body(lines[i])).Some? ==>
              Written(output + [NewLine(lines[i], v)], lines, i + 1, at, v, true)
  {
    hide NewLine, VersionSpan, Body;
    assert lines[..i + 1] == lines[..i] + [lines[i]];
  }

  method RewriteLine(line: Bytes, v: Bytes) returns (changed: Bytes)
    requires VersionSpan(Body(line)).Some?
    ensures changed == NewLine(line, v)
  {
    var (p, q) := VersionSpan(Body(line)).value;
    changed := Body(line)[..p] + v + Body(line)[q..] + Ending(line);
  }

  method RewriteTableVersion(text: Bytes, v: Bytes, table: Bytes) returns (r: Option<Bytes>)
    ensures r == var changed := ReplaceTable(SplitLines(text), v, table);
                 if changed == None then None else Some(Flat(changed.value))
  {
    var lines := SplitLines(text);
    var inTable, replaced := false, false;
    var output: seq<Bytes> := [];
    ghost var at := VersionLine(lines, table, false);
    var i := 0;
    VersionLineBegins(lines, table);
    hide SplitLines, VersionLine, IsHeader, VersionSpan, VersionIn, NewLine, Header, Strip, Body, Flat;
    while i < |lines|
      invariant Written(output, lines, i, at, v, replaced)
      invariant !replaced ==> Shift(VersionLine(lines[i..], table, inTable), i) == at
    {
      var line := lines[i];
      VersionLineAt(lines, i, table, inTable);
      WrittenNext(output, lines, i, at, v, replaced);
      if IsHeader(line) {
        HeaderHasNoVersion(line);
        inTable := Strip(line) == Header(table);
      }
      if inTable && !replaced && VersionSpan(Body(line)).Some? {
        line := RewriteLine(line, v);
        replaced := true;
      }
      output := output + [line];
      i := i + 1;
    }
    VersionLineEnds(lines, table, inTable);
    assert lines[..i] == lines;
    r := if replaced then Some(Flat(output)) else None;
  }
}
