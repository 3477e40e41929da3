/** What the newline handling of the licence renderer does, line by line. */
module LicenseLines {
  import opened Bytes
  import opened Rtf
  import opened Utf16
  import opened Wrappers

  datatype Break = LineFeed | Return | ReturnLineFeed

  /** A line and the way it was ended. */
  datatype Line = Line(text: Text, end: Break)

  function BreakText(b: Break): Text {
    match b
    case LineFeed => [10]
    case Return => [13]
    case ReturnLineFeed => [13, 10]
  }

  predicate Plain(t: Text) { forall c :: c in t ==> c != 10 && c != 13 }

  function Source(lines: seq<Line>, last: Text): Text {
    if lines == [] then last else lines[0].text + BreakText(lines[0].end) + Source(lines[1..], last)
  }

  /** The line after a lone CR does not begin with the LF that would make it a pair. */
  predicate Apart(end: Break, rest: Text) { end == Return ==> rest == [] || rest[0] != 10 }

  predicate Fair(lines: seq<Line>, last: Text) {
    if lines == [] then Plain(last)
    else Plain(lines[0].text) && Apart(lines[0].end, Source(lines[1..], last)) && Fair(lines[1..], last)
  }

  /** The lines, each ended by a line feed. */
  function WithLineFeeds(lines: seq<Line>): Text {
    if lines == [] then [] else lines[0].text + [10] + WithLineFeeds(lines[1..])
  }

  function Replaced(t: Text): Text { ReplaceReturns(ReplacePairs(t)) }

  lemma ReplacedChar(c: Scalar, rest: Text)
    requires c != 13
    ensures Replaced([c] + rest) == [c] + Replaced(rest)
  {
    assert ([c] + rest)[1..] == rest;
    assert ReplacePairs([c] + rest) == [c] + ReplacePairs(rest);
  }

  lemma {:induction false} ReplacedPlain(line: Text, rest: Text)
    requires Plain(line)
    ensures Replaced(line + rest) == line + Replaced(rest)
  {
    if line == [] {
      assert line + rest == rest;
    } else {
      assert line[0] in line && forall c :: c in line[1..] ==> c in line;
      assert line + rest == [line[0]] + (line[1..] + rest);
      ReplacedPlain(line[1..], rest);
      hide Replaced;
      ReplacedChar(line[0], line[1..] + rest);
    }
  }

  lemma ReplacedBreak(end: Break, rest: Text)
    requires Apart(end, rest)
    ensures Replaced(BreakText(end) + rest) == [10] + Replaced(rest)
  {
    match end
    case LineFeed => ReplacedChar(10, rest);
    case Return =>
      assert ([13] + rest)[1..] == rest;
      assert ReplacePairs([13] + rest) == [13] + ReplacePairs(rest);
    case ReturnLineFeed =>
      assert ([13, 10] + rest)[2..] == rest;
      assert ReplacePairs([13, 10] + rest) == [10] + ReplacePairs(rest);
  }

  lemma {:induction false} ReplacedSource(lines: seq<Line>, last: Text)
    requires Fair(lines, last)
    ensures Replaced(Source(lines, last)) == WithLineFeeds(lines) + last
  {
    if lines == [] {
      ReplacedPlain(last, []);
      hide ReplaceReturns;
      assert last + [] == last && Replaced([]) == [] && last + Replaced([]) == last;
      assert WithLineFeeds(lines) + last == last;
    } else {
      ReplacedSource(lines[1..], last);
      FairParts(lines, last);
      hide *;
      ReplacedLine(lines[0], Source(lines[1..], last));
      JoinedLine(lines, last);
    }
  }

  lemma FairParts(lines: seq<Line>, last: Text)
    requires lines != [] && Fair(lines, last)
    ensures Plain(lines[0].text) && Apart(lines[0].end, Source(lines[1..], last))
    ensures Source(lines, last) == lines[0].text + BreakText(lines[0].end) + Source(lines[1..], last)
  {
    hide Plain, BreakText;
  }

  lemma JoinedLine(lines: seq<Line>, last: Text)
    requires lines != []
    ensures lines[0].text + [10] + (WithLineFeeds(lines[1..]) + last) == WithLineFeeds(lines) + last
  {
  }

  lemma ReplacedLine(line: Line, rest: Text)
    requires Plain(line.text) && Apart(line.end, rest)
    ensures Replaced(line.text + BreakText(line.end) + rest) == line.text + [10] + Replaced(rest)
  {
    hide *;
    ReplacedPlain(line.text, BreakText(line.end) + rest);
    ReplacedBreak(line.end, rest);
    assert line.text + (BreakText(line.end) + rest) == line.text + BreakText(line.end) + rest;
    assert line.text + ([10] + Replaced(rest)) == line.text + [10] + Replaced(rest);
  }

  /** A licence of any lines, ended in any way, with what stands behind the last end,
      reads back as these lines ended by line feeds, the rest being one more line
      unless it is empty; the empty licence is one empty line. */
  lemma LinesReadBack(lines: seq<Line>, last: Text)
    requires Fair(lines, last)
    ensures ReadDocument(Render(Source(lines, last)))
            == Some(WithLineFeeds(lines) + (if last == [] && lines != [] then [] else last + [10]))
  {
    var t := Source(lines, last);
    ReplacedSource(lines, last);
    ReadInvertsRender(t);
    NormalizedIs(t);
    hide *;
    LastEnded(lines, last);
  }

  /** One line feed at the end is dropped, and one is put back. */
  lemma LastEnded(lines: seq<Line>, last: Text)
    requires Fair(lines, last)
    ensures WithoutLineFeed(WithLineFeeds(lines) + last) + [10]
            == WithLineFeeds(lines) + (if last == [] && lines != [] then [] else last + [10])
  {
    if last != [] {
      PlainEnd(lines, last);
      hide WithLineFeeds, Fair;
      KeptEnd(WithLineFeeds(lines), last);
    } else if lines != [] {
      EndsInLineFeed(lines);
      hide WithLineFeeds, Fair;
      DroppedEnd(WithLineFeeds(lines));
      assert WithLineFeeds(lines) + last == WithLineFeeds(lines);
    }
  }

  lemma KeptEnd(t: Text, last: Text)
    requires last != [] && last[|last| - 1] != 10
    ensures WithoutLineFeed(t + last) + [10] == t + (last + [10])
  {
    assert (t + last)[|t + last| - 1] == last[|last| - 1];
  }

  lemma DroppedEnd(t: Text)
    requires t != [] && t[|t| - 1] == 10
    ensures WithoutLineFeed(t) + [10] == t + []
  {
  }

  function WithoutLineFeed(t: Text): Text {
    if t != [] && t[|t| - 1] == 10 then t[..|t| - 1] else t
  }

  lemma NormalizedIs(t: Text)
    ensures Normalized(t) == WithoutLineFeed(Replaced(t))
  {
  }

  lemma {:induction false} PlainEnd(lines: seq<Line>, last: Text)
    requires Fair(lines, last) && last != []
    ensures last[|last| - 1] != 10
  {
    if lines == [] {
      assert last[|last| - 1] in last;
    } else {
      PlainEnd(lines[1..], last);
    }
  }

  lemma {:induction false} EndsInLineFeed(lines: seq<Line>)
    requires lines != []
    ensures var w := WithLineFeeds(lines); w != [] && w[|w| - 1] == 10
  {
    if |lines| > 1 {
      EndsInLineFeed(lines[1..]);
    } else {
      assert WithLineFeeds(lines[1..]) == [];
    }
  }

  /** Every text is lines ended in one of the three ways, and a rest. */
  lemma {:induction false} EveryTextIsLines(t: Text) returns (lines: seq<Line>, last: Text)
    ensures Fair(lines, last) && Source(lines, last) == t
  {
    if t == [] {
      return [], [];
    }
    var n := if t[0] == 13 && |t| > 1 && t[1] == 10 then 2 else 1;
    lines, last := EveryTextIsLines(t[n..]);
    hide Source, Fair;
    if t[0] == 13 || t[0] == 10 {
      var end := if n == 2 then ReturnLineFeed else if t[0] == 13 then Return else LineFeed;
      assert t == BreakText(end) + t[n..];
      BreakBefore(end, lines, last);
      lines := [Line([], end)] + lines;
    } else {
      assert t == [t[0]] + t[1..];
      CharBefore(t[0], lines, last);
      if lines == [] {
        last := [t[0]] + last;
      } else {
        lines := [Line([t[0]] + lines[0].text, lines[0].end)] + lines[1..];
      }
    }
  }

  lemma BreakBefore(end: Break, lines: seq<Line>, last: Text)
    requires Fair(lines, last) && Apart(end, Source(lines, last))
    ensures var more := [Line([], end)] + lines;
            Fair(more, last) && Source(more, last) == BreakText(end) + Source(lines, last)
  {
    var more := [Line([], end)] + lines;
    assert more[1..] == lines;
    assert Source(more, last) == [] + BreakText(end) + Source(lines, last);
  }

  lemma CharBefore(c: Scalar, lines: seq<Line>, last: Text)
    requires Fair(lines, last) && c != 10 && c != 13
    ensures if lines == [] then Fair([], [c] + last) && Source([], [c] + last) == [c] + Source(lines, last)
            else
              var more := [Line([c] + lines[0].text, lines[0].end)] + lines[1..];
              Fair(more, last) && Source(more, last) == [c] + Source(lines, last)
  {
    if lines != [] {
      var more := [Line([c] + lines[0].text, lines[0].end)] + lines[1..];
      assert more[1..] == lines[1..];
      hide Apart, BreakText;
      assert ([c] + lines[0].text) + BreakText(lines[0].end) + Source(lines[1..], last)
          == [c] + (lines[0].text + BreakText(lines[0].end) + Source(lines[1..], last));
    }
  }

  /** Every document begins with the header that the dialog reads, and ends with a
      closing brace and a line feed. */
  lemma DocumentFrame(license: Text)
    ensures [123] + Ascii("\\rtf1\\ansi\\ansicpg1252\\deff0") + [123] + Ascii("\\fonttbl")
            + [123] + Ascii("\\f0\\fnil\\fcharset0 Arial;") + [125, 125] + Ascii("\n\\pard\\f0\\fs16\n") <= Render(license)
    ensures var doc := Render(license); |doc| >= 3 && doc[|doc| - 3..] == [10, 125, 10]
  {
    assert FOOTER == [10, 125, 10];
    hide Body, Normalized, Split, Ascii;
  }
}
