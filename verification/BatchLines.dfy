/** What the reader of `git cat-file --batch` takes for the header of a blob, and
    what it makes of output that breaks off. */
module BatchLines {
  import opened Bytes
  import opened Decimals
  import opened BatchBlobs
  import opened Wrappers

  predicate Blank(s: Bytes) { forall i :: 0 <= i < |s| ==> IsSpace(s[i]) }

  /** A first word, and what follows it. */
  predicate Leads(s: Bytes, blank: Bytes, word: Bytes, rest: Bytes) {
    s == blank + word + rest && Blank(blank) && Token(word) && (rest == [] || IsSpace(rest[0]))
  }

  lemma {:induction false} SkipBlank(blank: Bytes, s: Bytes)
    requires Blank(blank)
    ensures Fields(blank + s) == Fields(s)
  {
    if blank == [] {
      assert blank + s == s;
    } else {
      SkipBlank(blank[1..], s);
      assert (blank + s)[1..] == blank[1..] + s;
    }
  }

  lemma LeadingWord(s: Bytes, blank: Bytes, word: Bytes, rest: Bytes)
    requires Leads(s, blank, word, rest)
    ensures Fields(s) == [word] + Fields(rest)
  {
    hide Fields, IsSpace;
    SkipBlank(blank, word + rest);
    FieldsOf(word, rest);
    assert s == blank + (word + rest);
  }

  lemma {:induction false} TokenStops(s: Bytes)
    ensures var n := TokenLength(s); (forall i :: 0 <= i < n ==> !IsSpace(s[i])) && (n < |s| ==> IsSpace(s[n]))
  {
    hide IsSpace;
    if s != [] && !IsSpace(s[0]) { TokenStops(s[1..]); }
  }

  /** Where fields are found there is a first word; where none are, nothing but space. */
  lemma {:induction false} FirstWord(s: Bytes) returns (blank: Bytes, rest: Bytes)
    ensures Fields(s) == [] ==> Blank(s)
    ensures Fields(s) != [] ==> Leads(s, blank, Fields(s)[0], rest) && Fields(s)[1..] == Fields(rest)
  {
    hide IsSpace, Leads;
    blank, rest := [], [];
    if s != [] {
      if IsSpace(s[0]) {
        blank, rest := FirstWord(s[1..]);
        if Fields(s) != [] {
          LeadsAfter(s, blank, Fields(s)[0], rest);
          blank := [s[0]] + blank;
        }
      } else {
        LeadsAtOnce(s);
        rest := s[TokenLength(s)..];
      }
    }
  }

  lemma LeadsAfter(s: Bytes, blank: Bytes, word: Bytes, rest: Bytes)
    requires s != [] && IsSpace(s[0]) && Leads(s[1..], blank, word, rest)
    ensures Leads(s, [s[0]] + blank, word, rest)
  {
    hide IsSpace, Token;
    assert s == [s[0]] + s[1..];
    assert [s[0]] + (blank + word + rest) == ([s[0]] + blank) + word + rest;
  }

  lemma LeadsAtOnce(s: Bytes)
    requires s != [] && !IsSpace(s[0])
    ensures Leads(s, [], s[..TokenLength(s)], s[TokenLength(s)..])
  {
    hide IsSpace;
    TokenStops(s);
    var n := TokenLength(s);
    assert s == [] + s[..n] + s[n..];
  }

  lemma BlankHasNone(s: Bytes)
    requires Blank(s)
    ensures Fields(s) == []
  {
    SkipBlank(s, []);
    assert s + [] == s;
  }

  /** Three words, the second of them blob. */
  ghost predicate ThreeWords(line: Bytes, oid: Bytes, size: Bytes) {
    exists a, b, c, r1, r2, r3 ::
      Leads(line, a, oid, r1) && Leads(r1, b, Ascii("blob"), r2) && Leads(r2, c, size, r3) && Blank(r3)
  }

  lemma BlobIs()
    ensures BLOB == Ascii("blob")
  {
    assert "blob"[0] == 'b' && "blob"[1] == 'l' && "blob"[2] == 'o' && "blob"[3] == 'b';
  }

  lemma HeaderExactly(line: Bytes, oid: Bytes, size: Bytes)
    ensures Fields(line) == [oid, BLOB, size] <==> ThreeWords(line, oid, size)
  {
    BlobIs();
    hide Fields, IsSpace, Token, BLOB, Ascii;
    if a, b, c, r1, r2, r3 :| Leads(line, a, oid, r1) && Leads(r1, b, Ascii("blob"), r2) && Leads(r2, c, size, r3) && Blank(r3) {
      LeadingWord(line, a, oid, r1);
      LeadingWord(r1, b, Ascii("blob"), r2);
      LeadingWord(r2, c, size, r3);
      BlankHasNone(r3);
    }
    if Fields(line) == [oid, BLOB, size] {
      var a, r1 := FirstWord(line);
      var b, r2 := FirstWord(r1);
      var c, r3 := FirstWord(r2);
      var d, r4 := FirstWord(r3);
      assert Fields(r1) == [BLOB, size] && Fields(r2) == [size] && Fields(r3) == [];
      assert Leads(line, a, oid, r1) && Leads(r1, b, Ascii("blob"), r2) && Leads(r2, c, size, r3) && Blank(r3);
    }
  }

  /** A line is taken for a header exactly if it is three words, the second blob. */
  lemma IsHeaderExactly(line: Bytes)
    ensures IsHeader(line) <==> exists oid, size :: ThreeWords(line, oid, size)
  {
    hide Fields, ThreeWords;
    if IsHeader(line) {
      assert Fields(line) == [Fields(line)[0], BLOB, Fields(line)[2]];
      HeaderExactly(line, Fields(line)[0], Fields(line)[2]);
    }
    if oid, size :| ThreeWords(line, oid, size) {
      HeaderExactly(line, oid, size);
    }
  }

  lemma {:induction false} ParseBefore(entries: seq<Entry>, rest: Bytes, bodies: map<Bytes, Bytes>)
    requires forall e :: e in entries ==> WellFormed(e)
    ensures Parse(Batch(entries) + rest, bodies) == Parse(rest, Bodies(entries, bodies))
  {
    if entries == [] {
      assert Batch(entries) + rest == rest;
    } else {
      assert WellFormed(entries[0]) && forall e :: e in entries[1..] ==> e in entries;
      hide Parse, Record, WellFormed, Updated;
      ParseBefore(entries[1..], rest, Updated(bodies, entries[0]));
      ParseRecord(entries[0], Batch(entries[1..]) + rest, bodies);
      assert Batch(entries) + rest == Record(entries[0]) + (Batch(entries[1..]) + rest);
    }
  }

  lemma CutBody(oid: Bytes, size: nat, part: Bytes, bodies: map<Bytes, Bytes>)
    requires Token(oid) && |part| <= size
    ensures Parse(Header(oid, size) + ([LF] + part), bodies) == Success(bodies[oid := part])
  {
    var line := Header(oid, size);
    HeaderHasNoLf(oid, size);
    HeaderFields(oid, size);
    DecimalValue(size);
    LineParts(line, part);
    var buf := line + ([LF] + part);
    hide Header, Fields, Value, FindLf, IsDecimal, Parse, ParseBody, Decimal;
    ParseLine(buf, |line|, bodies);
    DigitsOf(size);
    CutParsed(part, oid, size, bodies);
  }

  lemma DigitsOf(size: nat)
    ensures IsDecimal(Decimal(size))
  {
  }

  lemma CutParsed(part: Bytes, oid: Bytes, size: nat, bodies: map<Bytes, Bytes>)
    requires |part| <= size
    ensures ParseBody(part, oid, size, bodies) == Success(bodies[oid := part])
  {
    if size == |part| { assert part[..size] == part; }
  }

  /** Output that breaks off in a body: what came of that body counts as all of it. */
  lemma BrokenOff(entries: seq<Entry>, oid: Bytes, size: nat, part: Bytes)
    requires (forall e :: e in entries ==> WellFormed(e)) && Token(oid) && |part| <= size
    ensures Parse(Batch(entries) + (Header(oid, size) + ([LF] + part)), map[])
            == Success(Bodies(entries, map[])[oid := part])
  {
    ParseBefore(entries, Header(oid, size) + ([LF] + part), map[]);
    CutBody(oid, size, part, Bodies(entries, map[]));
  }

  /** The bytes that split a header: tab to carriage return, the four separators of
      information, and the space. */
  lemma SpacesAre(b: byte)
    ensures IsSpace(b) <==> b in {9, 10, 11, 12, 13, 28, 29, 30, 31, 32}
  {
  }
}
