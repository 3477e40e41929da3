/** The reader of `git cat-file --batch` output, and the format it inverts. */
module BatchBlobs {
  import opened Bytes
  import opened Decimals
  import opened Wrappers

  const LF: byte := 10
  const SPACE: byte := 32
  const BLOB: Bytes := [98, 108, 111, 98]

  predicate IsSpace(b: byte) { 9 <= b <= 13 || 28 <= b <= 32 }

  predicate Token(t: Bytes) {
    t != [] && forall i :: 0 <= i < |t| ==> !IsSpace(t[i])
  }

  /** The length of the token at the front. */
  function TokenLength(s: Bytes): (n: nat)
    ensures n <= |s| && (s != [] && !IsSpace(s[0]) ==> n > 0)
  {
    if s == [] || IsSpace(s[0]) then 0 else 1 + TokenLength(s[1..])
  }

  /** header.split() */
  function Fields(s: Bytes): seq<Bytes> {
    if s == [] then []
    else if IsSpace(s[0]) then Fields(s[1..])
    else [s[..TokenLength(s)]] + Fields(s[TokenLength(s)..])
  }

  predicate IsDecimal(d: Bytes) {
    d != [] && AllDigits(d)
  }

  /** The position of the first line feed, or the length of the input. */
  function FindLf(s: Bytes): (n: nat)
    ensures n <= |s|
  {
    if s == [] || s[0] == LF then 0 else 1 + FindLf(s[1..])
  }

  datatype BatchError = BadSize(text: Bytes)

  predicate IsHeader(line: Bytes) {
    |Fields(line)| == 3 && Fields(line)[1] == BLOB
  }

  /** What the loop computes from the rest of the output. */
  function Parse(buf: Bytes, bodies: map<Bytes, Bytes>): Result<map<Bytes, Bytes>, BatchError>
    decreases |buf|
  {
    var eol := FindLf(buf);
    if eol == |buf| then Success(bodies)
    else if !IsHeader(buf[..eol]) then Parse(buf[eol + 1..], bodies)
    else
      var (oid, text) := (Fields(buf[..eol])[0], Fields(buf[..eol])[2]);
      if !IsDecimal(text) then Failure(BadSize(text))
      else ParseBody(buf[eol + 1..], oid, Value(text, 0), bodies)
  }

  /** What follows a header: the body, one more byte, and the rest. */
  function ParseBody(rest: Bytes, oid: Bytes, size: nat, bodies: map<Bytes, Bytes>): Result<map<Bytes, Bytes>, BatchError>
    decreases |rest|, 1
  {
    if size + 1 > |rest| then Success(bodies[oid := if size <= |rest| then rest[..size] else rest])
    else Parse(rest[size + 1..], bodies[oid := rest[..size]])
  }

  // ---- the format ----

  /** A blob, or any other line, such as the report of a missing object. */
  datatype Entry = Blob(oid: Bytes, body: Bytes) | Other(line: Bytes)

  predicate WellFormed(e: Entry) {
    match e
    case Blob(oid, _) => Token(oid)
    case Other(line) => LF !in line && !IsHeader(line)
  }

  function Header(oid: Bytes, size: nat): Bytes { oid + [SPACE] + BLOB + [SPACE] + Decimal(size) }

  function Record(e: Entry): Bytes {
    match e
    case Blob(oid, body) => Header(oid, |body|) + [LF] + body + [LF]
    case Other(line) => line + [LF]
  }

  function Batch(entries: seq<Entry>): Bytes {
    if entries == [] then [] else Record(entries[0]) + Batch(entries[1..])
  }

  /** The bodies by object id; the last of two records of one object counts. */
  function Bodies(entries: seq<Entry>, bodies: map<Bytes, Bytes>): map<Bytes, Bytes> {
    if entries == [] then bodies
    else Bodies(entries[1..], Updated(bodies, entries[0]))
  }

  // ---- the reader inverts the format ----

  lemma {:induction false} TokenLengthOf(t: Bytes, rest: Bytes)
    requires Token(t) && (rest == [] || IsSpace(rest[0]))
    ensures TokenLength(t + rest) == |t|
  {
    assert (t + rest)[1..] == t[1..] + rest;
    if |t| > 1 {
      TokenLengthOf(t[1..], rest);
    } else {
      assert t[1..] + rest == rest;
    }
  }

  lemma FieldsOf(t: Bytes, rest: Bytes)
    requires Token(t) && (rest == [] || IsSpace(rest[0]))
    ensures Fields(t + rest) == [t] + Fields(rest)
  {
    TokenLengthOf(t, rest);
    assert (t + rest)[..|t|] == t && (t + rest)[|t|..] == rest;
  }

  lemma FieldsAfterSpace(rest: Bytes)
    ensures Fields([SPACE] + rest) == Fields(rest)
  {
    assert ([SPACE] + rest)[1..] == rest;
  }

  lemma HeaderFields(oid: Bytes, size: nat)
    requires Token(oid)
    ensures Fields(Header(oid, size)) == [oid, BLOB, Decimal(size)]
  {
    var d := Decimal(size);
    assert Token(d) && Token(BLOB);
    var second := BLOB + ([SPACE] + d);
    assert Header(oid, size) == oid + ([SPACE] + second);
    assert d + [] == d && Fields([]) == [];
    hide Fields, Header, Decimal;
    FieldsOf(oid, [SPACE] + second);
    FieldsAfterSpace(second);
    FieldsOf(BLOB, [SPACE] + d);
    FieldsAfterSpace(d);
    FieldsOf(d, []);
    assert [oid] + ([BLOB] + ([d] + [])) == [oid, BLOB, d];
  }

  lemma HeaderHasNoLf(oid: Bytes, size: nat)
    requires Token(oid)
    ensures LF !in Header(oid, size)
  {
    var d := Decimal(size);
    assert forall i :: 0 <= i < |d| ==> d[i] != LF;
  }

  lemma {:induction false} FindLfAfter(line: Bytes, rest: Bytes)
    requires LF !in line
    ensures FindLf(line + ([LF] + rest)) == |line|
  {
    if line != [] {
      assert line[0] in line && forall b :: b in line[1..] ==> b in line;
      FindLfAfter(line[1..], rest);
      assert (line + ([LF] + rest))[1..] == line[1..] + ([LF] + rest);
    }
  }

  lemma LineParts(line: Bytes, rest: Bytes)
    requires LF !in line
    ensures var buf := line + ([LF] + rest);
            FindLf(buf) == |line| < |buf| && buf[..|line|] == line && buf[|line| + 1..] == rest
  {
    FindLfAfter(line, rest);
  }

  lemma ParseOther(line: Bytes, rest: Bytes, bodies: map<Bytes, Bytes>)
    requires LF !in line && !IsHeader(line)
    ensures Parse(line + ([LF] + rest), bodies) == Parse(rest, bodies)
  {
    LineParts(line, rest);
    hide IsHeader;
  }

  lemma BodyParts(body: Bytes, rest: Bytes)
    ensures var after := body + ([LF] + rest);
            |body| + 1 <= |after| && after[..|body|] == body && after[|body| + 1..] == rest
  {
  }

  lemma ParseBlob(oid: Bytes, body: Bytes, rest: Bytes, bodies: map<Bytes, Bytes>)
    requires Token(oid)
    ensures Parse(Header(oid, |body|) + ([LF] + (body + ([LF] + rest))), bodies) == Parse(rest, bodies[oid := body])
  {
    var line, after := Header(oid, |body|), body + ([LF] + rest);
    HeaderHasNoLf(oid, |body|);
    HeaderFields(oid, |body|);
    DecimalValue(|body|);
    LineParts(line, after);
    BodyParts(body, rest);
    ParseHeader(line + ([LF] + after), bodies, |line|, |body|);
  }

  /** One blob record at the front of the output. */
  lemma ParseHeader(buf: Bytes, bodies: map<Bytes, Bytes>, eol: nat, size: nat)
    requires FindLf(buf) == eol < |buf| && IsHeader(buf[..eol])
    requires var text := Fields(buf[..eol])[2]; IsDecimal(text) && Value(text, 0) == size
    requires size + 1 <= |buf[eol + 1..]|
    ensures Parse(buf, bodies) ==
            Parse(buf[eol + 1..][size + 1..], bodies[Fields(buf[..eol])[0] := buf[eol + 1..][..size]])
  {
    assert Parse(buf, bodies) == ParseBody(buf[eol + 1..], Fields(buf[..eol])[0], size, bodies);
    hide Fields, Value, FindLf, IsDecimal, IsHeader;
  }

  function Updated(bodies: map<Bytes, Bytes>, e: Entry): map<Bytes, Bytes> {
    if e.Blob? then bodies[e.oid := e.body] else bodies
  }

  lemma ParseRecord(e: Entry, rest: Bytes, bodies: map<Bytes, Bytes>)
    requires WellFormed(e)
    ensures Parse(Record(e) + rest, bodies) == Parse(rest, Updated(bodies, e))
  {
    hide Parse, Header, IsHeader, Token;
    match e
    case Blob(oid, body) =>
      RecordParts(Header(oid, |body|), body, rest);
      ParseBlob(oid, body, rest, bodies);
    case Other(line) =>
      assert Record(e) + rest == line + ([LF] + rest);
      ParseOther(line, rest, bodies);
  }

  lemma RecordParts(header: Bytes, body: Bytes, rest: Bytes)
    ensures (header + [LF] + body + [LF]) + rest == header + ([LF] + (body + ([LF] + rest)))
  {
  }

  /** Any sequence of records, with arbitrary bodies, is read back exactly. */
  lemma {:induction false} ParseInvertsBatch(entries: seq<Entry>, bodies: map<Bytes, Bytes>)
    requires forall e :: e in entries ==> WellFormed(e)
    ensures Parse(Batch(entries), bodies) == Success(Bodies(entries, bodies))
  {
    if entries == [] {
      assert FindLf([]) == 0;
    } else {
      assert WellFormed(entries[0]) && forall e :: e in entries[1..] ==> e in entries;
      hide Parse, Record, WellFormed;
      ParseInvertsBatch(entries[1..], Updated(bodies, entries[0]));
      ParseRecord(entries[0], Batch(entries[1..]), bodies);
    }
  }

  // ---- the loop ----

  function Rest(buf: Bytes, pos: nat, bodies: map<Bytes, Bytes>): Result<map<Bytes, Bytes>, BatchError> {
    if pos < |buf| then Parse(buf[pos..], bodies) else Success(bodies)
  }

  lemma RestIsParse(buf: Bytes, pos: nat, bodies: map<Bytes, Bytes>)
    requires pos <= |buf|
    ensures Rest(buf, pos, bodies) == Parse(buf[pos..], bodies)
  {
    assert pos == |buf| ==> FindLf(buf[pos..]) == 0;
  }

  function Slice(buf: Bytes, pos: nat, size: nat): Bytes
    requires pos <= |buf|
  {
    buf[pos..if pos + size <= |buf| then pos + size else |buf|]
  }

  lemma BodyAt(buf: Bytes, pos: nat, oid: Bytes, size: nat, bodies: map<Bytes, Bytes>)
    requires pos <= |buf|
    ensures ParseBody(buf[pos..], oid, size, bodies) == Rest(buf, pos + size + 1, bodies[oid := Slice(buf, pos, size)])
  {
    var rest := buf[pos..];
    assert Slice(buf, pos, size) == if size <= |rest| then rest[..size] else rest;
    if size + 1 <= |rest| {
      assert rest[size + 1..] == buf[pos + size + 1..];
      RestIsParse(buf, pos + size + 1, bodies[oid := Slice(buf, pos, size)]);
    }
    hide Parse;
  }

  /** One line of Parse. */
  lemma ParseLine(s: Bytes, k: nat, bodies: map<Bytes, Bytes>)
    requires k == FindLf(s)
    ensures k == |s| ==> Parse(s, bodies) == Success(bodies)
    ensures k < |s| ==>
              var header := Fields(s[..k]);
              Parse(s, bodies) ==
              if |header| != 3 || header[1] != BLOB then Parse(s[k + 1..], bodies)
              else if !IsDecimal(header[2]) then Failure(BadSize(header[2]))
              else ParseBody(s[k + 1..], header[0], Value(header[2], 0), bodies)
  {
    hide Fields, Value, FindLf, IsDecimal, ParseBody, BLOB;
  }

  /** Parse from a position of the whole output, case by case. */
  lemma ParseAt(buf: Bytes, pos: nat, eol: nat, bodies: map<Bytes, Bytes>)
    requires pos < |buf| && eol == pos + FindLf(buf[pos..])
    ensures eol == |buf| ==> Rest(buf, pos, bodies) == Success(bodies)
    ensures eol < |buf| ==>
              var header := Fields(buf[pos..eol]);
              Rest(buf, pos, bodies) ==
              if |header| != 3 || header[1] != BLOB then Rest(buf, eol + 1, bodies)
              else if !IsDecimal(header[2]) then Failure(BadSize(header[2]))
              else
                var size := Value(header[2], 0);
                Rest(buf, eol + 1 + size + 1, bodies[header[0] := Slice(buf, eol + 1, size)])
  {
    DecimalsAreDigits();
    hide *;
    RestIsParse(buf, pos, bodies);
    ParseLine(buf[pos..], eol - pos, bodies);
    if eol < |buf| {
      LineAt(buf, pos, eol);
      RestIsParse(buf, eol + 1, bodies);
      var header := Fields(buf[pos..eol]);
      if |header| == 3 && IsDecimal(header[2]) {
        BodyAt(buf, eol + 1, header[0], Value(header[2], 0), bodies);
      }
    }
  }

  lemma LineAt(buf: Bytes, pos: nat, eol: nat)
    requires pos <= eol < |buf|
    ensures buf[pos..][..eol - pos] == buf[pos..eol] && buf[pos..][eol - pos + 1..] == buf[eol + 1..]
  {
  }

  /** _read_blobs, from the output of the process on: it ends on any output. */
  method ReadBlobs(buf: Bytes) returns (r: Result<map<Bytes, Bytes>, BatchError>)
    ensures r == Parse(buf, map[])
  {
    var bodies: map<Bytes, Bytes> := map[];
    var pos := 0;
    RestIsParse(buf, 0, bodies);
    assert buf[0..] == buf;
    RestEnds(buf);
    DecimalsAreDigits();
    hide *;
    while pos < |buf|
      invariant 0 <= pos
      invariant Parse(buf, map[]) == Rest(buf, pos, bodies)
    {
      var eol := pos + FindLf(buf[pos..]);
      ParseAt(buf, pos, eol, bodies);
      if eol == |buf| { return Success(bodies); }
      var header := Fields(buf[pos..eol]);
      pos := eol + 1;
      if |header| != 3 || header[1] != BLOB { continue; }
      if !IsDecimal(header[2]) { return Failure(BadSize(header[2])); }
      var size := Value(header[2], 0);
      bodies := bodies[header[0] := Slice(buf, pos, size)];
      pos := pos + size + 1;
    }
    r := Success(bodies);
  }

  lemma RestEnds(buf: Bytes)
    ensures forall pos: nat, bodies :: pos >= |buf| ==> Rest(buf, pos, bodies) == Success(bodies)
  {
  }

  lemma DecimalsAreDigits()
    ensures forall d :: IsDecimal(d) ==> AllDigits(d)
  {
  }
}
