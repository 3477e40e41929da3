/** The distribution-tree identity: captured entries, their canonical wire
    format, and the record that carries the digest of that format. */
module TreeRecord {
  import opened Bytes
  import opened Wrappers

  type Digest = d: Bytes | |d| == 32 witness seq(32, _ => 0)
  /** SHA-256 stays abstract: any function to 32 raw bytes. */
  type Hash = Bytes -> Digest

  /** No two of the given byte strings collide.  This is asked only of the
      strings that a comparison actually hashes, never of all byte strings. */
  ghost predicate Separates(sha: Hash, inputs: set<Bytes>) {
    forall x, y :: x in inputs && y in inputs && sha(x) == sha(y) ==> x == y
  }

  const DOMAIN: Bytes := Ascii("vibecrafted.distribution-tree.v1") + [0]
  const KIND_DIR: Bytes := ['d' as int]
  const KIND_FILE: Bytes := ['f' as int]
  const KIND_LINK: Bytes := ['l' as int]

  const MODE_DIR: nat := 0x1ED   // 0o755
  const MODE_EXEC: nat := 0x1ED  // 0o755
  const MODE_PLAIN: nat := 0x1A4 // 0o644
  const MODE_LINK: nat := 0x1FF  // 0o777

  /** One captured entry: (path bytes, kind bytes, mode, payload). */
  datatype Entry = Entry(path: Bytes, kind: Bytes, mode: nat, payload: Bytes)

  datatype Record = Record(treeSha256: Digest, entryCount: nat)

  datatype RecordError =
    | NoEntries
    | DuplicatePaths
    | UnsupportedKind(kind: Bytes)
    | NoncanonicalEntry(entry: Entry)
    | LengthOverflow

  predicate SupportedKind(e: Entry) {
    e.kind == KIND_DIR || e.kind == KIND_FILE || e.kind == KIND_LINK
  }

  predicate CanonicalEntry(e: Entry) {
    && (e.kind == KIND_DIR ==> e.mode == MODE_DIR && e.payload == [])
    && (e.kind == KIND_FILE ==> (e.mode == MODE_PLAIN || e.mode == MODE_EXEC) && |e.payload| == 40)
    && (e.kind == KIND_LINK ==> e.mode == MODE_LINK)
  }

  /** The lengths fit the unsigned 8-byte fields. */
  predicate Fits(e: Entry) {
    |e.path| < Pow256(8) && |e.payload| < Pow256(8)
  }

  predicate Encodable(e: Entry) {
    SupportedKind(e) && CanonicalEntry(e) && Fits(e)
  }

  ghost predicate DistinctPaths(entries: seq<Entry>) {
    forall i, j :: 0 <= i < j < |entries| ==> entries[i].path != entries[j].path
  }

  /** The inputs for which a record exists. */
  ghost predicate Accepted(entries: seq<Entry>) {
    && entries != []
    && |entries| < Pow256(8)
    && DistinctPaths(entries)
    && forall e :: e in entries ==> Encodable(e)
  }

  // ---- sorted(entries, key=path): a stable insertion sort ----

  function Insert(e: Entry, sorted: seq<Entry>): (r: seq<Entry>)
    ensures multiset(r) == multiset(sorted) + multiset{e}
    ensures |r| == |sorted| + 1
  {
    if sorted == [] || !Less(sorted[0].path, e.path) then
      assert multiset([e] + sorted) == multiset{e} + multiset(sorted);
      [e] + sorted
    else
      assert sorted == [sorted[0]] + sorted[1..];
      [sorted[0]] + Insert(e, sorted[1..])
  }

  function SortByPath(entries: seq<Entry>): (r: seq<Entry>)
    ensures multiset(r) == multiset(entries)
    ensures |r| == |entries|
  {
    if entries == [] then []
    else
      assert entries == [entries[0]] + entries[1..];
      Insert(entries[0], SortByPath(entries[1..]))
  }

  ghost predicate StrictlySorted(entries: seq<Entry>) {
    forall i, j :: 0 <= i < j < |entries| ==> Less(entries[i].path, entries[j].path)
  }

  lemma {:induction false} InsertKeepsSorted(e: Entry, sorted: seq<Entry>)
    requires StrictlySorted(sorted)
    requires forall x :: x in sorted ==> x.path != e.path
    ensures StrictlySorted(Insert(e, sorted))
  {
    if sorted == [] {
    } else if !Less(sorted[0].path, e.path) {
      LessTrichotomy(sorted[0].path, e.path);
      forall j | 0 < j < |sorted| ensures Less(e.path, sorted[j].path) {
        LessTransitive(e.path, sorted[0].path, sorted[j].path);
      }
    } else {
      InsertKeepsSorted(e, sorted[1..]);
      var rest := Insert(e, sorted[1..]);
      forall j | 0 <= j < |rest| ensures Less(sorted[0].path, rest[j].path) {
        assert rest[j] in multiset(rest);
        assert rest[j] in multiset(sorted[1..]) + multiset{e};
        if rest[j] != e {
          assert rest[j] in sorted[1..];
        }
      }
    }
  }

  /** Equal multisets have the same members and, for entries, the same distinctness. */
  lemma DistinctIsOrderFree(a: seq<Entry>, b: seq<Entry>)
    requires multiset(a) == multiset(b) && DistinctPaths(a)
    ensures DistinctPaths(b)
    ensures |a| == |b|
    ensures forall e :: e in a <==> e in b
  {
    assert forall e :: e in a <==> e in multiset(a);
    assert forall e :: e in b <==> e in multiset(b);
    assert |a| == |multiset(a)| == |multiset(b)| == |b|;
    forall i, j | 0 <= i < j < |b| ensures b[i].path != b[j].path {
      if b[i].path == b[j].path {
        assert b[i] in a && b[j] in a;
        var x :| 0 <= x < |a| && a[x] == b[i];
        var y :| 0 <= y < |a| && a[y] == b[j];
        assert x == y;
        TwiceCounted(b, i, j);
        OnceCounted(a, x);
        assert false;
      }
    }
  }

  lemma TwiceCounted(s: seq<Entry>, i: int, j: int)
    requires 0 <= i < j < |s| && s[i] == s[j]
    ensures multiset(s)[s[i]] >= 2
  {
    assert s == s[..i] + [s[i]] + s[i + 1..j] + [s[j]] + s[j + 1..];
  }

  lemma OnceCounted(s: seq<Entry>, i: int)
    requires 0 <= i < |s| && DistinctPaths(s)
    ensures multiset(s)[s[i]] == 1
  {
    assert s == s[..i] + [s[i]] + s[i + 1..];
    assert s[i] !in s[..i] && s[i] !in s[i + 1..];
  }

  lemma {:induction false} SortIsSorted(entries: seq<Entry>)
    requires DistinctPaths(entries)
    ensures StrictlySorted(SortByPath(entries))
  {
    if entries != [] {
      var rest := SortByPath(entries[1..]);
      SortIsSorted(entries[1..]);
      forall x | x in rest ensures x.path != entries[0].path {
        assert x in multiset(rest);
        assert x in entries[1..];
      }
      InsertKeepsSorted(entries[0], rest);
    }
  }

  lemma SortedHeadsAgree(a: seq<Entry>, b: seq<Entry>)
    requires StrictlySorted(a) && StrictlySorted(b) && a != [] && b != []
    requires a[0] in b && b[0] in a
    ensures a[0] == b[0]
  {
    if a[0] != b[0] {
      var i :| 0 <= i < |b| && b[i] == a[0];
      var j :| 0 <= j < |a| && a[j] == b[0];
      LessTrichotomy(a[0].path, b[0].path);
      assert false;
    }
  }

  /** A strictly sorted arrangement of given entries is unique. */
  lemma {:induction false} SortedIsUnique(a: seq<Entry>, b: seq<Entry>)
    requires StrictlySorted(a) && StrictlySorted(b) && multiset(a) == multiset(b)
    ensures a == b
  {
    assert |a| == |multiset(a)| == |multiset(b)| == |b|;
    if a != [] {
      assert a[0] in multiset(a) && b[0] in multiset(b);
      assert a[0] in b && b[0] in a;
      SortedHeadsAgree(a, b);
      TailMultiset(a);
      TailMultiset(b);
      SortedIsUnique(a[1..], b[1..]);
      assert a == [a[0]] + a[1..] == b;
    }
  }

  lemma TailMultiset(s: seq<Entry>)
    requires s != []
    ensures multiset(s[1..]) == multiset(s) - multiset{s[0]}
  {
    assert s == [s[0]] + s[1..];
  }

  // ---- the wire format ----

  function Field(data: Bytes): (b: Bytes)
    requires |data| < Pow256(8)
  {
    BigEndian(|data|, 8) + data
  }

  function EntryWire(e: Entry): Bytes
    requires Encodable(e)
  {
    e.kind + Field(e.path) + BigEndian(ModeFits(e), 4) + Field(e.payload)
  }

  function ModeFits(e: Entry): (m: nat)
    requires Encodable(e)
    ensures m == e.mode && m < Pow256(4)
  {
    assert Pow256(2) == 65536 && Pow256(4) > Pow256(2);
    e.mode
  }

  function EntriesWire(ordered: seq<Entry>): Bytes
    requires forall e :: e in ordered ==> Encodable(e)
  {
    if ordered == [] then [] else EntryWire(ordered[0]) + EntriesWire(ordered[1..])
  }

  function Wire(ordered: seq<Entry>): Bytes
    requires |ordered| < Pow256(8)
    requires forall e :: e in ordered ==> Encodable(e)
  {
    DOMAIN + BigEndian(|ordered|, 8) + EntriesWire(ordered)
  }

  lemma {:induction false} EntriesWireSnoc(ordered: seq<Entry>, e: Entry)
    requires forall x :: x in ordered ==> Encodable(x)
    requires Encodable(e)
    ensures EntriesWire(ordered + [e]) == EntriesWire(ordered) + EntryWire(e)
  {
    hide EntryWire;
    if ordered == [] {
      assert [e][1..] == [];
    } else {
      EntriesWireSnoc(ordered[1..], e);
      assert (ordered + [e])[1..] == ordered[1..] + [e];
    }
  }

  // ---- a decoder, independent of the encoder ----

  function TakeField(s: Bytes): (r: Option<(Bytes, Bytes)>) {
    if |s| < 8 then None
    else
      var n := FromBigEndian(s[..8]);
      if |s| < 8 + n then None else Some((s[8..8 + n], s[8 + n..]))
  }

  function TakeMode(s: Bytes): (r: Option<(nat, Bytes)>) {
    if |s| < 4 then None else Some((FromBigEndian(s[..4]), s[4..]))
  }

  function DecodeEntry(s: Bytes): (r: Option<(Entry, Bytes)>)
    ensures r.Some? ==> |r.value.1| < |s|
  {
    if s == [] then None
    else match TakeField(s[1..])
      case None => None
      case Some((path, afterPath)) =>
        match TakeMode(afterPath)
          case None => None
          case Some((mode, afterMode)) =>
            match TakeField(afterMode)
              case None => None
              case Some((payload, rest)) => Some((Entry(path, s[..1], mode, payload), rest))
  }

  function DecodeEntries(count: nat, s: Bytes): (r: Option<seq<Entry>>) {
    if count == 0 then if s == [] then Some([]) else None
    else match DecodeEntry(s)
      case None => None
      case Some((e, rest)) =>
        match DecodeEntries(count - 1, rest)
          case None => None
          case Some(tail) => Some([e] + tail)
  }

  function DecodeTree(stream: Bytes): (r: Option<seq<Entry>>) {
    if |stream| < |DOMAIN| + 8 || stream[..|DOMAIN|] != DOMAIN then None
    else
      DecodeEntries(FromBigEndian(stream[|DOMAIN|..|DOMAIN| + 8]), stream[|DOMAIN| + 8..])
  }

  lemma FieldRoundTrip(data: Bytes, rest: Bytes)
    requires |data| < Pow256(8)
    ensures TakeField(Field(data) + rest) == Some((data, rest))
  {
    var s := Field(data) + rest;
    BigEndianRoundTrip(|data|, 8);
    assert s[..8] == BigEndian(|data|, 8);
    assert s[8..8 + |data|] == data;
    assert s[8 + |data|..] == rest;
  }

  lemma ModeRoundTrip(mode: nat, rest: Bytes)
    requires mode < Pow256(4)
    ensures TakeMode(BigEndian(mode, 4) + rest) == Some((mode, rest))
  {
    var s := BigEndian(mode, 4) + rest;
    BigEndianRoundTrip(mode, 4);
    assert s[..4] == BigEndian(mode, 4);
    assert s[4..] == rest;
  }

  lemma EntryRoundTrip(e: Entry, rest: Bytes)
    requires Encodable(e)
    ensures DecodeEntry(EntryWire(e) + rest) == Some((e, rest))
  {
    hide BigEndian, FromBigEndian, Pow256, TakeField, TakeMode, Field;
    var s := EntryWire(e) + rest;
    var afterMode := Field(e.payload) + rest;
    var afterPath := BigEndian(ModeFits(e), 4) + afterMode;
    FieldRoundTrip(e.payload, rest);
    ModeRoundTrip(ModeFits(e), afterMode);
    FieldRoundTrip(e.path, afterPath);
    assert s == e.kind + (Field(e.path) + afterPath);
    assert s[1..] == Field(e.path) + afterPath;
    assert s[..1] == e.kind;
  }

  lemma DecodeStep(count: nat, s: Bytes, e: Entry, rest: Bytes, tail: seq<Entry>)
    requires count > 0 && DecodeEntry(s) == Some((e, rest))
    requires DecodeEntries(count - 1, rest) == Some(tail)
    ensures DecodeEntries(count, s) == Some([e] + tail)
  {
  }

  lemma {:induction false} EntriesRoundTrip(ordered: seq<Entry>)
    requires forall e :: e in ordered ==> Encodable(e)
    ensures DecodeEntries(|ordered|, EntriesWire(ordered)) == Some(ordered)
  {
    if ordered != [] {
      var rest := ordered[1..];
      var s := EntriesWire(rest);
      EntriesRoundTrip(rest);
      EntryRoundTrip(ordered[0], s);
      DecodeStep(|ordered|, EntryWire(ordered[0]) + s, ordered[0], s, rest);
      assert ordered == [ordered[0]] + rest;
    }
  }

  /** The decoder recovers the ordered entries from the byte stream. */
  lemma DecodeInvertsWire(ordered: seq<Entry>)
    requires |ordered| < Pow256(8)
    requires forall e :: e in ordered ==> Encodable(e)
    ensures DecodeTree(Wire(ordered)) == Some(ordered)
  {
    var stream := Wire(ordered);
    var n := |DOMAIN|;
    assert stream[..n] == DOMAIN;
    assert stream[n..n + 8] == BigEndian(|ordered|, 8);
    assert stream[n + 8..] == EntriesWire(ordered);
    BigEndianRoundTrip(|ordered|, 8);
    EntriesRoundTrip(ordered);
  }

  // ---- the record ----

  ghost function StreamOf(entries: seq<Entry>): Bytes
    requires Accepted(entries)
  {
    SortedEncodable(entries);
    Wire(SortByPath(entries))
  }

  lemma SortedEncodable(entries: seq<Entry>)
    ensures forall e :: e in SortByPath(entries) <==> e in entries
  {
    assert forall e :: e in SortByPath(entries) <==> e in multiset(SortByPath(entries));
  }

  ghost function RecordOf(sha: Hash, entries: seq<Entry>): Record
    requires Accepted(entries)
  {
    Record(sha(StreamOf(entries)), |entries|)
  }

  function PathSet(s: seq<Entry>): set<Bytes> {
    set e | e in s :: e.path
  }

  lemma PathSetStep(s: seq<Entry>)
    requires s != []
    ensures PathSet(s) == PathSet(s[1..]) + {s[0].path}
    ensures DistinctPaths(s) <==> DistinctPaths(s[1..]) && s[0].path !in PathSet(s[1..])
  {
    DistinctStep(s);
    hide DistinctPaths;
    assert s == [s[0]] + s[1..];
  }

  lemma DistinctStep(s: seq<Entry>)
    requires s != []
    ensures DistinctPaths(s) <==> DistinctPaths(s[1..]) && s[0].path !in PathSet(s[1..])
  {
    var rest := s[1..];
    assert forall k :: 0 <= k < |rest| ==> rest[k] in rest && s[k + 1] == rest[k];
    if s[0].path in PathSet(rest) {
      var e :| e in rest && e.path == s[0].path;
      var k :| 0 <= k < |rest| && rest[k] == e;
      assert s[0].path == s[k + 1].path;
    }
  }

  lemma {:induction false} SetSizeMeansDistinct(s: seq<Entry>)
    ensures |PathSet(s)| <= |s|
    ensures |PathSet(s)| == |s| <==> DistinctPaths(s)
  {
    if s != [] {
      PathSetStep(s);
      SetSizeMeansDistinct(s[1..]);
      if s[0].path in PathSet(s[1..]) {
        assert PathSet(s) == PathSet(s[1..]);
      }
    }
  }

  lemma DistinctnessOfSorted(entries: seq<Entry>)
    ensures DistinctPaths(SortByPath(entries)) <==> DistinctPaths(entries)
  {
    var ordered := SortByPath(entries);
    if DistinctPaths(ordered) {
      DistinctIsOrderFree(ordered, entries);
    } else if DistinctPaths(entries) {
      DistinctIsOrderFree(entries, ordered);
    }
  }

  /** Feeding the six fields one by one appends exactly the entry's wire form. */
  method DigestEntry(before: Bytes, e: Entry) returns (stream: Bytes)
    requires Encodable(e)
    ensures stream == before + EntryWire(e)
  {
    hide BigEndian, Pow256;
    stream := before + e.kind;
    stream := stream + BigEndian(|e.path|, 8);
    stream := stream + e.path;
    stream := stream + BigEndian(ModeFits(e), 4);
    stream := stream + BigEndian(|e.payload|, 8);
    stream := stream + e.payload;
  }

  predicate AllEncodable(s: seq<Entry>) {
    forall e :: e in s ==> Encodable(e)
  }

  /** _distribution_tree_record_from_entries. */
  method RecordFromEntries(sha: Hash, entries: seq<Entry>) returns (r: Result<Record, RecordError>)
    ensures r.Success? <==> Accepted(entries)
    ensures r.Success? ==> r.value == RecordOf(sha, entries)
    ensures r == Failure(NoEntries) <==> entries == []
    ensures r == Failure(DuplicatePaths) <==> entries != [] && !DistinctPaths(entries)
  {
    var ordered := SortByPath(entries);
    if ordered == [] {
      return Failure(NoEntries);
    }
    var paths := PathSet(ordered);
    SetSizeMeansDistinct(ordered);
    DistinctnessOfSorted(entries);
    if |ordered| != |paths| {
      return Failure(DuplicatePaths);
    }
    if |ordered| >= Pow256(8) {
      return Failure(LengthOverflow);
    }
    SortedEncodable(entries);
    r := DigestOrdered(sha, ordered);
  }

  /** The digest loop over the ordered entries. */
  method DigestOrdered(sha: Hash, ordered: seq<Entry>) returns (r: Result<Record, RecordError>)
    requires |ordered| < Pow256(8)
    ensures r.Success? <==> AllEncodable(ordered)
    ensures r.Success? ==> r.value == Record(sha(Wire(ordered)), |ordered|)
    ensures r != Failure(NoEntries) && r != Failure(DuplicatePaths)
  {
    hide EntryWire, BigEndian;
    var stream := DOMAIN;
    stream := stream + BigEndian(|ordered|, 8);
    ghost var head := stream;
    var i := 0;
    while i < |ordered|
      invariant 0 <= i <= |ordered|
      invariant AllEncodable(ordered[..i])
      invariant stream == head + EntriesWire(ordered[..i])
    {
      var e := ordered[i];
      assert e in ordered;
      if !SupportedKind(e) {
        return Failure(UnsupportedKind(e.kind));
      }
      if !CanonicalEntry(e) {
        return Failure(NoncanonicalEntry(e));
      }
      if !Fits(e) {
        return Failure(LengthOverflow);
      }
      assert ordered[..i + 1] == ordered[..i] + [e];
      EntriesWireSnoc(ordered[..i], e);
      stream := DigestEntry(stream, e);
      i := i + 1;
    }
    assert ordered[..i] == ordered;
    r := Success(Record(sha(stream), |ordered|));
  }

  /** Two accepted inputs give the same byte stream exactly when they hold the
      same entries, in whatever order each arrived. */
  lemma StreamIsCanonical(a: seq<Entry>, b: seq<Entry>)
    requires Accepted(a) && Accepted(b)
    ensures StreamOf(a) == StreamOf(b) <==> multiset(a) == multiset(b)
  {
    var x, y := SortByPath(a), SortByPath(b);
    SortedEncodable(a);
    SortedEncodable(b);
    if StreamOf(a) == StreamOf(b) {
      DecodeInvertsWire(x);
      DecodeInvertsWire(y);
      assert multiset(x) == multiset(y);
    }
    if multiset(a) == multiset(b) {
      SortIsSorted(a);
      SortIsSorted(b);
      SortedIsUnique(x, y);
    }
  }

  /** Equal records identify equal entries, unless the two streams collide. */
  lemma RecordIdentifiesEntries(sha: Hash, a: seq<Entry>, b: seq<Entry>)
    requires Accepted(a) && Accepted(b)
    requires Separates(sha, {StreamOf(a), StreamOf(b)})
    ensures RecordOf(sha, a) == RecordOf(sha, b) <==> multiset(a) == multiset(b)
  {
    StreamIsCanonical(a, b);
    if multiset(a) == multiset(b) {
      DistinctIsOrderFree(a, b);
    }
  }
}
