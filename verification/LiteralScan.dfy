/** The payload scan: counting forbidden literals in a file read in pieces, and
    the verdict on a whole payload. */
module LiteralScan {
  import opened Bytes
  import opened Occurrences
  import opened Wrappers

  ghost predicate AllNonEmpty(parts: seq<Bytes>) {
    forall p :: p in parts ==> p != []
  }

  function Flat(chunks: seq<Bytes>): Bytes {
    if chunks == [] then [] else Flat(chunks[..|chunks| - 1]) + chunks[|chunks| - 1]
  }

  /** The last overlap bytes of s, or all of it. */
  function Tail(s: Bytes, overlap: nat): (t: Bytes)
    ensures |t| <= |s| && s[|s| - |t|..] == t && (|t| == overlap || t == s)
  {
    if |s| <= overlap then s else s[|s| - overlap..]
  }

  /** max(len(n) for n in needles) - 1 */
  function Overlap(needles: seq<Bytes>): (overlap: nat)
    requires AllNonEmpty(needles)
    ensures forall n :: n in needles ==> |n| <= overlap + 1
    ensures needles != [] ==> exists n :: n in needles && |n| == overlap + 1
  {
    if needles == [] then 0
    else
      var last := needles[|needles| - 1];
      var before := needles[..|needles| - 1];
      assert needles == before + [last];
      assert forall n :: n in before ==> n in needles;
      var rest := Overlap(before);
      assert last in needles;
      if |last| > rest + 1 then |last| - 1 else rest
  }

  function Window(chunks: seq<Bytes>, overlap: nat): Bytes
    requires chunks != []
  {
    Tail(Flat(chunks[..|chunks| - 1]), overlap) + chunks[|chunks| - 1]
  }

  /** The hits of one needle over all windows. */
  function Hits(chunks: seq<Bytes>, overlap: nat, n: Bytes): nat
    requires n != []
  {
    if chunks == [] then 0 else Hits(chunks[..|chunks| - 1], overlap, n) + Count(Window(chunks, overlap), n)
  }

  /** The occurrences inside the carried tails, which are seen twice. */
  function Recounted(chunks: seq<Bytes>, overlap: nat, n: Bytes): nat {
    if chunks == [] then 0
    else
      var before := chunks[..|chunks| - 1];
      Recounted(before, overlap, n) + Positions(Tail(Flat(before), overlap), n)
  }

  // ---- the windows together see what the whole file holds ----

  lemma NothingInEmpty(n: Bytes)
    requires n != []
    ensures Positions([], n) == 0
  {
  }

  lemma WindowSees(chunks: seq<Bytes>, overlap: nat, n: Bytes)
    requires chunks != [] && 0 < |n| <= overlap + 1
    ensures var before := Flat(chunks[..|chunks| - 1]);
            Positions(Flat(chunks), n) - Positions(before, n)
            == Positions(Window(chunks, overlap), n) - Positions(Tail(before, overlap), n)
  {
    var before := Flat(chunks[..|chunks| - 1]);
    NewPositions(before, Tail(before, overlap), chunks[|chunks| - 1], n);
  }

  /** A short tail holds no needle of the full length. */
  lemma ShortTailHoldsNone(s: Bytes, n: Bytes)
    requires |s| < |n|
    ensures Positions(s, n) == 0
  {
  }

  lemma {:induction false} PositionsGrow(s: Bytes, c: Bytes, n: Bytes)
    requires n != []
    ensures Positions(s + c, n) >= Positions(s, n)
  {
    if |s| >= |n| {
      PositionsGrow(s[1..], c, n);
      assert (s + c)[1..] == s[1..] + c && (s + c)[..|n|] == s[..|n|];
    }
  }

  /** A needle is hit exactly when the whole file holds it, however it was cut. */
  lemma {:induction false} HitsFindTheNeedle(chunks: seq<Bytes>, overlap: nat, n: Bytes)
    requires 0 < |n| <= overlap + 1
    ensures Hits(chunks, overlap, n) > 0 <==> Occurs(Flat(chunks), n)
  {
    if chunks == [] {
      CountFindsOccurrences([], n);
    } else {
      var before := chunks[..|chunks| - 1];
      HitsFindTheNeedle(before, overlap, n);
      WindowSees(chunks, overlap, n);
      CountFindsOccurrences(Flat(chunks), n);
      CountFindsOccurrences(Flat(before), n);
      CountFindsOccurrences(Window(chunks, overlap), n);
      TailPositions(Flat(before), overlap, n);
      PositionsGrow(Tail(Flat(before), overlap), chunks[|chunks| - 1], n);
      hide Count, Positions, Occurs, Tail, Window;
    }
  }

  lemma {:induction false} TailPositions(s: Bytes, overlap: nat, n: Bytes)
    ensures Positions(Tail(s, overlap), n) <= Positions(s, n)
  {
    if |s| > overlap {
      TailPositions(s[1..], overlap, n);
      assert Tail(s, overlap) == Tail(s[1..], overlap);
    }
  }

  /** For a needle without self-overlap the hits are the occurrences of the whole
      file, plus those that lie wholly inside a carried tail. */
  lemma {:induction false} HitsCountThePositions(chunks: seq<Bytes>, overlap: nat, n: Bytes)
    requires 0 < |n| <= overlap + 1 && Borderless(n)
    ensures Hits(chunks, overlap, n) == Positions(Flat(chunks), n) + Recounted(chunks, overlap, n)
  {
    if chunks == [] {
      NothingInEmpty(n);
    } else {
      HitsCountThePositions(chunks[..|chunks| - 1], overlap, n);
      WindowSees(chunks, overlap, n);
      BorderlessCount(Window(chunks, overlap), n);
      hide Count, Positions, Tail, Window, Borderless;
    }
  }

  lemma {:induction false} LongestNotRecounted(chunks: seq<Bytes>, overlap: nat, n: Bytes)
    requires |n| == overlap + 1
    ensures Recounted(chunks, overlap, n) == 0
  {
    if chunks != [] {
      LongestNotRecounted(chunks[..|chunks| - 1], overlap, n);
      ShortTailHoldsNone(Tail(Flat(chunks[..|chunks| - 1]), overlap), n);
    }
  }

  /** The longest needle is counted exactly. */
  lemma LongestNeedleExact(chunks: seq<Bytes>, overlap: nat, n: Bytes)
    requires |n| == overlap + 1 && Borderless(n)
    ensures Hits(chunks, overlap, n) == Positions(Flat(chunks), n)
  {
    HitsCountThePositions(chunks, overlap, n);
    LongestNotRecounted(chunks, overlap, n);
  }

  // ---- exactly when counting is exact ----

  /** However the file is cut, the hits are the positions in the whole file. */
  ghost predicate CountsExactly(overlap: nat, n: Bytes)
    requires n != []
  {
    forall chunks :: AllNonEmpty(chunks) ==> Hits(chunks, overlap, n) == Positions(Flat(chunks), n)
  }

  /** Counting is exact for the longest needles that do not overlap themselves,
      and for no others. */
  lemma ExactlyTheLongestBorderless(overlap: nat, n: Bytes)
    requires 0 < |n| <= overlap + 1
    ensures CountsExactly(overlap, n) <==> |n| == overlap + 1 && Borderless(n)
  {
    if |n| == overlap + 1 && Borderless(n) {
      forall chunks | AllNonEmpty(chunks) ensures Hits(chunks, overlap, n) == Positions(Flat(chunks), n) {
        LongestNeedleExact(chunks, overlap, n);
      }
    } else if |n| <= overlap {
      AnyShortNeedleTwice(n, overlap, if n[0] == 0 then 1 else 0);
    } else {
      var k :| 0 < k < |n| && n[k..] == n[..|n| - k];
      OverlapMissed(n, overlap, k);
    }
  }

  lemma OneRead(s: Bytes, overlap: nat, n: Bytes)
    requires n != []
    ensures Flat([s]) == s && Hits([s], overlap, n) == Count(s, n)
  {
    assert [s][..0] == [] && Flat([]) == [];
    assert Flat([s]) == [] + s == s && Window([s], overlap) == [] + s == s;
    assert Hits([], overlap, n) == 0;
  }

  lemma TwoReads(s: Bytes, c: Bytes, overlap: nat, n: Bytes)
    requires n != []
    ensures Flat([s, c]) == s + c && Hits([s, c], overlap, n) == Count(s, n) + Count(Tail(s, overlap) + c, n)
  {
    OneRead(s, overlap, n);
    assert [s, c][..1] == [s];
  }

  /** A needle shorter than the longest is counted again from the tail. */
  lemma AnyShortNeedleTwice(n: Bytes, overlap: nat, x: byte)
    requires 0 < |n| <= overlap && x != n[0]
    ensures Hits([n, [x]], overlap, n) == 2 && Positions(Flat([n, [x]]), n) == 1
    ensures !CountsExactly(overlap, n)
  {
    hide Hits, Positions, Flat, Count, CountsExactly;
    TwoReads(n, [x], overlap, n);
    NeedleAndByte(n, x);
    assert Tail(n, overlap) == n;
    Inexact([n, [x]], overlap, n);
  }

  lemma Inexact(chunks: seq<Bytes>, overlap: nat, n: Bytes)
    requires n != [] && AllNonEmpty(chunks) && Hits(chunks, overlap, n) != Positions(Flat(chunks), n)
    ensures !CountsExactly(overlap, n)
  {
  }

  /** One read that holds two overlapping occurrences counts one. */
  lemma OverlapMissed(n: Bytes, overlap: nat, k: nat)
    requires 0 < k < |n| && n[k..] == n[..|n| - k]
    ensures var chunks := [n + n[|n| - k..]]; Hits(chunks, overlap, n) == 1 && Positions(Flat(chunks), n) >= 2
    ensures !CountsExactly(overlap, n)
  {
    hide Hits, Positions, Flat, Count, CountsExactly;
    var s := n + n[|n| - k..];
    OneRead(s, overlap, n);
    BorderCountedOnce(n, k);
    Inexact([s], overlap, n);
  }

  // ---- count_in_file ----

  function Multiplicity(needles: seq<Bytes>, n: Bytes): nat {
    if needles == [] then 0
    else Multiplicity(needles[..|needles| - 1], n) + (if needles[|needles| - 1] == n then 1 else 0)
  }

  function Times(listed: nat, hits: nat): nat { listed * hits }

  lemma TimesSum(a: nat, b: nat, c: nat)
    ensures Times(a + b, c) == Times(a, c) + Times(b, c)
    ensures Times(a, b + c) == Times(a, b) + Times(a, c)
    ensures Times(0, a) == 0 && Times(1, a) == a
  {
  }

  lemma TimesPositive(a: nat, b: nat)
    ensures Times(a, b) > 0 <==> a > 0 && b > 0
  {
  }

  function Total(found: map<Bytes, nat>, n: Bytes): nat { if n in found then found[n] else 0 }

  lemma {:induction false} MultiplicityListed(needles: seq<Bytes>, n: Bytes)
    ensures Multiplicity(needles, n) > 0 <==> n in needles
  {
    if needles != [] {
      MultiplicityListed(needles[..|needles| - 1], n);
      assert n in needles <==> n in needles[..|needles| - 1] || n == needles[|needles| - 1];
    }
  }

  ghost predicate AllPositive(found: map<Bytes, nat>) { forall n :: n in found ==> found[n] > 0 }

  ghost predicate WindowAdded(was: map<Bytes, nat>, found: map<Bytes, nat>, window: Bytes, needles: seq<Bytes>) {
    && (forall n :: n in found ==> found[n] > 0 && (n in was || n in needles))
    && forall n: Bytes :: n != [] ==>
         Total(found, n) == Total(was, n) + Times(Multiplicity(needles, n), Count(window, n))
  }

  /** One window: each listing of a needle adds its hits in the window. */
  method CountInWindow(found0: map<Bytes, nat>, window: Bytes, needles: seq<Bytes>) returns (found: map<Bytes, nat>)
    requires AllNonEmpty(needles)
    requires AllPositive(found0)
    ensures AllPositive(found)
    ensures WindowAdded(found0, found, window, needles)
  {
    found := found0;
    var j := 0;
    while j < |needles|
      invariant j <= |needles|
      invariant forall n :: n in found ==> found[n] > 0 && (n in found0 || n in needles)
      invariant forall n: Bytes :: n != [] ==>
                  Total(found, n) == Total(found0, n) + Times(Multiplicity(needles[..j], n), Count(window, n))
    {
      var needle := needles[j];
      assert needle in needles;
      var hits := Count(window, needle);
      ghost var was := found;
      if hits > 0 {
        found := found[needle := Total(found, needle) + hits];
      }
      forall n: Bytes | n != []
        ensures Total(found, n) == Total(found0, n) + Times(Multiplicity(needles[..j + 1], n), Count(window, n))
      {
        assert needles[..j + 1][..j] == needles[..j];
        TimesSum(Multiplicity(needles[..j], n), if needle == n then 1 else 0, Count(window, n));
      }
      j := j + 1;
    }
    assert needles[..j] == needles;
  }

  /** The totals after the first reads. */
  ghost predicate Counted(found: map<Bytes, nat>, chunks: seq<Bytes>, needles: seq<Bytes>, overlap: nat) {
    && (forall n :: n in found ==> found[n] > 0 && n in needles)
    && forall n: Bytes :: n != [] ==> Total(found, n) == Times(Multiplicity(needles, n), Hits(chunks, overlap, n))
  }

  lemma CountedFurther(was: map<Bytes, nat>, found: map<Bytes, nat>, before: seq<Bytes>, chunks: seq<Bytes>,
                       needles: seq<Bytes>, overlap: nat)
    requires Counted(was, before, needles, overlap) && chunks != [] && before == chunks[..|chunks| - 1]
    requires WindowAdded(was, found, Window(chunks, overlap), needles)
    ensures Counted(found, chunks, needles, overlap)
  {
    hide Count, Window, Multiplicity, Total, Times;
    forall n: Bytes | n != []
      ensures Total(found, n) == Times(Multiplicity(needles, n), Hits(chunks, overlap, n))
    {
      TimesSum(Multiplicity(needles, n), Hits(before, overlap, n), Count(Window(chunks, overlap), n));
    }
  }

  /** The dictionary lists the needles that the whole file holds. */
  lemma CountedFinds(found: map<Bytes, nat>, chunks: seq<Bytes>, needles: seq<Bytes>, overlap: nat, n: Bytes)
    requires Counted(found, chunks, needles, overlap) && 0 < |n| <= overlap + 1 && n in needles
    ensures n in found <==> Occurs(Flat(chunks), n)
  {
    HitsFindTheNeedle(chunks, overlap, n);
    MultiplicityListed(needles, n);
    TimesPositive(Multiplicity(needles, n), Hits(chunks, overlap, n));
  }

  /** The dictionary lists exactly the needles that occur in the whole file, each
      with the hits of all windows, once for each time it is listed. */
  ghost predicate Reports(found: map<Bytes, nat>, chunks: seq<Bytes>, needles: seq<Bytes>)
    requires AllNonEmpty(needles)
  {
    && (forall n :: n in found <==> n in needles && Occurs(Flat(chunks), n))
    && (forall n :: n in needles ==> Total(found, n) == HitCount(chunks, needles, n))
  }

  ghost function HitCount(chunks: seq<Bytes>, needles: seq<Bytes>, n: Bytes): nat
    requires n in needles && AllNonEmpty(needles)
  {
    Times(Multiplicity(needles, n), Hits(chunks, Overlap(needles), n))
  }

  /** The body of the loop: one window, and the tail to carry on. */
  method CountChunk(was: map<Bytes, nat>, carried: Bytes, chunk: Bytes, needles: seq<Bytes>, overlap: nat,
                    ghost before: seq<Bytes>)
    returns (found: map<Bytes, nat>, tail: Bytes)
    requires AllNonEmpty(needles)
    requires carried == Tail(Flat(before), overlap) && AllPositive(was) && Counted(was, before, needles, overlap)
    ensures AllPositive(found) && Counted(found, before + [chunk], needles, overlap)
    ensures tail == Tail(Flat(before + [chunk]), overlap)
  {
    var window := carried + chunk;
    NextWindow(before, chunk, overlap);
    hide *;
    found := CountInWindow(was, window, needles);
    CountedFurther(was, found, before, before + [chunk], needles, overlap);
    tail := CarriedOn(window, overlap);
  }

  /** read returns the chunks one by one and then the empty string. */
  method CountInFile(chunks: seq<Bytes>, needles: seq<Bytes>) returns (found: map<Bytes, nat>)
    requires AllNonEmpty(chunks)
    requires AllNonEmpty(needles)
    ensures Reports(found, chunks, needles)
  {
    var overlap := Overlap(needles);
    found := map[];
    var tail: Bytes := [];
    var i := 0;
    hide *;
    NothingRead(chunks, needles, overlap);
    while true
      invariant i <= |chunks|
      invariant tail == Tail(Flat(chunks[..i]), overlap)
      invariant AllPositive(found) && Counted(found, chunks[..i], needles, overlap)
      decreases |chunks| - i
    {
      NextRead(chunks, i);
      var chunk := if i < |chunks| then chunks[i] else [];
      if chunk == [] { break; }
      found, tail := CountChunk(found, tail, chunk, needles, overlap, chunks[..i]);
      i := i + 1;
    }
    CountedAll(found, chunks, needles);
  }

  lemma NothingRead(chunks: seq<Bytes>, needles: seq<Bytes>, overlap: nat)
    ensures AllPositive(map[]) && Counted(map[], chunks[..0], needles, overlap) && Tail(Flat(chunks[..0]), overlap) == []
  {
    assert chunks[..0] == [];
  }

  lemma NextRead(chunks: seq<Bytes>, i: nat)
    requires AllNonEmpty(chunks) && i <= |chunks|
    ensures if i < |chunks| then chunks[i] != [] && chunks[..i] + [chunks[i]] == chunks[..i + 1] else chunks[..i] == chunks
  {
    assert i < |chunks| ==> chunks[i] in chunks;
  }

  lemma NextWindow(before: seq<Bytes>, chunk: Bytes, overlap: nat)
    ensures (before + [chunk])[..|before + [chunk]| - 1] == before
    ensures var window := Tail(Flat(before), overlap) + chunk;
            && window == Window(before + [chunk], overlap)
            && Tail(Flat(before + [chunk]), overlap) == CarriedOn(window, overlap)
  {
    var all := before + [chunk];
    assert all[..|before|] == before;
    assert Flat(all) == Flat(before) + chunk;
    assert Window(all, overlap) == Tail(Flat(before), overlap) + chunk;
    TailOfWindow(Flat(before), chunk, overlap);
    hide Flat, Window;
  }

  /** window[-overlap:] if overlap else b"" */
  function CarriedOn(window: Bytes, overlap: nat): Bytes {
    if overlap == 0 then [] else if |window| > overlap then window[|window| - overlap..] else window
  }

  lemma CountedAll(found: map<Bytes, nat>, chunks: seq<Bytes>, needles: seq<Bytes>)
    requires AllNonEmpty(needles)
    requires Counted(found, chunks, needles, Overlap(needles))
    ensures Reports(found, chunks, needles)
  {
    hide Occurs, Hits, Multiplicity, Flat, Times, Total;
    forall n | n in needles ensures n in found <==> Occurs(Flat(chunks), n) {
      CountedFinds(found, chunks, needles, Overlap(needles), n);
    }
  }

  lemma TailOfWindow(s: Bytes, c: Bytes, overlap: nat)
    ensures Tail(Tail(s, overlap) + c, overlap) == Tail(s + c, overlap)
  {
    if |s| > overlap {
      var t := Tail(s, overlap);
      assert s + c == s[..|s| - overlap] + (t + c);
      TailOfSuffix(s[..|s| - overlap], t + c, overlap);
    }
  }

  lemma TailOfSuffix(x: Bytes, y: Bytes, overlap: nat)
    requires |y| >= overlap
    ensures Tail(x + y, overlap) == Tail(y, overlap)
  {
    assert (x + y)[|x| + |y| - overlap..] == y[|y| - overlap..];
  }

  // ---- the payload ----

  type Digest = string

  /** A regular file below the root: its reads, or None when reading fails, its
      digest, and its digest without a code signature where that exists. */
  datatype File = File(path: Bytes, chunks: Option<seq<Bytes>>, digest: Digest, unsigned: Option<Digest>)

  datatype Offender = Unreadable(path: Bytes) | Names(path: Bytes, needle: Bytes, count: nat, upstream: bool)

  predicate Upstream(f: File, accepted: set<Digest>) {
    f.digest in accepted || (f.unsigned.Some? && f.unsigned.value in accepted)
  }

  ghost predicate Clean(f: File, needles: seq<Bytes>) {
    f.chunks.Some? && forall n :: n in needles ==> !Occurs(Flat(f.chunks.value), n)
  }

  predicate Fatal(o: Offender) { o.Unreadable? || !o.upstream }

  ghost predicate IsOffence(f: File, needles: seq<Bytes>, accepted: set<Digest>, o: Offender)
    requires AllNonEmpty(needles)
  {
    match f.chunks
    case None => o == Unreadable(f.path)
    case Some(chunks) =>
      && o.Names? && o.needle in needles && Occurs(Flat(chunks), o.needle)
      && o == Names(f.path, o.needle, HitCount(chunks, needles, o.needle), Upstream(f, accepted))
  }

  ghost predicate ReadsWell(f: File) {
    f.chunks.Some? ==> AllNonEmpty(f.chunks.value)
  }

  /** One row for each entry of the dictionary. */
  method Rows(path: Bytes, found: map<Bytes, nat>, upstream: bool) returns (rows: seq<Offender>)
    ensures forall o :: o in rows <==>
              o.Names? && o.needle in found && o == Names(path, o.needle, found[o.needle], upstream)
  {
    rows := [];
    var left := found.Keys;
    while left != {}
      invariant left <= found.Keys
      invariant forall o :: o in rows <==>
                  o.Names? && o.needle in found && o.needle !in left
                  && o == Names(path, o.needle, found[o.needle], upstream)
      decreases |left|
    {
      var needle :| needle in left;
      rows := rows + [Names(path, needle, found[needle], upstream)];
      left := left - {needle};
    }
  }

  method ScanFile(f: File, needles: seq<Bytes>, accepted: set<Digest>) returns (offenders: seq<Offender>)
    requires ReadsWell(f)
    requires AllNonEmpty(needles)
    ensures forall o :: o in offenders <==> IsOffence(f, needles, accepted, o)
  {
    match f.chunks
    case None => offenders := [Unreadable(f.path)];
    case Some(chunks) =>
      var found := CountInFile(chunks, needles);
      var upstream := found != map[] && accepted != {} && Upstream(f, accepted);
      assert found == map[] || upstream == Upstream(f, accepted);
      hide Occurs, HitCount, AllNonEmpty, Upstream;
      offenders := Rows(f.path, found, upstream);
  }

  method Scan(files: seq<File>, needles: seq<Bytes>, accepted: set<Digest>) returns (scanned: nat, offenders: seq<Offender>)
    requires forall f :: f in files ==> ReadsWell(f)
    requires AllNonEmpty(needles)
    ensures scanned == |files|
    ensures forall o :: o in offenders <==> exists f :: f in files && IsOffence(f, needles, accepted, o)
  {
    scanned, offenders := 0, [];
    while scanned < |files|
      invariant scanned <= |files|
      invariant forall o :: o in offenders <==> exists f :: f in files[..scanned] && IsOffence(f, needles, accepted, o)
    {
      var more := ScanFile(files[scanned], needles, accepted);
      assert forall f :: f in files[..scanned + 1] <==> f in files[..scanned] || f == files[scanned];
      offenders := offenders + more;
      scanned := scanned + 1;
    }
    assert files[..scanned] == files;
  }

  /** A payload passes exactly when each file can be read and either names no
      forbidden literal or is an accepted upstream file. */
  lemma PassesExactlyWhenClean(files: seq<File>, needles: seq<Bytes>, accepted: set<Digest>)
    requires AllNonEmpty(needles)
    ensures (forall o, f :: f in files && IsOffence(f, needles, accepted, o) ==> o.Names? && o.upstream)
            <==> (forall f :: f in files ==>
                    f.chunks.Some? && ((forall n :: n in needles ==> !Occurs(Flat(f.chunks.value), n))
                                       || f.digest in accepted || (f.unsigned.Some? && f.unsigned.value in accepted)))
  {
    forall f | f in files
      ensures (forall o :: IsOffence(f, needles, accepted, o) ==> !Fatal(o))
              <==> f.chunks.Some? && (Clean(f, needles) || Upstream(f, accepted))
    {
      FilePasses(f, needles, accepted);
    }
    hide IsOffence, Occurs;
  }

  lemma FilePasses(f: File, needles: seq<Bytes>, accepted: set<Digest>)
    requires AllNonEmpty(needles)
    ensures (forall o :: IsOffence(f, needles, accepted, o) ==> !Fatal(o))
            <==> f.chunks.Some? && (Clean(f, needles) || Upstream(f, accepted))
  {
    hide Occurs, HitCount, Upstream;
    if f.chunks == None {
      assert IsOffence(f, needles, accepted, Unreadable(f.path));
    } else if !Clean(f, needles) {
      var n :| n in needles && Occurs(Flat(f.chunks.value), n);
      var o := Names(f.path, n, HitCount(f.chunks.value, needles, n), Upstream(f, accepted));
      assert IsOffence(f, needles, accepted, o);
    }
  }
}
