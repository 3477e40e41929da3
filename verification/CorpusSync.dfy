/** Two-sided sync of chunk corpora: loading, diff, and authority-ranked winners. */
module CorpusSync {
  import opened Ordering
  import opened Wrappers

  datatype Authority =
    | RepoVerified | AicxOperator | LoctreeDerived | AicxAgent | AicxFailure | SemanticGuess | MemexDerived
    | StaleOrUnknown

  /** An unknown label counts as StaleOrUnknown. */
  function Rank(a: Authority): nat {
    match a
    case RepoVerified => 800
    case AicxOperator => 700
    case LoctreeDerived => 600
    case AicxAgent => 500
    case AicxFailure => 400
    case SemanticGuess => 300
    case MemexDerived => 250
    case StaleOrUnknown => 100
  }

  /** A path is written as its components joined by NUL, so that the order of
      strings is the order of paths. */
  datatype Chunk = Chunk(id: string, authority: Authority, hash: string, path: string)

  function RankOf(c: Chunk): nat { Rank(c.authority) }

  // ---- loading a corpus ----

  /** A candidate file: a chunk, a malformed or unreadable file, or one whose
      bytes are no UTF-8, on which reading raises past the loader. */
  datatype Candidate = Good(chunk: Chunk) | Corrupted(path: string) | NotUtf8(path: string)

  datatype LoadError = UndecodableFile(path: string)

  type Corpus = map<string, Chunk>

  datatype Loaded = Loaded(chunks: Corpus, corrupted: seq<string>)

  /** The files of one extension group below a root, by path. */
  type Group = map<string, Candidate>

  function PathOf(c: Candidate): string { if c.Good? then c.chunk.path else c.path }

  predicate PathsFit(g: Group) { forall p :: p in g ==> PathOf(g[p]) == p }

  datatype Root = Absent | Single(file: Candidate) | Folder(json: Group, md: Group, markdown: Group)

  predicate WellFormed(root: Root) {
    root.Folder? ==> PathsFit(root.json) && PathsFit(root.md) && PathsFit(root.markdown)
  }

  /** sorted(root.rglob(ext)) */
  ghost function Listing(g: Group): (l: seq<Candidate>)
    ensures |l| == |g.Keys|
  {
    var paths := Sorted(g.Keys);
    assert forall i :: 0 <= i < |paths| ==> paths[i] in paths;
    seq(|paths|, i requires 0 <= i < |paths| => g[paths[i]])
  }

  /** The candidates: each extension group in path order, group by group. */
  ghost function Candidates(root: Root): seq<Candidate> {
    match root
    case Absent => []
    case Single(file) => [file]
    case Folder(json, md, markdown) => Listing(json) + Listing(md) + Listing(markdown)
  }

  predicate Decodable(candidates: seq<Candidate>) {
    forall i :: 0 <= i < |candidates| ==> !candidates[i].NotUtf8?
  }

  /** The index that wins an id: a rank that nothing later beats, and that
      everything earlier stays below. */
  ghost predicate FirstHighest(candidates: seq<Candidate>, id: string, i: int) {
    && 0 <= i < |candidates| && candidates[i].Good? && candidates[i].chunk.id == id
    && (forall j :: 0 <= j < i && candidates[j].Good? && candidates[j].chunk.id == id ==>
          RankOf(candidates[j].chunk) < RankOf(candidates[i].chunk))
    && (forall j :: i < j < |candidates| && candidates[j].Good? && candidates[j].chunk.id == id ==>
          RankOf(candidates[j].chunk) <= RankOf(candidates[i].chunk))
  }

  ghost predicate Holds(candidates: seq<Candidate>, id: string) {
    exists j :: 0 <= j < |candidates| && candidates[j].Good? && candidates[j].chunk.id == id
  }

  /** What the loop keeps: each id held so far has its first highest chunk. */
  ghost predicate Keeps(chunks: Corpus, candidates: seq<Candidate>) {
    forall id :: (id in chunks <==> Holds(candidates, id))
                 && (id in chunks ==> exists i :: FirstHighest(candidates, id, i) && chunks[id] == candidates[i].chunk)
  }

  function Kept(chunks: Corpus, c: Candidate): Corpus {
    if c.Good? && (c.chunk.id !in chunks || RankOf(c.chunk) > RankOf(chunks[c.chunk.id]))
    then chunks[c.chunk.id := c.chunk] else chunks
  }

  lemma HoldsNext(candidates: seq<Candidate>, c: Candidate, id: string)
    ensures Holds(candidates + [c], id) <==> Holds(candidates, id) || (c.Good? && c.chunk.id == id)
  {
    var n, all := |candidates|, candidates + [c];
    assert all[n] == c;
    if Holds(candidates, id) {
      var j :| 0 <= j < n && candidates[j].Good? && candidates[j].chunk.id == id;
      assert all[j] == candidates[j];
    }
  }

  lemma StaysFirst(candidates: seq<Candidate>, c: Candidate, id: string, i: int)
    requires FirstHighest(candidates, id, i)
    requires c.Good? && c.chunk.id == id ==> RankOf(c.chunk) <= RankOf(candidates[i].chunk)
    ensures FirstHighest(candidates + [c], id, i)
  {
  }

  lemma BecomesFirst(candidates: seq<Candidate>, c: Candidate, id: string)
    requires c.Good? && c.chunk.id == id
    requires !Holds(candidates, id) || exists i :: FirstHighest(candidates, id, i) && RankOf(candidates[i].chunk) < RankOf(c.chunk)
    ensures FirstHighest(candidates + [c], id, |candidates|)
  {
  }

  lemma KeepsOne(chunks: Corpus, candidates: seq<Candidate>, c: Candidate, id: string)
    requires Keeps(chunks, candidates)
    ensures id in Kept(chunks, c) <==> Holds(candidates + [c], id)
    ensures id in Kept(chunks, c) ==>
              exists i :: FirstHighest(candidates + [c], id, i) && Kept(chunks, c)[id] == (candidates + [c])[i].chunk
  {
    HoldsNext(candidates, c, id);
    if id in chunks {
      var i :| FirstHighest(candidates, id, i) && chunks[id] == candidates[i].chunk;
      hide Holds, FirstHighest, RankOf;
      if c.Good? && c.chunk.id == id && RankOf(c.chunk) > RankOf(chunks[id]) {
        BecomesFirst(candidates, c, id);
      } else {
        StaysFirst(candidates, c, id, i);
      }
    } else if c.Good? && c.chunk.id == id {
      BecomesFirst(candidates, c, id);
    }
  }

  lemma KeepsNext(chunks: Corpus, candidates: seq<Candidate>, c: Candidate)
    requires Keeps(chunks, candidates)
    ensures Keeps(Kept(chunks, c), candidates + [c])
  {
    forall id
      ensures id in Kept(chunks, c) <==> Holds(candidates + [c], id)
      ensures id in Kept(chunks, c) ==>
                exists i :: FirstHighest(candidates + [c], id, i) && Kept(chunks, c)[id] == (candidates + [c])[i].chunk
    {
      KeepsOne(chunks, candidates, c, id);
    }
  }

  function CorruptedPaths(candidates: seq<Candidate>): seq<string> {
    if candidates == [] then []
    else
      var n := |candidates| - 1;
      CorruptedPaths(candidates[..n]) + (if candidates[n].Corrupted? then [candidates[n].path] else [])
  }

  method ListGroup(g: Group) returns (l: seq<Candidate>)
    ensures l == Listing(g)
  {
    var paths := Sort(g.Keys);
    assert forall i :: 0 <= i < |paths| ==> paths[i] in paths;
    l := seq(|paths|, i requires 0 <= i < |paths| => g[paths[i]]);
  }

  /** What a corpus holds once loaded. */
  ghost predicate LoadedFrom(loaded: Loaded, candidates: seq<Candidate>) {
    && Keeps(loaded.chunks, candidates) && loaded.corrupted == CorruptedPaths(candidates)
    && forall id :: id in loaded.chunks ==> loaded.chunks[id].id == id
  }

  /** _load_corpus: it succeeds exactly when every candidate is UTF-8, and keeps
      the first highest-ranked chunk of each id, by group and then by path. */
  method LoadCorpus(root: Root) returns (r: Result<Loaded, LoadError>)
    ensures r.Success? <==> Decodable(Candidates(root))
    ensures r.Success? ==> LoadedFrom(r.value, Candidates(root))
  {
    hide Keeps, Decodable, LoadedFrom;
    match root
    case Absent => r := LoadAll([]);
    case Single(file) => r := LoadAll([file]);
    case Folder(json, md, markdown) =>
      var a := ListGroup(json);
      var b := ListGroup(md);
      var c := ListGroup(markdown);
      r := LoadAll(a + b + c);
  }

  /** The loop over the candidates. */
  method LoadAll(candidates: seq<Candidate>) returns (r: Result<Loaded, LoadError>)
    ensures r.Success? <==> Decodable(candidates)
    ensures r.Success? ==> LoadedFrom(r.value, candidates)
  {
    var chunks: Corpus, corrupted: seq<string> := map[], [];
    var i := 0;
    assert candidates[..0] == [] && Keeps(map[], []);
    hide Holds, FirstHighest, Keeps;
    while i < |candidates|
      invariant i <= |candidates|
      invariant Decodable(candidates[..i])
      invariant Keeps(chunks, candidates[..i])
      invariant corrupted == CorruptedPaths(candidates[..i])
      invariant forall id :: id in chunks ==> chunks[id].id == id
    {
      var c := candidates[i];
      assert candidates[..i + 1] == candidates[..i] + [c];
      assert candidates[..i + 1][..i] == candidates[..i];
      if c.NotUtf8? { return Failure(UndecodableFile(c.path)); }
      KeepsNext(chunks, candidates[..i], c);
      if c.Corrupted? {
        corrupted := corrupted + [c.path];
      } else if c.chunk.id !in chunks || RankOf(c.chunk) > RankOf(chunks[c.chunk.id]) {
        chunks := chunks[c.chunk.id := c.chunk];
      }
      i := i + 1;
    }
    assert candidates[..i] == candidates;
    r := Success(Loaded(chunks, corrupted));
  }

  // ---- ties ----

  /** No chunk of the same id and rank in the group has a smaller path. */
  ghost predicate NoRivalBefore(g: Group, k: Chunk) {
    forall p :: p in g && g[p].Good? && g[p].chunk.id == k.id && RankOf(g[p].chunk) == RankOf(k) ==> !Less(p, k.path)
  }

  /** Where a path stands in the listing of its group. */
  lemma ListedAt(g: Group, p: string) returns (i: nat)
    requires p in g
    ensures i < |Listing(g)| && Listing(g)[i] == g[p] && Sorted(g.Keys)[i] == p
  {
    assert p in Sorted(g.Keys);
    i :| 0 <= i < |Sorted(g.Keys)| && Sorted(g.Keys)[i] == p;
  }

  lemma ListedInOrder(g: Group, i: nat, j: nat)
    requires PathsFit(g) && i < |Listing(g)| && j < |Listing(g)|
    ensures Less(PathOf(Listing(g)[i]), PathOf(Listing(g)[j])) <==> i < j
  {
    var paths := Sorted(g.Keys);
    assert paths[i] in g.Keys && paths[j] in g.Keys;
    LessTotal(paths[i], paths[j]);
    LessTotal(paths[j], paths[j]);
    if i < j { assert Less(paths[i], paths[j]); }
    if j < i { assert Less(paths[j], paths[i]); }
  }

  /** A group listed from index start on has no rival before the winner, if it
      ends before the winner's group or is that group. */
  lemma NoneListedBefore(all: seq<Candidate>, start: nat, g: Group, id: string, i: nat)
    requires FirstHighest(all, id, i) && PathsFit(g)
    requires start + |Listing(g)| <= |all| && all[start..start + |Listing(g)|] == Listing(g)
    requires start <= i
    ensures NoRivalBefore(g, all[i].chunk)
  {
    var k := all[i].chunk;
    forall p | p in g && g[p].Good? && g[p].chunk.id == k.id && RankOf(g[p].chunk) == RankOf(k) ensures !Less(p, k.path) {
      var j := ListedAt(g, p);
      assert all[start + j] == all[start..start + |Listing(g)|][j] == g[p];
      assert start + j >= i;
      assert i - start < |Listing(g)| && all[i] == all[start..start + |Listing(g)|][i - start];
      ListedInOrder(g, j, i - start);
    }
  }

  lemma Cuts(a: seq<Candidate>, b: seq<Candidate>, c: seq<Candidate>)
    ensures var all := a + b + c;
            && all[0..0 + |a|] == a && all[|a|..|a| + |b|] == b && all[|a| + |b|..(|a| + |b|) + |c|] == c
  {
  }

  /** The kept chunk is the one with the smallest path among the highest-ranked,
      as the source says, exactly when no later group holds a rival with a
      smaller path. */
  lemma TiesByPathExactly(json: Group, md: Group, markdown: Group, id: string, i: nat)
    requires PathsFit(json) && PathsFit(md) && PathsFit(markdown)
    requires FirstHighest(Candidates(Folder(json, md, markdown)), id, i)
    ensures var k := Candidates(Folder(json, md, markdown))[i].chunk;
            (NoRivalBefore(json, k) && NoRivalBefore(md, k) && NoRivalBefore(markdown, k))
            <==> (i < |json| ==> NoRivalBefore(md, k)) && (i < |json| + |md| ==> NoRivalBefore(markdown, k))
  {
    var a, b, c := Listing(json), Listing(md), Listing(markdown);
    var all := Candidates(Folder(json, md, markdown));
    Cuts(a, b, c);
    hide NoRivalBefore, FirstHighest, Listing, PathsFit;
    assert 0 <= i < |all| by { FirstHighestListed(all, id, i); }
    NoneListedBefore(all, 0, json, id, i);
    if i >= |a| { NoneListedBefore(all, |a|, md, id, i); }
    if i >= |a| + |b| { NoneListedBefore(all, |a| + |b|, markdown, id, i); }
  }

  lemma FirstHighestListed(all: seq<Candidate>, id: string, i: int)
    requires FirstHighest(all, id, i)
    ensures 0 <= i < |all|
  {
  }

  /** A tie between the groups: the kept chunk has the greater path. */
  lemma GroupBeatsPath(a: Chunk, b: Chunk)
    requires a.id == b.id && RankOf(a) == RankOf(b) && Less(b.path, a.path)
    ensures var root := Folder(map[a.path := Good(a)], map[b.path := Good(b)], map[]);
            WellFormed(root) && FirstHighest(Candidates(root), a.id, 0) && Candidates(root)[0] == Good(a)
  {
    ListingOfOne(a);
    ListingOfOne(b);
    var none: Group := map[];
    assert none.Keys == {} && Listing(none) == [];
  }

  lemma ListingOfOne(a: Chunk)
    ensures Listing(map[a.path := Good(a)]) == [Good(a)]
  {
    var g: Group := map[a.path := Good(a)];
    assert g.Keys == {a.path};
    var i := ListedAt(g, a.path);
  }

  // ---- the diff ----

  datatype Plan = Plan(toRemote: seq<Chunk>, toLocal: seq<Chunk>, conflicts: seq<(Chunk, Chunk)>)

  function Diff(ids: seq<string>, local: Corpus, remote: Corpus): Plan {
    if ids == [] then Plan([], [], [])
    else
      var n := |ids| - 1;
      var id := ids[n];
      var p := Diff(ids[..n], local, remote);
      if id in local && id !in remote then p.(toRemote := p.toRemote + [local[id]])
      else if id in remote && id !in local then p.(toLocal := p.toLocal + [remote[id]])
      else if id in local && id in remote && local[id].hash != remote[id].hash then
        p.(conflicts := p.conflicts + [(local[id], remote[id])])
      else p
  }

  function Ids(chunks: seq<Chunk>): seq<string> {
    seq(|chunks|, i requires 0 <= i < |chunks| => chunks[i].id)
  }

  function Pairs(conflicts: seq<(Chunk, Chunk)>): seq<(Chunk, Chunk)> {
    seq(|conflicts|, i requires 0 <= i < |conflicts| => (conflicts[i].1, conflicts[i].0))
  }

  function Lefts(conflicts: seq<(Chunk, Chunk)>): seq<Chunk> {
    seq(|conflicts|, i requires 0 <= i < |conflicts| => conflicts[i].0)
  }

  function Mirror(p: Plan): Plan { Plan(p.toLocal, p.toRemote, Pairs(p.conflicts)) }

  /** Swapping the sides mirrors the plan. */
  lemma {:induction false} DiffMirrors(ids: seq<string>, local: Corpus, remote: Corpus)
    ensures Diff(ids, remote, local) == Mirror(Diff(ids, local, remote))
  {
    if ids != [] {
      var n := |ids| - 1;
      DiffMirrors(ids[..n], local, remote);
      var p, id := Diff(ids[..n], local, remote), ids[n];
      if id in local && id in remote {
        assert Pairs(p.conflicts + [(local[id], remote[id])]) == Pairs(p.conflicts) + [(remote[id], local[id])];
      }
    }
  }

  predicate IdsFit(c: Corpus) { forall id :: id in c ==> c[id].id == id }

  ghost predicate InDiff(p: Plan, id: string, local: Corpus, remote: Corpus) {
    && (id in Ids(p.toRemote) <==> id in local && id !in remote)
    && (id in Ids(p.toLocal) <==> id in remote && id !in local)
    && (id in Ids(Lefts(p.conflicts)) <==> id in local && id in remote && local[id].hash != remote[id].hash)
  }

  lemma IdsSnoc(chunks: seq<Chunk>, c: Chunk)
    ensures Ids(chunks + [c]) == Ids(chunks) + [c.id]
  {
  }

  lemma LeftsSnoc(conflicts: seq<(Chunk, Chunk)>, c: (Chunk, Chunk))
    ensures Lefts(conflicts + [c]) == Lefts(conflicts) + [c.0]
  {
  }

  /** An id that was looked at sits in exactly the list its sides call for, and
      an id with equal content on both sides in none. */
  lemma {:induction false} DiffPlaces(ids: seq<string>, local: Corpus, remote: Corpus, id: string)
    requires IdsFit(local) && IdsFit(remote)
    ensures if id in ids then InDiff(Diff(ids, local, remote), id, local, remote)
            else var p := Diff(ids, local, remote);
                 id !in Ids(p.toRemote) && id !in Ids(p.toLocal) && id !in Ids(Lefts(p.conflicts))
  {
    if ids != [] {
      var n := |ids| - 1;
      var p, x := Diff(ids[..n], local, remote), ids[n];
      DiffPlaces(ids[..n], local, remote, id);
      assert ids == ids[..n] + [x];
      if x in local { IdsSnoc(p.toRemote, local[x]); }
      if x in remote { IdsSnoc(p.toLocal, remote[x]); }
      if x in local && x in remote {
        LeftsSnoc(p.conflicts, (local[x], remote[x]));
        IdsSnoc(Lefts(p.conflicts), local[x]);
      }
      hide Ids, Lefts;
    }
  }

  /** The lists follow the order of the ids, so none of them repeats an id. */
  lemma {:induction false} DiffIncreases(ids: seq<string>, local: Corpus, remote: Corpus)
    requires IdsFit(local) && IdsFit(remote) && Increasing(ids)
    ensures var p := Diff(ids, local, remote);
            Increasing(Ids(p.toRemote)) && Increasing(Ids(p.toLocal)) && Increasing(Ids(Lefts(p.conflicts)))
  {
    if ids != [] {
      var n := |ids| - 1;
      var p, x := Diff(ids[..n], local, remote), ids[n];
      DiffIncreases(ids[..n], local, remote);
      forall y | y in Ids(p.toRemote) || y in Ids(p.toLocal) || y in Ids(Lefts(p.conflicts)) ensures Less(y, x) {
        DiffPlaces(ids[..n], local, remote, y);
        var i :| 0 <= i < n && ids[i] == y;
      }
      IncreasesWith(Ids(p.toRemote), x);
      IncreasesWith(Ids(p.toLocal), x);
      IncreasesWith(Ids(Lefts(p.conflicts)), x);
      if x in local { IdsSnoc(p.toRemote, local[x]); }
      if x in remote { IdsSnoc(p.toLocal, remote[x]); }
      if x in local && x in remote {
        LeftsSnoc(p.conflicts, (local[x], remote[x]));
        IdsSnoc(Lefts(p.conflicts), local[x]);
      }
      hide Ids, Lefts, Increasing;
    }
  }

  lemma IncreasesWith(l: seq<string>, x: string)
    requires Increasing(l) && forall y :: y in l ==> Less(y, x)
    ensures Increasing(l + [x])
  {
  }

  method Compare(ids: seq<string>, local: Corpus, remote: Corpus) returns (p: Plan)
    ensures p == Diff(ids, local, remote)
  {
    p := Plan([], [], []);
    var i := 0;
    assert ids[..0] == [];
    while i < |ids|
      invariant i <= |ids|
      invariant p == Diff(ids[..i], local, remote)
    {
      var id := ids[i];
      assert ids[..i + 1][..i] == ids[..i];
      if id in local && id !in remote {
        p := p.(toRemote := p.toRemote + [local[id]]);
      } else if id in remote && id !in local {
        p := p.(toLocal := p.toLocal + [remote[id]]);
      } else if id in local && id in remote && local[id].hash != remote[id].hash {
        p := p.(conflicts := p.conflicts + [(local[id], remote[id])]);
      }
      i := i + 1;
    }
    assert ids[..i] == ids;
  }

  /** Every id of either side sits in the one list its sides call for. */
  ghost predicate Complete(p: Plan, local: Corpus, remote: Corpus) {
    && (forall id :: id in local || id in remote ==> InDiff(p, id, local, remote))
    && Increasing(Ids(p.toRemote)) && Increasing(Ids(p.toLocal)) && Increasing(Ids(Lefts(p.conflicts)))
  }

  lemma DiffComplete(ids: seq<string>, local: Corpus, remote: Corpus)
    requires IdsFit(local) && IdsFit(remote) && Lists(ids, local.Keys + remote.Keys)
    ensures Complete(Diff(ids, local, remote), local, remote)
  {
    DiffIncreases(ids, local, remote);
    forall id | id in local || id in remote ensures InDiff(Diff(ids, local, remote), id, local, remote) {
      assert id in local.Keys + remote.Keys;
      DiffPlaces(ids, local, remote, id);
    }
  }

  /** discover_chunks: over the sorted ids of both sides. */
  method DiscoverChunks(local: Corpus, remote: Corpus) returns (p: Plan)
    requires IdsFit(local) && IdsFit(remote)
    ensures p == Diff(Sorted(local.Keys + remote.Keys), local, remote)
    ensures Complete(p, local, remote)
  {
    var ids := Sort(local.Keys + remote.Keys);
    p := Compare(ids, local, remote);
    DiffComplete(ids, local, remote);
  }
}
