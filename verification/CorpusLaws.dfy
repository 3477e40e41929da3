/** The sync in the words of its promises: the order of the authorities, the
    chunks of a plan, and what happens to each conflict. */
module CorpusLaws {
  import opened CorpusSync
  import opened CorpusDecisions
  import opened Ordering
  import opened Wrappers

  /** The authorities, the strongest first. */
  const TIERS: seq<Authority> :=
    [RepoVerified, AicxOperator, LoctreeDerived, AicxAgent, AicxFailure, SemanticGuess, MemexDerived, StaleOrUnknown]

  /** Every authority has one place in the list, and the earlier has the higher rank. */
  lemma RanksFollowTiers(i: nat, j: nat, a: Authority)
    requires i < |TIERS| && j < |TIERS|
    ensures Rank(TIERS[i]) > Rank(TIERS[j]) <==> i < j
    ensures a in TIERS
  {
    assert |TIERS| == 8;
    assert TIERS[0] == RepoVerified && TIERS[1] == AicxOperator && TIERS[2] == LoctreeDerived && TIERS[3] == AicxAgent;
    assert TIERS[4] == AicxFailure && TIERS[5] == SemanticGuess && TIERS[6] == MemexDerived && TIERS[7] == StaleOrUnknown;
  }

  // ---- the order of strings ----

  /** a is a proper prefix of b, or has the smaller character where they first differ. */
  ghost predicate Before(a: string, b: string) { exists n: nat :: BeforeAt(a, b, n) }

  predicate BeforeAt(a: string, b: string, n: nat) {
    n <= |a| && n < |b| && a[..n] == b[..n] && (n == |a| || a[n] < b[n])
  }

  lemma {:induction false} LessExactly(a: string, b: string)
    ensures Less(a, b) <==> Before(a, b)
  {
    if a == "" || b == "" || a[0] != b[0] {
      if Before(a, b) {
        var n: nat :| BeforeAt(a, b, n);
        if n > 0 { SameHead(a, b, n); }
      }
      if Less(a, b) {
        assert BeforeAt(a, b, 0);
      }
    } else {
      LessExactly(a[1..], b[1..]);
      if Less(a, b) {
        var n: nat :| BeforeAt(a[1..], b[1..], n);
        assert a[..n + 1] == [a[0]] + a[1..][..n] == b[..n + 1];
        assert BeforeAt(a, b, n + 1);
      }
      if Before(a, b) {
        var n: nat :| BeforeAt(a, b, n);
        BeforeTail(a, b, n);
      }
    }
  }

  lemma SameHead(a: string, b: string, n: nat)
    requires 0 < n <= |a| && n <= |b| && a[..n] == b[..n]
    ensures a[0] == b[0]
  {
    assert a[0] == a[..n][0];
  }

  lemma BeforeTail(a: string, b: string, n: nat)
    requires a != "" && b != "" && a[0] == b[0] && BeforeAt(a, b, n)
    ensures n > 0 && BeforeAt(a[1..], b[1..], n - 1)
  {
    if n > 0 {
      assert a[1..][..n - 1] == a[..n][1..] && b[1..][..n - 1] == b[..n][1..];
    }
  }

  // ---- the plan ----

  ghost predicate GoesOut(ids: seq<string>, from: Corpus, to: Corpus, c: Chunk) {
    exists id :: id in ids && id in from && id !in to && c == from[id]
  }

  ghost predicate Clashes(ids: seq<string>, local: Corpus, remote: Corpus, pair: (Chunk, Chunk)) {
    exists id :: id in ids && id in local && id in remote && local[id].hash != remote[id].hash && pair == (local[id], remote[id])
  }

  /** What goes out is the chunk of the side that has it; a conflict is the local
      chunk and the remote one, in this order. */
  lemma {:induction false} PlanExactly(ids: seq<string>, local: Corpus, remote: Corpus, c: Chunk, pair: (Chunk, Chunk))
    ensures var p := Diff(ids, local, remote);
            && (c in p.toRemote <==> GoesOut(ids, local, remote, c))
            && (c in p.toLocal <==> GoesOut(ids, remote, local, c))
            && (pair in p.conflicts <==> Clashes(ids, local, remote, pair))
  {
    if ids != [] {
      var before, x := ids[..|ids| - 1], ids[|ids| - 1];
      PlanExactly(before, local, remote, c, pair);
      GoesOutNext(before, x, local, remote, c);
      GoesOutNext(before, x, remote, local, c);
      ClashesNext(before, x, local, remote, pair);
      assert ids == before + [x];
      hide GoesOut, Clashes;
    }
  }

  lemma GoesOutNext(before: seq<string>, x: string, from: Corpus, to: Corpus, c: Chunk)
    ensures GoesOut(before + [x], from, to, c) <==> GoesOut(before, from, to, c) || (x in from && x !in to && c == from[x])
  {
    assert x in before + [x] && forall id :: id in before ==> id in before + [x];
  }

  lemma ClashesNext(before: seq<string>, x: string, local: Corpus, remote: Corpus, pair: (Chunk, Chunk))
    ensures Clashes(before + [x], local, remote, pair) <==>
              Clashes(before, local, remote, pair)
              || (x in local && x in remote && local[x].hash != remote[x].hash && pair == (local[x], remote[x]))
  {
    assert x in before + [x] && forall id :: id in before ==> id in before + [x];
  }

  // ---- the conflicts ----

  /** The local chunk has the higher rank, or an equal one and the decision. */
  predicate LocalWins(pair: (Chunk, Chunk), log: Decisions) {
    RankOf(pair.0) > RankOf(pair.1)
    || (RankOf(pair.0) == RankOf(pair.1) && pair.0.id in log && log[pair.0.id].side == "local")
  }

  predicate RemoteWins(pair: (Chunk, Chunk), log: Decisions) {
    RankOf(pair.1) > RankOf(pair.0)
    || (RankOf(pair.0) == RankOf(pair.1) && pair.0.id in log && log[pair.0.id].side == "remote")
  }

  predicate Differ(conflicts: seq<(Chunk, Chunk)>) {
    forall i :: 0 <= i < |conflicts| ==> conflicts[i].0 != conflicts[i].1
  }

  lemma SidesDiffer()
    ensures "local" != "remote"
  {
    assert |"local"| != |"remote"|;
  }

  lemma ResolvesInWords(pair: (Chunk, Chunk), log: Decisions)
    requires pair.0 != pair.1
    ensures var r := Resolve(pair.0, pair.1, log);
            && (r == Winner(pair.0) <==> LocalWins(pair, log)) && (r == Winner(pair.1) <==> RemoteWins(pair, log))
            && (r == Tie(pair.0, pair.1) <==> !LocalWins(pair, log) && !RemoteWins(pair, log))
  {
    SidesDiffer();
    hide RankOf;
  }

  /** A conflict is applied for the side that wins it, and left as a tie if neither does. */
  lemma {:induction false} ConflictsExactly(conflicts: seq<(Chunk, Chunk)>, log: Decisions, a: Chunk, b: Chunk)
    requires Differ(conflicts)
    ensures ResolvedConflict(a, b, true) in ResolvedOf(conflicts, log) <==> (a, b) in conflicts && LocalWins((a, b), log)
    ensures ResolvedConflict(a, b, false) in ResolvedOf(conflicts, log) <==> (a, b) in conflicts && RemoteWins((a, b), log)
    ensures Tie(a, b) in TiesOf(conflicts, log)
            <==> (a, b) in conflicts && !LocalWins((a, b), log) && !RemoteWins((a, b), log)
  {
    if conflicts != [] {
      var n := |conflicts| - 1;
      ConflictsExactly(conflicts[..n], log, a, b);
      assert conflicts == conflicts[..n] + [conflicts[n]];
      ResolvesInWords(conflicts[n], log);
      hide Resolve, LocalWins, RemoteWins;
    }
  }

  /** Exactly the malformed files are reported. */
  lemma {:induction false} CorruptedExactly(candidates: seq<Candidate>, path: string)
    ensures path in CorruptedPaths(candidates) <==> Corrupted(path) in candidates
  {
    if candidates != [] {
      var n := |candidates| - 1;
      CorruptedExactly(candidates[..n], path);
      assert candidates == candidates[..n] + [candidates[n]];
    }
  }

  /** A loaded corpus has each chunk under its own id, as the comparison needs. */
  lemma LoadedFits(loaded: Loaded, candidates: seq<Candidate>, id: string)
    requires LoadedFrom(loaded, candidates)
    ensures id in loaded.chunks <==> exists i :: 0 <= i < |candidates| && candidates[i].Good? && candidates[i].chunk.id == id
    ensures id in loaded.chunks ==> loaded.chunks[id].id == id && Good(loaded.chunks[id]) in candidates
    ensures Corrupted(id) in candidates <==> id in loaded.corrupted
  {
    CorruptedExactly(candidates, id);
    if id in loaded.chunks {
      var i :| FirstHighest(candidates, id, i) && loaded.chunks[id] == candidates[i].chunk;
    }
    assert Holds(candidates, id) <==> id in loaded.chunks;
    hide RankOf;
  }
}
