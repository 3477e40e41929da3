/** Conflict resolution by authority, and the log of operator decisions. */
module CorpusDecisions {
  import opened CorpusSync
  import opened Ordering
  import opened Wrappers

  /** A line of the log: skipped, a JSON value that is no object (on which the
      loader raises), or a record. */
  datatype Line = Skipped | NotAnObject | Record(d: Decision)
  datatype Decision = Decision(id: string, timestamp: string, side: string)

  type Decisions = map<string, Decision>

  predicate Readable(lines: seq<Line>) {
    forall i :: 0 <= i < |lines| ==> !lines[i].NotAnObject?
  }

  /** Timestamps are compared as strings. */
  predicate NotOlder(a: Decision, b: Decision) { !Less(a.timestamp, b.timestamp) }

  function Noted(decisions: Decisions, d: Decision): Decisions {
    if d.id !in decisions || NotOlder(d, decisions[d.id]) then decisions[d.id := d] else decisions
  }

  /** _load_conflict_log; None where it raises. */
  function LoadLog(lines: seq<Line>): Option<Decisions> {
    if lines == [] then Some(map[])
    else
      var n := |lines| - 1;
      var before := LoadLog(lines[..n]);
      if before == None || lines[n].NotAnObject? then None
      else Some(if lines[n].Record? then Noted(before.value, lines[n].d) else before.value)
  }

  ghost predicate IsRecordOf(lines: seq<Line>, id: string, i: int) {
    0 <= i < |lines| && lines[i].Record? && lines[i].d.id == id
  }

  /** The decision in force: nothing before it is newer, everything after it is older. */
  ghost predicate InForce(lines: seq<Line>, id: string, i: int) {
    && IsRecordOf(lines, id, i)
    && (forall j :: IsRecordOf(lines, id, j) && j < i ==> NotOlder(lines[i].d, lines[j].d))
    && (forall j :: IsRecordOf(lines, id, j) && i < j ==> Less(lines[j].d.timestamp, lines[i].d.timestamp))
  }

  lemma {:induction false} LoadsExactlyWhenReadable(lines: seq<Line>)
    ensures LoadLog(lines).Some? <==> Readable(lines)
  {
    if lines != [] {
      LoadsExactlyWhenReadable(lines[..|lines| - 1]);
      assert Readable(lines) <==> Readable(lines[..|lines| - 1]) && !lines[|lines| - 1].NotAnObject?;
    }
  }

  lemma NotLessTransitive(a: string, b: string, c: string)
    requires !Less(a, b) && !Less(b, c)
    ensures !Less(a, c)
  {
    LessTotal(a, b);
    LessTotal(b, c);
    LessTotal(a, c);
    if Less(a, c) && b != c && a != b {
      LessTransitive(c, b, a);
    }
  }

  /** The last of the newest decisions of each id is in force. */
  lemma {:induction false} LastNewestWins(lines: seq<Line>, id: string)
    requires LoadLog(lines).Some?
    ensures id in LoadLog(lines).value <==> exists i :: IsRecordOf(lines, id, i)
    ensures id in LoadLog(lines).value ==> exists i :: InForce(lines, id, i) && LoadLog(lines).value[id] == lines[i].d
  {
    if lines != [] {
      var n := |lines| - 1;
      var before := lines[..n];
      LastNewestWins(before, id);
      assert forall i :: 0 <= i < n ==> lines[i] == before[i];
      assert forall i :: IsRecordOf(lines, id, i) <==> IsRecordOf(before, id, i) || (i == n && IsRecordOf(lines, id, n));
      var log := LoadLog(before).value;
      if id in log {
        var i :| InForce(before, id, i) && log[id] == before[i].d;
        InForceNext(lines, id, i);
      } else if IsRecordOf(lines, id, n) {
        assert InForce(lines, id, n);
      }
    }
  }

  lemma InForceNext(lines: seq<Line>, id: string, i: int)
    requires lines != [] && InForce(lines[..|lines| - 1], id, i)
    ensures var n := |lines| - 1;
            if IsRecordOf(lines, id, n) && NotOlder(lines[n].d, lines[i].d) then InForce(lines, id, n) else InForce(lines, id, i)
  {
    var n := |lines| - 1;
    var before := lines[..n];
    assert forall j :: 0 <= j < n ==> lines[j] == before[j];
    assert forall j :: IsRecordOf(lines, id, j) && j < n ==> IsRecordOf(before, id, j);
    if IsRecordOf(lines, id, n) && NotOlder(lines[n].d, lines[i].d) {
      forall j | IsRecordOf(lines, id, j) && j < n ensures NotOlder(lines[n].d, lines[j].d) {
        LessTotal(lines[j].d.timestamp, lines[i].d.timestamp);
        NotLessTransitive(lines[n].d.timestamp, lines[i].d.timestamp, lines[j].d.timestamp);
      }
    }
  }

  // ---- resolve_conflict ----

  datatype Outcome = Winner(chunk: Chunk) | Tie(local: Chunk, remote: Chunk)

  function Resolve(local: Chunk, remote: Chunk, log: Decisions): Outcome {
    if RankOf(local) > RankOf(remote) then Winner(local)
    else if RankOf(remote) > RankOf(local) then Winner(remote)
    else if local.id in log && log[local.id].side == "local" then Winner(local)
    else if local.id in log && log[local.id].side == "remote" then Winner(remote)
    else Tie(local, remote)
  }

  /** Unequal ranks pick the same chunk from either side, and the higher one. */
  lemma RankWinsFromEitherSide(a: Chunk, b: Chunk, log: Decisions, other: Decisions)
    requires RankOf(a) != RankOf(b)
    ensures Resolve(a, b, log) == Resolve(b, a, other)
    ensures Resolve(a, b, log).Winner? && RankOf(Resolve(a, b, log).chunk) > (if Resolve(a, b, log).chunk == a then RankOf(b) else RankOf(a))
  {
  }

  /** Between equal ranks a logged side picks the opposite chunk once the sides
      are swapped. */
  lemma LoggedSideFlips(a: Chunk, b: Chunk, log: Decisions)
    requires a.id == b.id && a != b && RankOf(a) == RankOf(b)
    ensures Resolve(a, b, log).Tie? <==> Resolve(b, a, log).Tie?
    ensures Resolve(a, b, log).Winner? ==>
              Resolve(b, a, log).Winner? && Resolve(a, b, log).chunk != Resolve(b, a, log).chunk
  {
    assert "local" != "remote" by { assert |"local"| != |"remote"|; }
  }

  // ---- recorded decisions ----

  /** The newest-or-equal condition under which an appended decision counts. */
  ghost predicate NothingNewer(lines: seq<Line>, d: Decision) {
    forall i :: IsRecordOf(lines, d.id, i) ==> NotOlder(d, lines[i].d)
  }

  lemma AppendNotes(lines: seq<Line>, d: Decision)
    requires LoadLog(lines).Some?
    ensures LoadLog(lines + [Record(d)]) == Some(Noted(LoadLog(lines).value, d))
  {
    assert (lines + [Record(d)])[..|lines|] == lines;
  }

  lemma NewestIsEnough(lines: seq<Line>, d: Decision, i: int)
    requires InForce(lines, d.id, i)
    ensures NothingNewer(lines, d) <==> NotOlder(d, lines[i].d)
  {
    if NotOlder(d, lines[i].d) {
      forall j | IsRecordOf(lines, d.id, j) ensures NotOlder(d, lines[j].d) {
        LessTotal(lines[j].d.timestamp, lines[i].d.timestamp);
        NotLessTransitive(d.timestamp, lines[i].d.timestamp, lines[j].d.timestamp);
      }
    }
  }

  /** A decision takes effect exactly when no earlier one for its id is newer. */
  lemma RecordedDecisionCounts(lines: seq<Line>, d: Decision)
    requires Readable(lines)
    ensures var log := LoadLog(lines + [Record(d)]);
            log.Some? && d.id in log.value && (log.value[d.id] == d <==> NothingNewer(lines, d))
  {
    LoadsExactlyWhenReadable(lines);
    LastNewestWins(lines, d.id);
    AppendNotes(lines, d);
    LessTotal(d.timestamp, d.timestamp);
    hide LoadLog, InForce;
    if d.id in LoadLog(lines).value {
      var i :| InForce(lines, d.id, i) && LoadLog(lines).value[d.id] == lines[i].d;
      NewestIsEnough(lines, d, i);
    }
  }

  ghost predicate OnlyOlder(lines: seq<Line>, d: Decision) {
    forall i :: IsRecordOf(lines, d.id, i) ==> Less(lines[i].d.timestamp, d.timestamp)
  }

  /** Once in effect it stays so under any later lines with older timestamps. */
  lemma {:induction false} DecisionStays(lines: seq<Line>, d: Decision, later: seq<Line>)
    requires Readable(lines) && NothingNewer(lines, d) && Readable(later) && OnlyOlder(later, d)
    ensures var log := LoadLog(lines + [Record(d)] + later); log.Some? && d.id in log.value && log.value[d.id] == d
    decreases |later|
  {
    var all := lines + [Record(d)] + later;
    if later == [] {
      RecordedDecisionCounts(lines, d);
      assert all == lines + [Record(d)] && all[..|lines|] == lines;
    } else {
      var n := |later| - 1;
      assert forall i :: 0 <= i < n ==> later[..n][i] == later[i];
      DecisionStays(lines, d, later[..n]);
      assert all[..|all| - 1] == lines + [Record(d)] + later[..n];
      assert all[|all| - 1] == later[n];
      assert IsRecordOf(later, d.id, n) ==> Less(later[n].d.timestamp, d.timestamp);
    }
  }

  /** So the tie is resolved to the recorded side in every later run. */
  lemma TieStaysDecided(lines: seq<Line>, d: Decision, later: seq<Line>, local: Chunk, remote: Chunk)
    requires Readable(lines) && NothingNewer(lines, d) && Readable(later) && OnlyOlder(later, d)
    requires d.id == local.id && RankOf(local) == RankOf(remote) && (d.side == "local" || d.side == "remote")
    ensures LoadLog(lines + [Record(d)] + later).Some?
    ensures Resolve(local, remote, LoadLog(lines + [Record(d)] + later).value)
            == Winner(if d.side == "local" then local else remote)
  {
    DecisionStays(lines, d, later);
    assert "local" != "remote" by { assert |"local"| != |"remote"|; }
  }

  // ---- the engine ----

  datatype EngineError = BadDecision(side: string) | BadLog

  datatype Applied =
    | AddToRemote(chunk: Chunk) | AddToLocal(chunk: Chunk) | ResolvedConflict(local: Chunk, remote: Chunk, localWins: bool)

  class AicxSyncEngine {
    var logFile: seq<Line>
    var cachedLog: Option<Decisions>

    ghost predicate Valid()
      reads this
    {
      cachedLog.Some? ==> cachedLog == LoadLog(logFile)
    }

    constructor (logFile: seq<Line>)
      ensures Valid() && this.logFile == logFile
    {
      this.logFile, cachedLog := logFile, None;
    }

    method ReadLog() returns (log: Option<Decisions>)
      requires Valid()
      modifies this`cachedLog
      ensures Valid() && log == LoadLog(logFile)
    {
      if cachedLog == None {
        cachedLog := LoadLog(logFile);
      }
      log := cachedLog;
    }

    /** The log is read only when the ranks are equal. */
    method ResolveConflict(local: Chunk, remote: Chunk) returns (r: Result<Outcome, EngineError>)
      requires Valid()
      modifies this`cachedLog
      ensures Valid()
      ensures r == if RankOf(local) == RankOf(remote) && LoadLog(logFile) == None then Failure(BadLog)
                   else Success(Resolve(local, remote, if LoadLog(logFile) == None then map[] else LoadLog(logFile).value))
    {
      if RankOf(local) > RankOf(remote) { return Success(Winner(local)); }
      if RankOf(remote) > RankOf(local) { return Success(Winner(remote)); }
      var log := ReadLog();
      if log == None { return Failure(BadLog); }
      if local.id in log.value {
        if log.value[local.id].side == "local" { return Success(Winner(local)); }
        if log.value[local.id].side == "remote" { return Success(Winner(remote)); }
      }
      r := Success(Tie(local, remote));
    }

    method RecordDecision(tie: Outcome, side: string, now: string) returns (r: Result<(), EngineError>)
      requires Valid() && tie.Tie?
      modifies this
      ensures Valid()
      ensures r.Failure? ==> side != "local" && side != "remote" && logFile == old(logFile)
      ensures r.Success? ==>
                (side == "local" || side == "remote") && logFile == old(logFile) + [Record(Decision(tie.local.id, now, side))]
    {
      if side != "local" && side != "remote" { return Failure(BadDecision(side)); }
      logFile := logFile + [Record(Decision(tie.local.id, now, side))];
      cachedLog := None;
      r := Success(());
    }

    /** The conflict part of apply_plan: every conflict ends up resolved or tied. */
    method ApplyConflicts(conflicts: seq<(Chunk, Chunk)>)
      returns (r: Result<(seq<Applied>, seq<Outcome>), EngineError>)
      requires Valid()
      modifies this`cachedLog
      ensures Valid()
      ensures LoadLog(logFile).Some? ==>
                r == Success((ResolvedOf(conflicts, LoadLog(logFile).value), TiesOf(conflicts, LoadLog(logFile).value)))
    {
      var applied: seq<Applied>, ties: seq<Outcome> := [], [];
      var i := 0;
      assert conflicts[..0] == [];
      while i < |conflicts|
        invariant i <= |conflicts| && Valid()
        invariant LoadLog(logFile).Some? ==>
                    applied == ResolvedOf(conflicts[..i], LoadLog(logFile).value)
                    && ties == TiesOf(conflicts[..i], LoadLog(logFile).value)
      {
        assert conflicts[..i + 1][..i] == conflicts[..i];
        var (local, remote) := conflicts[i];
        var outcome := ResolveConflict(local, remote);
        if outcome.Failure? { return Failure(outcome.error); }
        if outcome.value.Tie? {
          ties := ties + [outcome.value];
        } else {
          applied := applied + [ResolvedConflict(local, remote, outcome.value.chunk == local)];
        }
        i := i + 1;
      }
      assert conflicts[..i] == conflicts;
      r := Success((applied, ties));
    }
  }

  function ResolvedOf(conflicts: seq<(Chunk, Chunk)>, log: Decisions): seq<Applied> {
    if conflicts == [] then []
    else
      var n := |conflicts| - 1;
      var outcome := Resolve(conflicts[n].0, conflicts[n].1, log);
      ResolvedOf(conflicts[..n], log)
      + (if outcome.Winner? then [ResolvedConflict(conflicts[n].0, conflicts[n].1, outcome.chunk == conflicts[n].0)] else [])
  }

  function TiesOf(conflicts: seq<(Chunk, Chunk)>, log: Decisions): seq<Outcome> {
    if conflicts == [] then []
    else
      var n := |conflicts| - 1;
      var outcome := Resolve(conflicts[n].0, conflicts[n].1, log);
      TiesOf(conflicts[..n], log) + (if outcome.Tie? then [outcome] else [])
  }

  /** No conflict is lost or counted twice, and ties are left over exactly for
      equal ranks without a usable decision. */
  lemma {:induction false} ConflictsAccountedFor(conflicts: seq<(Chunk, Chunk)>, log: Decisions)
    ensures |ResolvedOf(conflicts, log)| + |TiesOf(conflicts, log)| == |conflicts|
    ensures TiesOf(conflicts, log) == [] <==>
            forall i :: 0 <= i < |conflicts| ==>
              RankOf(conflicts[i].0) != RankOf(conflicts[i].1)
              || (conflicts[i].0.id in log && (log[conflicts[i].0.id].side == "local" || log[conflicts[i].0.id].side == "remote"))
  {
    if conflicts != [] {
      var n := |conflicts| - 1;
      ConflictsAccountedFor(conflicts[..n], log);
      assert forall i :: 0 <= i < n ==> conflicts[..n][i] == conflicts[i];
    }
  }
}
