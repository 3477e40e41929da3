/** The runs a session launches: in no interleaving is a run id launched twice. */
module AcpRuns {
  import opened Wrappers
  import opened AcpSession
  import opened AcpSafety

  // ---- no run id is launched twice ----

  function Launches(log: seq<Event>, r: RunId): nat {
    if log == [] then 0
    else Launches(log[..|log| - 1], r) + (if log[|log| - 1].Launched? && log[|log| - 1].run == r then 1 else 0)
  }

  lemma LaunchesSnoc(log: seq<Event>, events: seq<Event>, r: RunId)
    requires |events| <= 1
    ensures Launches(log + events, r) ==
            Launches(log, r) + (if events != [] && events[0].Launched? && events[0].run == r then 1 else 0)
  {
    if events != [] {
      assert (log + events)[..|log|] == log;
    } else {
      assert log + events == log;
    }
  }

  predicate SameNewId(x: Session, y: Session) {
    !x.restored && !y.restored && x.ownId == y.ownId
  }

  predicate SameRun(w: Worker, v: Worker) {
    w.run.Some? && w.run == v.run
  }

  predicate RunsOwnId(w: Worker, x: Session) {
    !x.restored && w.run == Some(x.ownId)
  }

  /** Every id in use was reserved before. */
  ghost predicate RunsReserved(s: Server) {
    forall t :: t in s.workers && s.workers[t].run.Some? ==> s.workers[t].run.value in s.reserved
  }

  ghost predicate OwnIdsReserved(s: Server) {
    forall k :: k in s.sessions ==> s.sessions[k].ownId in s.reserved
  }

  ghost predicate NewIdsDistinct(s: Server) {
    forall k, l :: k in s.sessions && l in s.sessions && SameNewId(s.sessions[k], s.sessions[l]) ==> k == l
  }

  /** A run belongs to one worker, and a new session's own id to that session. */
  ghost predicate OneOwner(s: Server) {
    forall t, u :: t in s.workers && u in s.workers && SameRun(s.workers[t], s.workers[u]) ==> t == u
  }

  ghost predicate OwnIdKept(s: Server) {
    forall t, k :: t in s.workers && k in s.sessions && RunsOwnId(s.workers[t], s.sessions[k]) ==>
      s.workers[t].key == k
  }

  predicate BeforeRun(pc: Pc) { pc in {Parsing, Asking, Waiting, AtGate, Preparing} }
  predicate WithRun(pc: Pc) { pc in {Launching, Marking, Stopping, Awaiting} }

  ghost predicate RunAtPc(s: Server) {
    forall t :: t in s.workers ==>
      (BeforeRun(s.workers[t].pc) ==> s.workers[t].run == None) && (WithRun(s.workers[t].pc) ==> s.workers[t].run.Some?)
  }

  ghost predicate HasRun(s: Server, k: Key) {
    exists t :: t in s.workers && s.workers[t].key == k && s.workers[t].run.Some?
  }

  /** A new session in its first prompt that has not chosen its run yet. */
  ghost predicate Unused(s: Server, k: Key) {
    k in s.sessions && !s.sessions[k].restored && s.sessions[k].promptCount == 0 && !HasRun(s, k)
  }

  ghost predicate LaunchedOnce(s: Server) {
    && (forall r :: Launches(s.log, r) <= 1)
    && (forall r :: r !in s.reserved ==> Launches(s.log, r) == 0)
  }

  ghost predicate LaunchingUnlaunched(s: Server) {
    forall t :: t in s.workers && s.workers[t].pc == Launching && s.workers[t].run.Some? ==>
      Launches(s.log, s.workers[t].run.value) == 0
  }

  ghost predicate UnusedUnlaunched(s: Server) {
    forall k :: Unused(s, k) ==> Launches(s.log, s.sessions[k].ownId) == 0
  }

  ghost predicate RunInvariant(s: Server) {
    && RunsReserved(s) && OwnIdsReserved(s) && NewIdsDistinct(s)
    && OneOwner(s) && OwnIdKept(s) && RunAtPc(s)
    && LaunchedOnce(s) && LaunchingUnlaunched(s) && UnusedUnlaunched(s)
  }

  /** How a worker step treats the run. */
  lemma WorkRuns(s: Server, tid: Tid, step: WorkerStep)
    requires Enabled(s, Work(tid, step))
    ensures var (w, x, turn) := (s.workers[tid], s.sessions[s.workers[tid].key], TurnOf(s, tid, step));
            && (!step.Prepare? ==> turn.w.run == w.run && s.reserved <= turn.reserved)
            && (step.Prepare? ==>
                  w.pc == Preparing && step.newId !in s.reserved && turn.w.pc == Launching && turn.events == []
                  && turn.w.run == Some(if Continuation(x) then step.newId else x.ownId)
                  && turn.reserved == s.reserved + {turn.w.run.value})
            && (turn.w.pc == Launching ==> step.Prepare?)
            && (forall e :: e in turn.events && e.Launched? ==>
                  step.LaunchAccepted? && w.pc == Launching && w.run == Some(e.run) && e == Launched(tid, w.key, e.run)
                  && turn.w.pc == Marking)
            && (step.LaunchAccepted? ==> w.run.Some? && turn.events == [Launched(tid, w.key, w.run.value)])
  {
  }

  lemma WorkPcs(s: Server, tid: Tid, step: WorkerStep)
    requires Enabled(s, Work(tid, step))
    ensures var (w, turn) := (s.workers[tid], TurnOf(s, tid, step));
            && (turn.w.pc in {Parsing, Asking, Waiting, AtGate, Preparing} ==>
                  w.pc in {Parsing, Asking, Waiting, AtGate, Preparing})
            && (turn.w.pc in {Marking, Stopping, Awaiting} ==> w.pc in {Launching, Marking, Stopping})
            && (step.LaunchAccepted? ==> w.pc == Launching)
            && (step.Prepare? ==> w.pc == Preparing)
  {
  }

  lemma ServerRuns(s: Server, step: Step)
    requires Enabled(s, step) && !step.Work?
    ensures forall e :: e in EventOf(s, step) ==> !e.Launched? && !e.AwaitEnded?
    ensures s.reserved <= Apply(s, step).reserved
    ensures forall t :: t in Apply(s, step).workers ==>
              (t in s.workers && Apply(s, step).workers[t] == s.workers[t])
              || (step.StartPrompt? && t == step.tid && Apply(s, step).workers[t].pc == Parsing
                  && Apply(s, step).workers[t].run == None)
    ensures forall k :: k in Apply(s, step).sessions && k in s.sessions ==>
              Apply(s, step).sessions[k].ownId == s.sessions[k].ownId
              && Apply(s, step).sessions[k].restored == s.sessions[k].restored
              && Apply(s, step).sessions[k].promptCount >= s.sessions[k].promptCount
    ensures forall k :: k in Apply(s, step).sessions && k !in s.sessions ==>
              && (step.Create? || step.Restore?) && k == step.key
              && Apply(s, step).sessions[k] == FreshSession(step.id, step.Restore?)
              && step.id in Apply(s, step).reserved
    ensures s.sessions.Keys <= Apply(s, step).sessions.Keys
  {
    hide FreshRequest, FreshThread;
  }

  lemma ReservedGrows(s: Server, step: Step)
    requires Enabled(s, step)
    ensures s.reserved <= Apply(s, step).reserved
  {
    if step.Work? {
      WorkRuns(s, step.tid, step.step);
      WorkFrame(s, step.tid, step.step);
      hide Act;
    } else {
      ServerRuns(s, step);
    }
  }

  lemma RunsReservedStep(s: Server, step: Step)
    requires RunsReserved(s) && Enabled(s, step)
    ensures RunsReserved(Apply(s, step))
  {
    if step.Work? {
      WorkFrame(s, step.tid, step.step);
      WorkRuns(s, step.tid, step.step);
    } else {
      ServerRuns(s, step);
    }
    hide Act, Apply, TurnOf, Enabled;
  }

  lemma OwnIdsReservedStep(s: Server, step: Step)
    requires OwnIdsReserved(s) && Enabled(s, step)
    ensures OwnIdsReserved(Apply(s, step))
  {
    if step.Work? {
      WorkFrame(s, step.tid, step.step);
      WorkRuns(s, step.tid, step.step);
    } else {
      ServerRuns(s, step);
    }
    hide Act, Apply, TurnOf, Enabled;
  }

  lemma NewIdsDistinctStep(s: Server, step: Step)
    requires OwnIdsReserved(s) && NewIdsDistinct(s) && Enabled(s, step)
    ensures NewIdsDistinct(Apply(s, step))
  {
    assert step.Create? ==> step.id !in s.reserved;
    if step.Work? {
      WorkFrame(s, step.tid, step.step);
    } else {
      ServerRuns(s, step);
    }
    hide Act, Apply, TurnOf, Enabled;
  }

  /** The run a worker chooses is nobody else's. */
  lemma ChosenRunIsNew(s: Server, tid: Tid, newId: RunId, u: Tid)
    requires Owned(s) && RunsReserved(s) && OwnIdKept(s)
    requires Enabled(s, Work(tid, Prepare(newId))) && u in s.workers && u != tid
    ensures s.workers[u].run != TurnOf(s, tid, Prepare(newId)).w.run
  {
    WorkRuns(s, tid, Prepare(newId));
    var w := s.workers[tid];
    var x := s.sessions[w.key];
    assert !RunsOwnId(s.workers[u], x);
    hide Act, Apply, TurnOf;
  }

  lemma OneOwnerStep(s: Server, step: Step)
    requires Known(s) && Owned(s) && RunsReserved(s) && OwnIdKept(s) && OneOwner(s) && Enabled(s, step)
    ensures OneOwner(Apply(s, step))
  {
    if step.Work? {
      WorkFrame(s, step.tid, step.step);
      WorkRuns(s, step.tid, step.step);
      if step.step.Prepare? {
        forall u | u in s.workers && u != step.tid
          ensures s.workers[u].run != TurnOf(s, step.tid, step.step).w.run
        {
          ChosenRunIsNew(s, step.tid, step.step.newId, u);
        }
      }
    } else {
      ServerRuns(s, step);
    }
    hide Act, Apply, TurnOf, Enabled, Known, Owned, RunsReserved, OwnIdKept;
  }

  lemma OwnIdKeptWork(s: Server, tid: Tid, step: WorkerStep)
    requires OwnIdsReserved(s) && NewIdsDistinct(s) && OwnIdKept(s) && Enabled(s, Work(tid, step))
    ensures OwnIdKept(Apply(s, Work(tid, step)))
  {
    WorkFrame(s, tid, step);
    WorkRuns(s, tid, step);
    hide Act, Apply, TurnOf, Enabled;
    var s' := Apply(s, Work(tid, step));
    var w, x := s.workers[tid], s.sessions[s.workers[tid].key];
    forall t, k | t in s'.workers && k in s'.sessions && RunsOwnId(s'.workers[t], s'.sessions[k])
      ensures s'.workers[t].key == k
    {
      if t == tid && step.Prepare? {
        assert !Continuation(x) ==> SameNewId(x, s.sessions[k]);
      } else {
        assert RunsOwnId(s.workers[t], s.sessions[k]);
      }
    }
  }

  lemma OwnIdKeptStep(s: Server, step: Step)
    requires OwnIdsReserved(s) && RunsReserved(s) && NewIdsDistinct(s) && OwnIdKept(s) && Enabled(s, step)
    ensures OwnIdKept(Apply(s, step))
  {
    if step.Work? {
      OwnIdKeptWork(s, step.tid, step.step);
    } else {
      assert step.Create? ==> step.id !in s.reserved;
      ServerRuns(s, step);
      hide Apply, Enabled, NewIdsDistinct, OwnIdsReserved;
    }
  }

  lemma RunAtPcStep(s: Server, step: Step)
    requires RunAtPc(s) && Enabled(s, step)
    ensures RunAtPc(Apply(s, step))
  {
    if step.Work? {
      WorkFrame(s, step.tid, step.step);
      WorkRuns(s, step.tid, step.step);
      WorkPcs(s, step.tid, step.step);
    } else {
      ServerRuns(s, step);
    }
    hide Act, Apply, TurnOf, Enabled;
  }

  /** Which steps change the count of launches. */
  lemma LaunchCount(s: Server, step: Step, r: RunId)
    requires Enabled(s, step)
    ensures Launches(Apply(s, step).log, r) ==
            Launches(s.log, r) + (if step.Work? && step.step.LaunchAccepted? && s.workers[step.tid].run == Some(r) then 1 else 0)
  {
    LogGrows(s, step);
    LaunchesSnoc(s.log, EventOf(s, step), r);
    if step.Work? {
      WorkRuns(s, step.tid, step.step);
    } else {
      ServerRuns(s, step);
    }
    assert EventOf(s, step) != [] ==> EventOf(s, step)[0] in EventOf(s, step);
    hide Act, Apply, TurnOf, Enabled;
  }

  lemma LaunchedOnceStep(s: Server, step: Step)
    requires RunsReserved(s) && LaunchedOnce(s) && LaunchingUnlaunched(s) && Enabled(s, step)
    ensures LaunchedOnce(Apply(s, step))
  {
    ReservedGrows(s, step);
    AcceptedRun(s, step);
    hide Apply, Enabled, Launches;
    forall r: RunId ensures Launches(Apply(s, step).log, r) ==
        Launches(s.log, r) + (if step.Work? && step.step.LaunchAccepted? && s.workers[step.tid].run == Some(r) then 1 else 0)
    {
      LaunchCount(s, step, r);
    }
  }

  lemma AcceptedRun(s: Server, step: Step)
    requires Enabled(s, step)
    ensures step.Work? ==> step.tid in s.workers
    ensures step.Work? && step.step.LaunchAccepted? ==>
              s.workers[step.tid].pc == Launching && s.workers[step.tid].run.Some?
  {
    hide FreshRequest, FreshThread;
  }

  lemma LaunchingUnlaunchedStep(s: Server, step: Step)
    requires Known(s) && Owned(s) && RunInvariant(s) && Enabled(s, step)
    ensures LaunchingUnlaunched(Apply(s, step))
  {
    var s' := Apply(s, step);
    hide Apply, Enabled, Launches, RunInvariant, Known, Owned;
    forall t | t in s'.workers && s'.workers[t].pc == Launching && s'.workers[t].run.Some?
      ensures Launches(s'.log, s'.workers[t].run.value) == 0
    {
      if step.Work? {
        LaunchingAfterWork(s, step.tid, step.step, t);
      } else {
        LaunchCount(s, step, s'.workers[t].run.value);
        ServerRuns(s, step);
        RunInvariantParts(s);
      }
    }
  }

  lemma RunInvariantParts(s: Server)
    requires RunInvariant(s)
    ensures LaunchingUnlaunched(s) && LaunchedOnce(s) && OneOwner(s) && RunAtPc(s) && UnusedUnlaunched(s) && OwnIdsReserved(s)
  {
  }

  lemma LaunchingAfterWork(s: Server, tid: Tid, step: WorkerStep, t: Tid)
    requires Owned(s) && RunInvariant(s) && Enabled(s, Work(tid, step))
    requires var s' := Apply(s, Work(tid, step)); t in s'.workers && s'.workers[t].pc == Launching && s'.workers[t].run.Some?
    ensures var s' := Apply(s, Work(tid, step)); Launches(s'.log, s'.workers[t].run.value) == 0
  {
    LaunchCount(s, Work(tid, step), Apply(s, Work(tid, step)).workers[t].run.value);
    WorkFrame(s, tid, step);
    WorkRuns(s, tid, step);
    RunInvariantParts(s);
    hide Apply, TurnOf, Launches, RunInvariant;
    if t != tid {
      assert !SameRun(s.workers[t], s.workers[tid]);
    } else if !Continuation(s.sessions[s.workers[t].key]) {
      PreparingUnused(s, t);
    }
  }

  lemma PreparingUnused(s: Server, t: Tid)
    requires Owned(s) && RunAtPc(s) && t in s.workers && s.workers[t].pc == Preparing
    ensures !HasRun(s, s.workers[t].key)
  {
  }

  /** Workers keep their key, and a run once chosen. */
  lemma OthersRun(s: Server, s': Server, k: Key)
    requires s'.workers.Keys == s.workers.Keys
    requires forall t :: t in s.workers ==> s'.workers[t].key == s.workers[t].key
    requires forall t :: t in s.workers && s.workers[t].run.Some? ==> s'.workers[t].run.Some?
    ensures HasRun(s, k) ==> HasRun(s', k)
  {
  }

  lemma RunsStay(s: Server, step: Step, k: Key)
    requires Known(s) && Enabled(s, step) && !step.Work? && k in s.sessions
    requires Apply(s, step).sessions[k].promptCount == 0
    ensures HasRun(s, k) ==> HasRun(Apply(s, step), k)
  {
    hide FreshRequest, FreshThread;
    if step.StartPrompt? {
      NewThread(s, step.id, step.tid, step.request, step.prompt);
    }
    if HasRun(s, k) {
      var t :| t in s.workers && s.workers[t].key == k && s.workers[t].run.Some?;
      var s' := Apply(s, step);
      assert t in s'.workers && s'.workers[t] == s.workers[t];
    }
  }

  lemma UnusedUnlaunchedStep(s: Server, step: Step)
    requires Known(s) && RunInvariant(s) && Enabled(s, step)
    ensures UnusedUnlaunched(Apply(s, step))
  {
    var s' := Apply(s, step);
    forall k | Unused(s', k) ensures Launches(s'.log, s'.sessions[k].ownId) == 0 {
      LaunchCount(s, step, s'.sessions[k].ownId);
      if step.Work? {
        UnusedBeforeWork(s, step.tid, step.step, k);
      } else {
        ServerRuns(s, step);
        if k in s.sessions {
          RunsStay(s, step, k);
        } else {
          assert step.Create? && step.id !in s.reserved;
        }
        hide Apply, Enabled, Launches;
      }
    }
  }

  lemma UnusedBeforeWork(s: Server, tid: Tid, step: WorkerStep, k: Key)
    requires RunAtPc(s) && OwnIdKept(s) && Enabled(s, Work(tid, step)) && Unused(Apply(s, Work(tid, step)), k)
    ensures Unused(s, k) && s.sessions[k].ownId == Apply(s, Work(tid, step)).sessions[k].ownId
    ensures step.LaunchAccepted? ==> s.workers[tid].run != Some(s.sessions[k].ownId)
  {
    WorkFrame(s, tid, step);
    WorkRuns(s, tid, step);
    var s' := Apply(s, Work(tid, step));
    hide Act, Apply, TurnOf;
    OthersRun(s, s', k);
    if step.LaunchAccepted? {
      assert s'.workers[tid].run.Some?;
      assert s.workers[tid].key != k;
      assert !RunsOwnId(s.workers[tid], s.sessions[k]);
    }
  }
}
