/** What a cancel achieves: at most one direct run of the session is launched
    after it, and every run it finds unfinished is asked to stop. */
module AcpStops {
  import opened Wrappers
  import opened AcpSession
  import opened AcpSafety
  import opened AcpRuns

  // ---- the cancelled flag is the memory of the log ----

  ghost predicate CancelsLogged(s: Server) {
    forall k: Key :: CancelSection(k) in s.log <==> k in s.sessions && s.sessions[k].cancelled
  }

  lemma CancelsLoggedStep(s: Server, step: Step)
    requires CancelsLogged(s) && Enabled(s, step)
    ensures CancelsLogged(Apply(s, step))
  {
    if step.Work? {
      WorkFrame(s, step.tid, step.step);
      WorkNeverCancels(s, step.tid, step.step);
      hide Act, TurnOf, Apply;
    } else {
      LogGrows(s, step);
      hide FreshRequest, FreshThread;
    }
  }

  lemma WorkNeverCancels(s: Server, tid: Tid, step: WorkerStep)
    requires Enabled(s, Work(tid, step))
    ensures forall e :: e in TurnOf(s, tid, step).events ==> !e.CancelSection?
  {
  }

  // ---- a direct run stays with its worker until its await ends ----

  predicate Running(pc: Pc) { pc in {Marking, Stopping, Awaiting} }

  ghost predicate ActiveRuns(s: Server) {
    forall t :: t in s.workers && WithRun(s.workers[t].pc) ==>
      var w := s.workers[t];
      && w.run.Some? && w.key in s.sessions && s.sessions[w.key].activeRun == w.run
      && (w.pc in {Stopping, Awaiting} ==> s.sessions[w.key].launched)
  }

  /** How a worker step treats the fields a cancel reads. */
  lemma WorkActive(s: Server, tid: Tid, step: WorkerStep)
    requires ActiveRuns(s) && Enabled(s, Work(tid, step))
    ensures var turn := TurnOf(s, tid, step);
            && (WithRun(turn.w.pc) ==> turn.w.run.Some? && turn.x.activeRun == turn.w.run)
            && (turn.w.pc in {Stopping, Awaiting} ==> turn.x.launched)
  {
  }

  predicate SameActive(x: Session, y: Session) {
    y.activeRun == x.activeRun && y.launched == x.launched && (x.cancelled ==> y.cancelled)
  }

  lemma ServerActive(s: Server, step: Step)
    requires Enabled(s, step) && !step.Work?
    ensures s.sessions.Keys <= Apply(s, step).sessions.Keys
    ensures forall k :: k in s.sessions ==> SameActive(s.sessions[k], Apply(s, step).sessions[k])
    ensures forall t :: t in Apply(s, step).workers && Apply(s, step).workers[t].pc != Parsing ==>
              t in s.workers && Apply(s, step).workers[t] == s.workers[t]
  {
    hide FreshRequest, FreshThread;
  }

  lemma ActiveRunsStep(s: Server, step: Step)
    requires Owned(s) && ActiveRuns(s) && Enabled(s, step)
    ensures ActiveRuns(Apply(s, step))
  {
    if step.Work? {
      WorkFrame(s, step.tid, step.step);
      WorkActive(s, step.tid, step.step);
    } else {
      ServerActive(s, step);
    }
    hide Act, Apply, TurnOf, Enabled;
  }

  ghost predicate RunsOn(s: Server, t: Tid, k: Key, r: RunId) {
    t in s.workers && s.workers[t].key == k && s.workers[t].run == Some(r) && Running(s.workers[t].pc)
  }

  /** A launched run whose await has not ended, and which was not stopped, is
      still in the hands of the worker that launched it. */
  ghost predicate RunsHeld(s: Server) {
    forall t, k, r :: Launched(t, k, r) in s.log && !Ended(s.log, r) && StopRequested(r) !in s.log ==>
      RunsOn(s, t, k, r)
  }

  lemma WorkHolds(s: Server, tid: Tid, step: WorkerStep)
    requires Enabled(s, Work(tid, step)) && s.workers[tid].run.Some?
    ensures var (w, turn) := (s.workers[tid], TurnOf(s, tid, step));
            Running(w.pc) ==>
              && turn.w.run == w.run
              && (Running(turn.w.pc) || Ended(turn.events, w.run.value) || StopRequested(w.run.value) in turn.events)
  {
  }

  lemma RunsHeldStep(s: Server, step: Step)
    requires Known(s) && RunsHeld(s) && Enabled(s, step)
    ensures RunsHeld(Apply(s, step))
  {
    LogGrows(s, step);
    var s', events := Apply(s, step), EventOf(s, step);
    forall t, k, r | Launched(t, k, r) in s'.log && !Ended(s'.log, r) && StopRequested(r) !in s'.log
      ensures RunsOn(s', t, k, r)
    {
      if step.Work? {
        WorkFrame(s, step.tid, step.step);
        WorkRuns(s, step.tid, step.step);
        if Launched(t, k, r) in s.log && t == step.tid {
          WorkHolds(s, t, step.step);
        }
        hide Act, Apply, TurnOf, Enabled, Known;
      } else {
        ServerRuns(s, step);
        ServerKeeps(s, step, t);
        hide Apply, EventOf, Enabled, Known;
      }
    }
  }

  // ---- every run a cancel finds unfinished is asked to stop ----

  /** The c-th event is a cancel of the session that launched the run, and the
      run's await had not ended by then. */
  ghost predicate OwedBy(log: seq<Event>, c: int, k: Key, r: RunId) {
    && 0 <= c < |log| && log[c] == CancelSection(k)
    && (exists t :: Launched(t, k, r) in log)
    && !Ended(log[..c], r)
  }

  /** Somebody is about to request the stop: the worker, or the cancel handler. */
  ghost predicate Promised(s: Server, k: Key, r: RunId) {
    || s.main == Cancelling(k, true, r)
    || (exists t :: RunsOn(s, t, k, r) && WillStop(s, t))
  }

  ghost predicate WillStop(s: Server, t: Tid) {
    t in s.workers && (s.workers[t].pc == Stopping
      || (s.workers[t].pc == Marking && s.workers[t].key in s.sessions && s.sessions[s.workers[t].key].cancelled))
  }

  ghost predicate StopsPromised(s: Server) {
    forall c, k, r :: OwedBy(s.log, c, k, r) && StopRequested(r) !in s.log ==> Promised(s, k, r)
  }

  /** A promise is kept, or passed on by the next step. */
  lemma PromiseKept(s: Server, step: Step, k: Key, r: RunId)
    requires Known(s) && Promised(s, k, r) && Enabled(s, step)
    ensures Promised(Apply(s, step), k, r) || StopRequested(r) in Apply(s, step).log
  {
    if s.main == Cancelling(k, true, r) {
      MainPromiseKept(s, step, k, r);
    } else {
      var t :| RunsOn(s, t, k, r) && WillStop(s, t);
      WorkerPromiseKept(s, step, t, k, r);
    }
  }

  lemma MainPromiseKept(s: Server, step: Step, k: Key, r: RunId)
    requires s.main == Cancelling(k, true, r) && Enabled(s, step)
    ensures Promised(Apply(s, step), k, r) || StopRequested(r) in Apply(s, step).log
  {
    LogGrows(s, step);
    if step.Work? {
      WorkFrame(s, step.tid, step.step);
      hide Act, TurnOf, Apply;
    }
  }

  lemma WorkerPromiseKept(s: Server, step: Step, t: Tid, k: Key, r: RunId)
    requires Known(s) && RunsOn(s, t, k, r) && WillStop(s, t) && Enabled(s, step)
    ensures Promised(Apply(s, step), k, r) || StopRequested(r) in Apply(s, step).log
  {
    LogGrows(s, step);
    var s' := Apply(s, step);
    if step.Work? {
      WorkFrame(s, step.tid, step.step);
      if step.tid == t {
        WorkWillStop(s, t, step.step);
      }
      hide Act, TurnOf, Apply;
    } else {
      ServerKeeps(s, step, t);
      ServerActive(s, step);
      hide Apply, Enabled, EventOf;
    }
    assert StopRequested(r) !in s'.log ==> RunsOn(s', t, k, r) && WillStop(s', t);
  }

  lemma WorkWillStop(s: Server, t: Tid, step: WorkerStep)
    requires Enabled(s, Work(t, step)) && WillStop(s, t) && s.workers[t].run.Some?
    ensures var turn := TurnOf(s, t, step);
            StopRequested(s.workers[t].run.value) in turn.events
            || (turn.w.pc == Stopping && turn.w.run == s.workers[t].run)
  {
  }

  /** A cancel leaves a promise for each of the session's unfinished runs. */
  lemma CancelPromises(s: Server, id: RunId, k: Key, t: Tid, r: RunId)
    requires ActiveRuns(s) && RunsHeld(s) && Enabled(s, Cancel(id)) && k == s.names[id] && Launched(t, k, r) in s.log
    requires !Ended(s.log, r) && StopRequested(r) !in s.log
    ensures Promised(Apply(s, Cancel(id)), k, r)
  {
    assert RunsOn(s, t, k, r);
    assert s.workers[t].pc != Awaiting ==> RunsOn(Apply(s, Cancel(id)), t, k, r) && WillStop(Apply(s, Cancel(id)), t);
  }

  /** A launch in a cancelled session is followed by the worker's own stop. */
  lemma LaunchPromises(s: Server, tid: Tid, step: WorkerStep, k: Key, r: RunId)
    requires CancelsLogged(s) && Enabled(s, Work(tid, step)) && CancelSection(k) in s.log
    requires Launched(tid, k, r) in TurnOf(s, tid, step).events
    ensures Promised(Apply(s, Work(tid, step)), k, r)
  {
    WorkFrame(s, tid, step);
    WorkRuns(s, tid, step);
    hide Act, TurnOf, Apply;
    var s' := Apply(s, Work(tid, step));
    assert RunsOn(s', tid, k, r) && WillStop(s', tid);
  }

  lemma StopsPromisedStep(s: Server, step: Step)
    requires Known(s) && CancelsLogged(s) && ActiveRuns(s) && RunsHeld(s) && StopsPromised(s) && Enabled(s, step)
    ensures StopsPromised(Apply(s, step))
  {
    var s' := Apply(s, step);
    forall c, k, r | OwedBy(s'.log, c, k, r) && StopRequested(r) !in s'.log ensures Promised(s', k, r) {
      NewPromise(s, step, c, k, r);
    }
  }

  /** The events that create a debt. */
  lemma DebtEvents(s: Server, step: Step)
    requires Enabled(s, step)
    ensures forall e :: e in EventOf(s, step) && e.CancelSection? ==> step.Cancel? && e.key == s.names[step.id]
    ensures forall e :: e in EventOf(s, step) && e.Launched? ==> step.Work? && step.tid == e.tid
    ensures step.Work? ==> EventOf(s, step) == TurnOf(s, step.tid, step.step).events
  {
    hide FreshRequest, FreshThread;
  }

  lemma OldDebt(log: seq<Event>, more: seq<Event>, c: int, k: Key, r: RunId, t: Tid)
    requires OwedBy(log + more, c, k, r) && c < |log| && Launched(t, k, r) in log
    ensures OwedBy(log, c, k, r)
  {
    assert (log + more)[..c] == log[..c];
  }

  lemma NewDebt(log: seq<Event>, more: seq<Event>, c: int, k: Key, r: RunId)
    requires OwedBy(log + more, c, k, r) && c >= |log|
    ensures CancelSection(k) in more && !Ended(log, r)
  {
    assert CancelSection(k) == more[c - |log|];
    assert log <= (log + more)[..c];
  }

  lemma NewPromise(s: Server, step: Step, c: int, k: Key, r: RunId)
    requires Known(s) && CancelsLogged(s) && ActiveRuns(s) && RunsHeld(s) && StopsPromised(s) && Enabled(s, step)
    requires OwedBy(Apply(s, step).log, c, k, r) && StopRequested(r) !in Apply(s, step).log
    ensures Promised(Apply(s, step), k, r)
  {
    LogGrows(s, step);
    DebtEvents(s, step);
    var log, events := s.log, EventOf(s, step);
    hide Apply, EventOf, Enabled, Known, CancelsLogged, ActiveRuns, RunsHeld, StopsPromised, Promised;
    var t :| Launched(t, k, r) in log + events;
    if Launched(t, k, r) in events {
      NewLaunch(s, step, c, k, r, t);
    } else if c < |log| {
      OldDebt(log, events, c, k, r, t);
      StopsPromisedAt(s, c, k, r);
      PromiseKept(s, step, k, r);
    } else {
      NewDebt(log, events, c, k, r);
      CancelPromises(s, step.id, k, t, r);
    }
  }

  lemma NewLaunch(s: Server, step: Step, c: int, k: Key, r: RunId, t: Tid)
    requires CancelsLogged(s) && Enabled(s, step) && Launched(t, k, r) in EventOf(s, step)
    requires OwedBy(Apply(s, step).log, c, k, r)
    ensures Promised(Apply(s, step), k, r)
  {
    LogGrows(s, step);
    DebtEvents(s, step);
    hide Apply, EventOf, Enabled, CancelsLogged, Promised;
    assert CancelSection(k) in s.log + EventOf(s, step);
    LaunchPromises(s, step.tid, step.step, k, r);
  }

  lemma StopsPromisedAt(s: Server, c: int, k: Key, r: RunId)
    requires StopsPromised(s) && OwedBy(s.log, c, k, r) && StopRequested(r) !in s.log
    ensures Promised(s, k, r)
  {
  }

  // ---- at most one launch after the first cancel ----

  function LateLaunches(log: seq<Event>, k: Key): nat {
    if log == [] then 0
    else
      var (before, e) := (log[..|log| - 1], log[|log| - 1]);
      LateLaunches(before, k) + (if e.Launched? && e.key == k && CancelSection(k) in before then 1 else 0)
  }

  lemma LateLaunchesSnoc(log: seq<Event>, events: seq<Event>, k: Key)
    requires |events| <= 1
    ensures LateLaunches(log + events, k) ==
            LateLaunches(log, k)
            + (if events != [] && events[0].Launched? && events[0].key == k && CancelSection(k) in log then 1 else 0)
  {
    if events != [] {
      assert (log + events)[..|log|] == log;
    } else {
      assert log + events == log;
    }
  }

  ghost predicate MayLaunch(s: Server, k: Key) {
    exists t :: t in s.workers && s.workers[t].key == k && s.workers[t].pc in {Preparing, Launching}
  }

  ghost predicate LateAtMostOne(s: Server) {
    && (forall k :: LateLaunches(s.log, k) <= 1)
    && (forall k :: MayLaunch(s, k) || CancelSection(k) !in s.log ==> LateLaunches(s.log, k) == 0)
  }

  lemma LateCount(s: Server, step: Step, k: Key)
    requires Enabled(s, step)
    ensures LateLaunches(Apply(s, step).log, k) ==
            LateLaunches(s.log, k)
            + (if step.Work? && step.step.LaunchAccepted? && s.workers[step.tid].key == k && CancelSection(k) in s.log
               then 1 else 0)
  {
    LogGrows(s, step);
    LateLaunchesSnoc(s.log, EventOf(s, step), k);
    if step.Work? {
      WorkRuns(s, step.tid, step.step);
    } else {
      ServerRuns(s, step);
    }
    assert EventOf(s, step) != [] ==> EventOf(s, step)[0] in EventOf(s, step);
    hide Act, Apply, TurnOf, Enabled;
  }

  /** Only a worker that passed the gate of an uncancelled session may launch. */
  lemma MayLaunchBefore(s: Server, step: Step, k: Key)
    requires Owned(s) && CancelsLogged(s) && Enabled(s, step) && MayLaunch(Apply(s, step), k)
    ensures MayLaunch(s, k) || CancelSection(k) !in s.log
    ensures !(step.Work? && step.step.LaunchAccepted? && s.workers[step.tid].key == k)
  {
    if step.Work? {
      MayLaunchWork(s, step.tid, step.step, k);
    } else {
      hide Apply, Enabled;
      ServerActive(s, step);
      var s' := Apply(s, step);
      var t :| t in s'.workers && s'.workers[t].key == k && s'.workers[t].pc in {Preparing, Launching};
    }
  }

  lemma MayLaunchWork(s: Server, tid: Tid, step: WorkerStep, k: Key)
    requires Owned(s) && CancelsLogged(s) && Enabled(s, Work(tid, step)) && MayLaunch(Apply(s, Work(tid, step)), k)
    ensures MayLaunch(s, k) || CancelSection(k) !in s.log
    ensures !(step.LaunchAccepted? && s.workers[tid].key == k)
  {
    WorkFrame(s, tid, step);
    WorkMayLaunch(s, tid, step);
    hide Apply, TurnOf, CanStep;
    var s' := Apply(s, Work(tid, step));
    var t :| t in s'.workers && s'.workers[t].key == k && s'.workers[t].pc in {Preparing, Launching};
  }

  lemma WorkMayLaunch(s: Server, tid: Tid, step: WorkerStep)
    requires Enabled(s, Work(tid, step))
    ensures TurnOf(s, tid, step).w.pc in {Preparing, Launching} ==>
              (s.workers[tid].pc == Preparing || !s.sessions[s.workers[tid].key].cancelled) && !step.LaunchAccepted?
  {
  }

  lemma LateAtMostOneStep(s: Server, step: Step)
    requires Owned(s) && CancelsLogged(s) && LateAtMostOne(s) && Enabled(s, step)
    ensures LateAtMostOne(Apply(s, step))
  {
    LogGrows(s, step);
    var s' := Apply(s, step);
    forall k: Key
      ensures LateLaunches(s'.log, k) <= 1
      ensures MayLaunch(s', k) || CancelSection(k) !in s'.log ==> LateLaunches(s'.log, k) == 0
    {
      LateCount(s, step, k);
      if MayLaunch(s', k) {
        MayLaunchBefore(s, step, k);
      }
      assert step.Work? && step.step.LaunchAccepted? && s.workers[step.tid].key == k ==> MayLaunch(s, k);
      assert CancelSection(k) in s.log ==> CancelSection(k) in s'.log;
      hide Apply, Enabled, EventOf, LateLaunches, MayLaunch;
    }
  }
}
