/** Which session a run id belongs to, and so whose cancel a stop answers. */
module AcpLinks {
  import opened Wrappers
  import opened AcpSession
  import opened AcpSafety
  import opened AcpRuns
  import opened AcpStops

  /** The session holds the run: as its active run, as the id it was made with, by
      having launched it, or in a cancel that is about to stop it. */
  ghost predicate Linked(s: Server, k: Key, r: RunId) {
    || (k in s.sessions && HoldsRun(s.sessions[k], r))
    || LaunchedUnder(s.log, k, r)
    || s.main == Cancelling(k, true, r)
  }

  predicate HoldsRun(x: Session, r: RunId) { x.activeRun == Some(r) || (!x.restored && x.ownId == r) }

  ghost predicate LaunchedUnder(log: seq<Event>, k: Key, r: RunId) {
    exists t :: Launched(t, k, r) in log
  }

  ghost predicate OneLink(s: Server) {
    && (forall k, l, r :: Linked(s, k, r) && Linked(s, l, r) ==> k == l)
    && (forall k, r :: Linked(s, k, r) ==> r in s.reserved)
  }

  ghost predicate LaunchedHasRun(s: Server) {
    forall k :: k in s.sessions && s.sessions[k].launched ==> s.sessions[k].activeRun.Some?
  }

  /** The session that may take up a run id nobody held before. */
  ghost predicate Takes(s: Server, step: Step, k: Key) {
    || (step.Create? && step.key == k)
    || (step.Work? && step.tid in s.workers && s.workers[step.tid].key == k)
  }

  lemma WorkLinks(s: Server, tid: Tid, step: WorkerStep)
    requires ActiveRuns(s) && Enabled(s, Work(tid, step))
    ensures var (w, x, turn) := (s.workers[tid], s.sessions[s.workers[tid].key], TurnOf(s, tid, step));
            && s.reserved <= turn.reserved
            && (forall r :: HoldsRun(turn.x, r) ==> HoldsRun(x, r) || (r !in s.reserved && r in turn.reserved))
            && (forall t, k, r :: Launched(t, k, r) in turn.events ==> k == w.key && HoldsRun(x, r))
            && ((x.launched ==> x.activeRun.Some?) ==> turn.x.launched ==> turn.x.activeRun.Some?)
  {
  }

  lemma LinkWork(s: Server, tid: Tid, step: WorkerStep, k: Key, r: RunId)
    requires ActiveRuns(s) && Enabled(s, Work(tid, step)) && Linked(Apply(s, Work(tid, step)), k, r)
    ensures Linked(s, k, r) || (r !in s.reserved && Takes(s, Work(tid, step), k) && r in Apply(s, Work(tid, step)).reserved)
  {
    WorkFrame(s, tid, step);
    WorkLinks(s, tid, step);
    hide Act, Apply, TurnOf, HoldsRun, ActiveRuns;
    var s', turn := Apply(s, Work(tid, step)), TurnOf(s, tid, step);
    if LaunchedUnder(s'.log, k, r) && !LaunchedUnder(s.log, k, r) {
      var t :| Launched(t, k, r) in s'.log;
      assert Launched(t, k, r) in turn.events;
    }
  }

  lemma LinkServer(s: Server, step: Step, k: Key, r: RunId)
    requires LaunchedHasRun(s) && Enabled(s, step) && !step.Work? && Linked(Apply(s, step), k, r)
    ensures Linked(s, k, r) || (r !in s.reserved && Takes(s, step, k) && r in Apply(s, step).reserved)
  {
    LogGrows(s, step);
    ServerRuns(s, step);
    ServerActive(s, step);
    var s' := Apply(s, step);
    if LaunchedUnder(s'.log, k, r) {
      var t :| Launched(t, k, r) in s'.log;
      assert Launched(t, k, r) in s.log;
    } else if k in s'.sessions && HoldsRun(s'.sessions[k], r) {
      hide FreshRequest, FreshThread, LaunchedUnder;
    } else {
      hide FreshRequest, FreshThread, LaunchedUnder;
      assert s'.main == Cancelling(k, true, r);
    }
  }

  lemma LinkStep(s: Server, step: Step, k: Key, r: RunId)
    requires ActiveRuns(s) && LaunchedHasRun(s) && Enabled(s, step) && Linked(Apply(s, step), k, r)
    ensures Linked(s, k, r) || (r !in s.reserved && Takes(s, step, k) && r in Apply(s, step).reserved)
  {
    if step.Work? {
      LinkWork(s, step.tid, step.step, k, r);
    } else {
      LinkServer(s, step, k, r);
    }
  }

  lemma OneLinkStep(s: Server, step: Step)
    requires ActiveRuns(s) && LaunchedHasRun(s) && OneLink(s) && Enabled(s, step)
    ensures OneLink(Apply(s, step))
  {
    ReservedGrows(s, step);
    var s' := Apply(s, step);
    hide Linked, Apply, Enabled, ActiveRuns, LaunchedHasRun;
    forall k, r | Linked(s', k, r)
      ensures r in s'.reserved && (Linked(s, k, r) || (r !in s.reserved && Takes(s, step, k)))
    {
      LinkStep(s, step, k, r);
    }
  }

  lemma LaunchedHasRunStep(s: Server, step: Step)
    requires ActiveRuns(s) && LaunchedHasRun(s) && Enabled(s, step)
    ensures LaunchedHasRun(Apply(s, step))
  {
    if step.Work? {
      WorkFrame(s, step.tid, step.step);
      WorkLinks(s, step.tid, step.step);
      hide Act, Apply, TurnOf, HoldsRun;
    } else {
      ServerActive(s, step);
      ServerRuns(s, step);
      hide Apply, Enabled;
    }
  }

  // ---- a stop answers a cancel of the run's own session ----

  /** Every stop comes after a cancel of whatever session the run is linked to. */
  ghost predicate StopsCancelled(s: Server) {
    forall j :: 0 <= j < |s.log| && s.log[j].StopRequested? ==>
      s.log[j].run in s.reserved && forall k :: Linked(s, k, s.log[j].run) ==> CancelSection(k) in s.log[..j]
  }

  /** Whoever is about to stop a run has seen the cancel. */
  ghost predicate StoppersCancelled(s: Server) {
    && (s.main.Cancelling? ==> CancelSection(s.main.key) in s.log)
    && (forall t :: t in s.workers && s.workers[t].pc == Stopping ==> CancelSection(s.workers[t].key) in s.log)
  }

  lemma WorkStopping(s: Server, tid: Tid, step: WorkerStep)
    requires Enabled(s, Work(tid, step))
    ensures var (w, turn) := (s.workers[tid], TurnOf(s, tid, step));
            && (turn.w.pc == Stopping ==> s.sessions[w.key].cancelled)
            && (forall e :: e in turn.events && e.StopRequested? ==> w.pc == Stopping && w.run == Some(e.run))
  {
  }

  lemma StoppersCancelledStep(s: Server, step: Step)
    requires CancelsLogged(s) && StoppersCancelled(s) && Enabled(s, step)
    ensures StoppersCancelled(Apply(s, step))
  {
    LogGrows(s, step);
    if step.Work? {
      WorkFrame(s, step.tid, step.step);
      WorkStopping(s, step.tid, step.step);
      hide Act, Apply, TurnOf;
    } else {
      ServerActive(s, step);
      MainCancels(s, step);
      hide Apply, Enabled, EventOf;
    }
  }

  lemma MainCancels(s: Server, step: Step)
    requires Enabled(s, step) && !step.Work?
    ensures var s' := Apply(s, step);
            s'.main.Cancelling? ==> s'.main == s.main || CancelSection(s'.main.key) in s'.log
  {
    hide FreshRequest, FreshThread;
  }

  /** The session in whose name a step stops a run. */
  lemma StopEvents(s: Server, step: Step, r: RunId)
    requires ActiveRuns(s) && StoppersCancelled(s) && Enabled(s, step) && StopRequested(r) in EventOf(s, step)
    ensures exists k :: Linked(s, k, r) && CancelSection(k) in s.log
  {
    if step.Work? {
      var k := s.workers[step.tid].key;
      WorkStopping(s, step.tid, step.step);
      hide Act, TurnOf;
      assert Linked(s, k, r) && CancelSection(k) in s.log;
    } else {
      hide FreshRequest, FreshThread;
      assert Linked(s, s.main.key, r) && CancelSection(s.main.key) in s.log;
    }
  }

  lemma StopsCancelledStep(s: Server, step: Step)
    requires ActiveRuns(s) && LaunchedHasRun(s) && OneLink(s) && StoppersCancelled(s) && StopsCancelled(s) && Enabled(s, step)
    ensures StopsCancelled(Apply(s, step))
  {
    LogGrows(s, step);
    ReservedGrows(s, step);
    var s' := Apply(s, step);
    hide Linked, Apply, Enabled, ActiveRuns, LaunchedHasRun, EventOf, StoppersCancelled;
    forall j | 0 <= j < |s'.log| && s'.log[j].StopRequested?
      ensures s'.log[j].run in s'.reserved && forall k :: Linked(s', k, s'.log[j].run) ==> CancelSection(k) in s'.log[..j]
    {
      StopCancelledAt(s, step, j);
    }
  }

  lemma StopCancelledAt(s: Server, step: Step, j: nat)
    requires ActiveRuns(s) && LaunchedHasRun(s) && OneLink(s) && StoppersCancelled(s) && StopsCancelled(s) && Enabled(s, step)
    requires j < |Apply(s, step).log| && Apply(s, step).log[j].StopRequested?
    ensures var (s', r) := (Apply(s, step), Apply(s, step).log[j].run);
            r in s.reserved && forall k :: Linked(s', k, r) ==> CancelSection(k) in s'.log[..j]
  {
    LogGrows(s, step);
    var s' := Apply(s, step);
    var r := s'.log[j].run;
    hide Linked, Apply, Enabled, ActiveRuns, LaunchedHasRun, EventOf, StoppersCancelled;
    if j < |s.log| {
      assert s'.log[j] == s.log[j] && s'.log[..j] == s.log[..j];
    } else {
      assert s'.log[j] == EventOf(s, step)[0] && EventOf(s, step)[0] in EventOf(s, step) && s'.log[..j] == s.log;
      StopEvents(s, step, r);
    }
    forall k | Linked(s', k, r) ensures CancelSection(k) in s'.log[..j] {
      LinkStep(s, step, k, r);
    }
  }
}
