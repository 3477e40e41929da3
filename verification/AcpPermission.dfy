/** Hard-stop prompts and the client rendezvous: every launch for a hard-stop
    prompt was allowed once by a response to its own request, and a response
    reaches at most one waiter. */
module AcpPermission {
  import opened Wrappers
  import opened AcpSession
  import opened AcpSafety

  // ---- threads and requests ----

  ghost predicate OneReceipt(log: seq<Event>) {
    forall e, f :: e in log && f in log && e.Received? && f.Received? && e.tid == f.tid ==> e == f
  }

  lemma OneReceiptStep(s: Server, step: Step)
    requires OneReceipt(s.log) && Enabled(s, step)
    ensures OneReceipt(Apply(s, step).log)
  {
    LogGrows(s, step);
    assert forall e :: e in EventOf(s, step) && e.Received? ==> step.StartPrompt? && e.tid == step.tid;
    hide Apply, EventOf, FreshRequest;
  }

  // ---- the identity of permission requests ----

  ghost predicate HasAsked(log: seq<Event>, t: Tid) {
    exists e :: e in log && e.Asked? && e.tid == t
  }

  ghost predicate AskedIds(log: seq<Event>, counter: nat) {
    && (forall e :: e in log && e.Asked? ==> e.perm <= counter)
    && (forall e, f :: e in log && f in log && e.Asked? && f.Asked? && e.perm == f.perm ==> e == f)
    && (forall e :: e in log && e.Asked? ==> !FreshThread(log, e.tid))
  }

  ghost predicate WorkerPerms(s: Server) {
    forall t :: t in s.workers ==>
      var w := s.workers[t];
      && (w.perm.Some? ==> Asked(t, w.perm.value) in s.log)
      && (w.pc in {Parsing, Asking} ==> !HasAsked(s.log, t))
      && (w.pc == Waiting ==> w.perm.Some?)
  }

  /** The only worker steps that write a permission event. */
  lemma WorkPermEvents(s: Server, tid: Tid, step: WorkerStep)
    requires Enabled(s, Work(tid, step))
    ensures forall e :: e in TurnOf(s, tid, step).events && e.Asked? ==>
              step.Ask? && e == Asked(tid, s.perms.counter + 1) && TurnOf(s, tid, step).w.perm == Some(e.perm)
    ensures TurnOf(s, tid, step).perms.counter == s.perms.counter + (if step.Ask? then 1 else 0)
    ensures !step.Ask? ==> TurnOf(s, tid, step).w.perm == s.workers[tid].perm
    ensures step.Ask? ==> TurnOf(s, tid, step).events == [Asked(tid, s.perms.counter + 1)]
    ensures TurnOf(s, tid, step).w.pc in {Parsing, Asking} ==> s.workers[tid].pc in {Parsing, Asking} && !step.Ask?
    ensures TurnOf(s, tid, step).w.pc == Waiting ==> step.Ask?
    ensures step.Ask? ==> s.workers[tid].pc == Asking
  {
  }

  lemma ServerPermEvents(s: Server, step: Step)
    requires Enabled(s, step) && !step.Work?
    ensures forall e :: e in EventOf(s, step) ==> !e.Asked? && !e.Collected?
    ensures Apply(s, step).perms.counter == s.perms.counter
    ensures forall t :: t in Apply(s, step).workers ==>
              (t in s.workers && Apply(s, step).workers[t] == s.workers[t])
              || (step.StartPrompt? && t == step.tid && Apply(s, step).workers[t].pc == Parsing
                  && Apply(s, step).workers[t].perm == None)
  {
    hide FreshRequest, FreshThread;
  }

  lemma StaysKnown(log: seq<Event>, more: seq<Event>, t: Tid)
    requires !FreshThread(log, t)
    ensures !FreshThread(log + more, t)
  {
    var e :| e in log && e.Received? && e.tid == t;
    assert e in log + more;
  }

  lemma WorkersNotFresh(s: Server, tid: Tid)
    requires Known(s) && tid in s.workers
    ensures !FreshThread(s.log, tid)
  {
  }

  lemma AskedIdsStep(s: Server, step: Step)
    requires Known(s) && AskedIds(s.log, s.perms.counter) && Enabled(s, step)
    ensures AskedIds(Apply(s, step).log, Apply(s, step).perms.counter)
  {
    LogGrows(s, step);
    if step.Work? {
      WorkFrame(s, step.tid, step.step);
      WorkPermEvents(s, step.tid, step.step);
      WorkersNotFresh(s, step.tid);
    } else {
      ServerPermEvents(s, step);
    }
    var s' := Apply(s, step);
    hide Apply, EventOf, Act, FreshThread, FreshRequest, Enabled, Known;
    forall e | e in s'.log && e.Asked? ensures !FreshThread(s'.log, e.tid) {
      if e in s.log {
        StaysKnown(s.log, EventOf(s, step), e.tid);
      } else {
        assert step.Work? && e.tid == step.tid;
        StaysKnown(s.log, EventOf(s, step), e.tid);
      }
    }
  }

  lemma WorkerPermsStep(s: Server, step: Step)
    requires Known(s) && AskedIds(s.log, s.perms.counter) && WorkerPerms(s) && Enabled(s, step)
    ensures WorkerPerms(Apply(s, step))
  {
    LogGrows(s, step);
    if step.Work? {
      WorkFrame(s, step.tid, step.step);
      WorkPermEvents(s, step.tid, step.step);
    } else {
      ServerPermEvents(s, step);
      if step.StartPrompt? {
        assert !HasAsked(s.log, step.tid);
      }
    }
    var s' := Apply(s, step);
    hide Apply, EventOf, Act, FreshThread, FreshRequest, Enabled, Known, TurnOf;
    forall t | t in s'.workers && s'.workers[t].pc in {Parsing, Asking} ensures !HasAsked(s'.log, t) {
      assert !HasAsked(s.log, t);
    }
  }

  /** A worker sends at most one permission request, at one place of the log. */
  ghost predicate AskedOnce(log: seq<Event>) {
    forall a, b :: 0 <= a < |log| && 0 <= b < |log| && log[a].Asked? && log[b].Asked? && log[a].tid == log[b].tid ==> a == b
  }

  lemma AskedOnceStep(s: Server, step: Step)
    requires WorkerPerms(s) && AskedOnce(s.log) && Enabled(s, step)
    ensures AskedOnce(Apply(s, step).log)
  {
    LogGrows(s, step);
    var events := EventOf(s, step);
    if step.Work? {
      WorkPermEvents(s, step.tid, step.step);
    } else {
      ServerPermEvents(s, step);
    }
    if events != [] && events[0].Asked? {
      assert events[0] in events;
      assert step.Work? && s.workers[step.tid].pc == Asking && !HasAsked(s.log, step.tid);
      AskedNowOnly(s.log, events[0]);
    } else {
      NotAsked(s.log, events);
    }
    hide Apply, EventOf, Act, Enabled, TurnOf, WorkerPerms;
    assert events == [] || events == [events[0]];
  }

  lemma AskedNowOnly(log: seq<Event>, e: Event)
    requires AskedOnce(log) && e.Asked? && !HasAsked(log, e.tid)
    ensures AskedOnce(log + [e])
  {
    assert forall a :: 0 <= a < |log| ==> log[a] in log;
  }

  lemma NotAsked(log: seq<Event>, events: seq<Event>)
    requires AskedOnce(log) && |events| <= 1 && (events != [] ==> !events[0].Asked?)
    ensures AskedOnce(log + events)
  {
  }

  // ---- responses: each reaches at most one waiter ----

  function Collects(log: seq<Event>, n: PermId): nat {
    if log == [] then 0
    else Collects(log[..|log| - 1], n)
         + (if log[|log| - 1].Collected? && log[|log| - 1].perm == n then 1 else 0)
  }

  lemma CollectsSnoc(log: seq<Event>, events: seq<Event>, n: PermId)
    requires |events| <= 1
    ensures Collects(log + events, n) ==
            Collects(log, n) + (if events != [] && events[0].Collected? && events[0].perm == n then 1 else 0)
  {
    if events != [] {
      assert (log + events)[..|log|] == log;
    } else {
      assert log + events == log;
    }
  }

  ghost predicate CollectedOnce(s: Server) {
    && (forall n :: Collects(s.log, n) <= 1)
    && (forall n :: n > s.perms.counter ==> Collects(s.log, n) == 0)
    && (forall t :: t in s.workers && s.workers[t].pc == Waiting && s.workers[t].perm.Some? ==>
          Collects(s.log, s.workers[t].perm.value) == 0)
  }

  lemma WorkCollects(s: Server, tid: Tid, step: WorkerStep)
    requires Enabled(s, Work(tid, step))
    ensures var events := TurnOf(s, tid, step).events;
            && |events| <= 1
            && (events != [] && events[0].Collected? ==>
                  step.Collect? && s.workers[tid].pc == Waiting && s.workers[tid].perm == Some(events[0].perm)
                  && TurnOf(s, tid, step).w.pc != Waiting)
  {
  }

  lemma WaitersDiffer(s: Server, t: Tid, u: Tid)
    requires AskedIds(s.log, s.perms.counter) && WorkerPerms(s) && t in s.workers && u in s.workers && t != u
    requires s.workers[t].perm.Some?
    ensures s.workers[t].perm != s.workers[u].perm
    ensures s.workers[t].perm.value <= s.perms.counter
  {
  }

  lemma CollectedOnceStep(s: Server, step: Step)
    requires AskedIds(s.log, s.perms.counter) && WorkerPerms(s) && CollectedOnce(s) && Enabled(s, step)
    ensures CollectedOnce(Apply(s, step))
  {
    LogGrows(s, step);
    var s', events := Apply(s, step), EventOf(s, step);
    forall n ensures Collects(s'.log, n) ==
        Collects(s.log, n) + (if events != [] && events[0].Collected? && events[0].perm == n then 1 else 0)
    {
      CollectsSnoc(s.log, events, n);
    }
    if step.Work? {
      WorkFrame(s, step.tid, step.step);
      WorkPermEvents(s, step.tid, step.step);
      WorkCollects(s, step.tid, step.step);
      forall u | u in s.workers && u != step.tid && s.workers[u].perm.Some?
        ensures s.workers[step.tid].perm != s.workers[u].perm && s.workers[u].perm.value <= s.perms.counter
      {
        WaitersDiffer(s, u, step.tid);
      }
    } else {
      ServerPermEvents(s, step);
    }
    hide Apply, EventOf, Act, Enabled, TurnOf, Collects, AskedIds;
  }

  // ---- grants ----

  ghost predicate RepliesLogged(s: Server) {
    forall n :: n in s.perms.responses ==> Replied(n, s.perms.responses[n]) in s.log
  }

  lemma RepliesLoggedStep(s: Server, step: Step)
    requires RepliesLogged(s) && Enabled(s, step)
    ensures RepliesLogged(Apply(s, step))
  {
    LogGrows(s, step);
    hide FreshRequest, FreshThread;
    if step.Work? {
      assert forall n :: n in TurnOf(s, step.tid, step.step).perms.responses ==>
          n in s.perms.responses && TurnOf(s, step.tid, step.step).perms.responses[n] == s.perms.responses[n];
      WorkFrame(s, step.tid, step.step);
      hide Act, TurnOf, Apply;
    }
  }

  /** The program points a hard-stop prompt reaches only with a grant. */
  predicate PastPermission(pc: Pc) {
    pc in {AtGate, Preparing, Launching, Marking, Stopping, Awaiting, InLifecycle}
  }

  ghost predicate GrantedIn(log: seq<Event>, t: Tid) {
    exists n :: Asked(t, n) in log && Replied(n, AllowOnce) in log
  }

  ghost predicate Granted(s: Server) {
    forall t :: t in s.workers && s.workers[t].prompt.hardStop && PastPermission(s.workers[t].pc) ==>
      GrantedIn(s.log, t)
  }

  lemma WorkGrants(s: Server, tid: Tid, step: WorkerStep)
    requires WorkerPerms(s) && RepliesLogged(s) && Enabled(s, Work(tid, step))
    ensures s.workers[tid].prompt.hardStop && PastPermission(TurnOf(s, tid, step).w.pc) ==>
              PastPermission(s.workers[tid].pc) || GrantedIn(s.log, tid)
  {
  }

  lemma GrantStays(log: seq<Event>, more: seq<Event>, t: Tid)
    requires GrantedIn(log, t)
    ensures GrantedIn(log + more, t)
  {
    var n :| Asked(t, n) in log && Replied(n, AllowOnce) in log;
    assert Asked(t, n) in log + more && Replied(n, AllowOnce) in log + more;
  }

  lemma GrantedStep(s: Server, step: Step)
    requires WorkerPerms(s) && RepliesLogged(s) && Granted(s) && Enabled(s, step)
    ensures Granted(Apply(s, step))
  {
    LogGrows(s, step);
    if step.Work? {
      WorkFrame(s, step.tid, step.step);
      WorkGrants(s, step.tid, step.step);
    } else {
      ServerPermEvents(s, step);
    }
    var s' := Apply(s, step);
    hide Apply, EventOf, Act, Enabled, TurnOf, GrantedIn, WorkerPerms, RepliesLogged;
    forall t | t in s'.workers && s'.workers[t].prompt.hardStop && PastPermission(s'.workers[t].pc)
      ensures GrantedIn(s'.log, t)
    {
      assert t in s.workers;
      GrantStays(s.log, EventOf(s, step), t);
    }
  }

  // ---- the launches in the log ----

  predicate IsLaunch(e: Event) { e.Launched? || e.LifecycleBegan? }

  ghost predicate HardStopThread(log: seq<Event>, t: Tid) {
    exists e :: e in log && e.Received? && e.tid == t && e.prompt.hardStop
  }

  /** Before each launch for a hard-stop prompt stand that prompt's own
      permission request and an allow-once reply to it. */
  ghost predicate LaunchesPermitted(log: seq<Event>) {
    forall i :: 0 <= i < |log| && IsLaunch(log[i]) && HardStopThread(log, log[i].tid) ==>
      GrantedIn(log[..i], log[i].tid)
  }

  ghost predicate LaunchersKnown(log: seq<Event>) {
    forall e :: e in log && IsLaunch(e) ==> !FreshThread(log, e.tid)
  }

  lemma WorkLaunches(s: Server, tid: Tid, step: WorkerStep)
    requires Enabled(s, Work(tid, step))
    ensures forall e :: e in TurnOf(s, tid, step).events && IsLaunch(e) ==>
              e.tid == tid && PastPermission(s.workers[tid].pc)
    ensures forall e :: e in TurnOf(s, tid, step).events ==> !e.Received?
  {
  }

  lemma ServerLaunches(s: Server, step: Step)
    requires Enabled(s, step) && !step.Work?
    ensures forall e :: e in EventOf(s, step) ==> !IsLaunch(e)
    ensures forall e :: e in EventOf(s, step) && e.Received? ==> FreshThread(s.log, e.tid)
  {
  }

  lemma LaunchersKnownStep(s: Server, step: Step)
    requires Known(s) && LaunchersKnown(s.log) && Enabled(s, step)
    ensures LaunchersKnown(Apply(s, step).log)
  {
    LogGrows(s, step);
    if step.Work? {
      WorkLaunches(s, step.tid, step.step);
      WorkersNotFresh(s, step.tid);
    } else {
      ServerLaunches(s, step);
    }
    hide Apply, EventOf, Act, FreshThread, FreshRequest, Enabled, Known, TurnOf;
    var s' := Apply(s, step);
    forall e | e in s'.log && IsLaunch(e) ensures !FreshThread(s'.log, e.tid) {
      StaysKnown(s.log, EventOf(s, step), e.tid);
    }
  }

  /** Whether a known thread is a hard-stop one never changes. */
  lemma HardStopSettled(s: Server, step: Step, t: Tid)
    requires Enabled(s, step) && !FreshThread(s.log, t) && HardStopThread(Apply(s, step).log, t)
    ensures HardStopThread(s.log, t)
  {
    LogGrows(s, step);
    if step.Work? {
      WorkLaunches(s, step.tid, step.step);
    } else {
      ServerLaunches(s, step);
    }
    hide Apply, EventOf, Act, FreshThread, FreshRequest, Enabled, TurnOf;
    var e :| e in Apply(s, step).log && e.Received? && e.tid == t && e.prompt.hardStop;
    assert e in s.log;
  }

  lemma WorkerIsHardStop(s: Server, tid: Tid)
    requires Known(s) && OneReceipt(s.log) && tid in s.workers && HardStopThread(s.log, tid)
    ensures s.workers[tid].prompt.hardStop
  {
  }

  lemma LaunchesPermittedStep(s: Server, step: Step)
    requires Known(s) && OneReceipt(s.log) && Granted(s) && LaunchersKnown(s.log) && LaunchesPermitted(s.log)
    requires Enabled(s, step)
    ensures LaunchesPermitted(Apply(s, step).log)
  {
    LogGrows(s, step);
    if step.Work? {
      WorkLaunches(s, step.tid, step.step);
      WorkersNotFresh(s, step.tid);
    } else {
      ServerLaunches(s, step);
    }
    var log, log' := s.log, Apply(s, step).log;
    forall i | 0 <= i < |log'| && IsLaunch(log'[i]) && HardStopThread(log', log'[i].tid)
      ensures GrantedIn(log'[..i], log'[i].tid)
    {
      var t := log'[i].tid;
      if i < |log| {
        assert log'[i] == log[i] && log[i] in log;
        HardStopSettled(s, step, t);
        assert log'[..i] == log[..i];
      } else {
        assert log'[i] == EventOf(s, step)[0] && EventOf(s, step)[0] in EventOf(s, step);
        assert step.Work? && t == step.tid;
        HardStopSettled(s, step, t);
        WorkerIsHardStop(s, t);
        assert log'[..i] == log;
      }
    }
  }
}
