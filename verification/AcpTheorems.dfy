/** The session protocol's guarantees, over every run of the server. */
module AcpTheorems {
  import opened Wrappers
  import opened AcpSession
  import opened AcpSafety
  import opened AcpPermission
  import opened AcpRuns
  import opened AcpStops
  import opened AcpLinks

  ghost predicate Safe(s: Server) {
    && Known(s) && Owned(s) && Started(s) && OwnRequests(s) && WorkerOutcomes(s) && AllSettled(s)
  }

  ghost predicate Permitted(s: Server) {
    && OneReceipt(s.log) && AskedIds(s.log, s.perms.counter) && WorkerPerms(s) && CollectedOnce(s)
    && RepliesLogged(s) && Granted(s) && LaunchersKnown(s.log) && LaunchesPermitted(s.log) && AskedOnce(s.log)
  }

  ghost predicate Stopped(s: Server) {
    && CancelsLogged(s) && ActiveRuns(s) && RunsHeld(s) && StopsPromised(s) && LateAtMostOne(s)
  }

  ghost predicate Attributed(s: Server) {
    OneLink(s) && LaunchedHasRun(s) && StoppersCancelled(s) && StopsCancelled(s)
  }

  ghost predicate Invariant(s: Server) {
    Safe(s) && Permitted(s) && RunInvariant(s) && Stopped(s) && Attributed(s)
  }

  lemma InitialHolds()
    ensures Invariant(INITIAL)
  {
  }

  lemma SafeStep(s: Server, step: Step)
    requires Safe(s) && Enabled(s, step)
    ensures Safe(Apply(s, step))
  {
    hide Apply, Enabled, Known, Owned, Started, OwnRequests, WorkerOutcomes, AllSettled;
    KnownStep(s, step);
    OwnedStep(s, step);
    StartedStep(s, step);
    OwnRequestsStep(s, step);
    WorkerOutcomesStep(s, step);
    AllSettledStep(s, step);
  }

  lemma PermittedStep(s: Server, step: Step)
    requires Safe(s) && Permitted(s) && Enabled(s, step)
    ensures Permitted(Apply(s, step))
  {
    hide Apply, Enabled, Known, OneReceipt, AskedIds, WorkerPerms, CollectedOnce, RepliesLogged, Granted,
      LaunchersKnown, LaunchesPermitted, AskedOnce;
    OneReceiptStep(s, step);
    AskedIdsStep(s, step);
    WorkerPermsStep(s, step);
    CollectedOnceStep(s, step);
    RepliesLoggedStep(s, step);
    GrantedStep(s, step);
    LaunchersKnownStep(s, step);
    LaunchesPermittedStep(s, step);
    AskedOnceStep(s, step);
  }

  lemma RunInvariantStep(s: Server, step: Step)
    requires Safe(s) && RunInvariant(s) && Enabled(s, step)
    ensures RunInvariant(Apply(s, step))
  {
    hide Apply, Enabled, Known, Owned, RunsReserved, OwnIdsReserved, NewIdsDistinct, OneOwner, OwnIdKept, RunAtPc,
      LaunchedOnce, LaunchingUnlaunched, UnusedUnlaunched;
    RunsReservedStep(s, step);
    OwnIdsReservedStep(s, step);
    NewIdsDistinctStep(s, step);
    OneOwnerStep(s, step);
    OwnIdKeptStep(s, step);
    RunAtPcStep(s, step);
    LaunchedOnceStep(s, step);
    LaunchingUnlaunchedStep(s, step);
    UnusedUnlaunchedStep(s, step);
  }

  lemma StoppedStep(s: Server, step: Step)
    requires Safe(s) && Stopped(s) && Enabled(s, step)
    ensures Stopped(Apply(s, step))
  {
    hide Apply, Enabled, Known, Owned, CancelsLogged, ActiveRuns, RunsHeld, StopsPromised, LateAtMostOne;
    CancelsLoggedStep(s, step);
    ActiveRunsStep(s, step);
    RunsHeldStep(s, step);
    StopsPromisedStep(s, step);
    LateAtMostOneStep(s, step);
  }

  lemma AttributedStep(s: Server, step: Step)
    requires Stopped(s) && Attributed(s) && Enabled(s, step)
    ensures Attributed(Apply(s, step))
  {
    hide Apply, Enabled, CancelsLogged, ActiveRuns, RunsHeld, StopsPromised, LateAtMostOne, OneLink, LaunchedHasRun,
      StoppersCancelled, StopsCancelled;
    OneLinkStep(s, step);
    LaunchedHasRunStep(s, step);
    StoppersCancelledStep(s, step);
    StopsCancelledStep(s, step);
  }

  lemma {:induction false} RunKeepsInvariant(states: seq<Server>, steps: seq<Step>, i: nat)
    requires IsRun(states, steps) && i < |states|
    ensures Invariant(states[i])
  {
    if i == 0 {
      InitialHolds();
    } else {
      RunKeepsInvariant(states, steps, i - 1);
      hide Apply, Enabled, Safe, Permitted, RunInvariant, Stopped, Attributed;
      SafeStep(states[i - 1], steps[i - 1]);
      PermittedStep(states[i - 1], steps[i - 1]);
      RunInvariantStep(states[i - 1], steps[i - 1]);
      StoppedStep(states[i - 1], steps[i - 1]);
      AttributedStep(states[i - 1], steps[i - 1]);
    }
  }

  /** At most one prompt worker per session is active, exactly while the session
      says that a prompt has started. */
  lemma OneWorkerPerSession(states: seq<Server>, steps: seq<Step>, i: nat)
    requires IsRun(states, steps) && i < |states|
    ensures forall t, u :: t in states[i].workers && u in states[i].workers && t != u ==>
              states[i].workers[t].key != states[i].workers[u].key
    ensures forall k :: k in states[i].sessions ==> (states[i].sessions[k].promptStarted <==> HasWorker(states[i], k))
  {
    RunKeepsInvariant(states, steps, i);
    hide IsRun, Permitted, RunInvariant, Stopped, Attributed;
  }

  /** A prompt request never gets two responses. One that was heard, and that no
      worker is left to answer, has got one exactly if sending the response of
      last resort did not fail. */
  lemma OneResponsePerRequest(states: seq<Server>, steps: seq<Step>, i: nat, q: Request)
    requires IsRun(states, steps) && i < |states|
    ensures Responses(states[i].log, q) <= 1
    ensures Heard(states[i].log, q) && !PendingRequest(states[i], q) ==>
              (Responses(states[i].log, q) == 1 <==> Unanswered(q) !in states[i].log)
  {
    RunKeepsInvariant(states, steps, i);
    OutcomesSplit(states[i].log, q);
    hide IsRun, Permitted, RunInvariant, Stopped, Attributed, Known, Owned, Started, OwnRequests, WorkerOutcomes, Responses, Failures, Outcomes;
  }

  /** No launch for a hard-stop prompt without an allow-once reply, earlier in
      the log, to that prompt's own permission request. */
  lemma HardStopsNeedGrants(states: seq<Server>, steps: seq<Step>, i: nat)
    requires IsRun(states, steps) && i < |states|
    ensures LaunchesPermitted(states[i].log)
  {
    RunKeepsInvariant(states, steps, i);
  }

  /** The grant of a launch follows the request it answers. */
  ghost predicate GrantedInOrder(log: seq<Event>, t: Tid) {
    exists n, a, b :: 0 <= a < b < |log| && log[a] == Asked(t, n) && log[b] == Replied(n, AllowOnce)
  }

  /** No reply bears the id of a request that was not sent before it. */
  ghost predicate NoEarlyReply(log: seq<Event>) {
    forall b :: 0 <= b < |log| && log[b].Replied? ==> AskedBefore(log, b, log[b].perm)
  }

  ghost predicate AskedBefore(log: seq<Event>, b: int, n: PermId) {
    exists a :: 0 <= a < b < |log| && log[a].Asked? && log[a].perm == n
  }

  /** Without early replies each launch for a hard-stop prompt comes after its
      permission request, and then an allow-once reply to that. */
  lemma GrantsFollowRequests(states: seq<Server>, steps: seq<Step>, i: nat, j: nat)
    requires IsRun(states, steps) && i < |states| && NoEarlyReply(states[i].log)
    requires j < |states[i].log| && IsLaunch(states[i].log[j]) && HardStopThread(states[i].log, states[i].log[j].tid)
    ensures GrantedInOrder(states[i].log[..j], states[i].log[j].tid)
  {
    RunKeepsInvariant(states, steps, i);
    var log := states[i].log;
    hide IsRun, Safe, RunInvariant, Stopped, Attributed;
    OrderOfGrant(log, states[i].perms.counter, j);
  }

  lemma OrderOfGrant(log: seq<Event>, counter: nat, j: nat)
    requires LaunchesPermitted(log) && AskedIds(log, counter) && NoEarlyReply(log)
    requires j < |log| && IsLaunch(log[j]) && HardStopThread(log, log[j].tid)
    ensures GrantedInOrder(log[..j], log[j].tid)
  {
    var t := log[j].tid;
    var n :| Asked(t, n) in log[..j] && Replied(n, AllowOnce) in log[..j];
    var b :| 0 <= b < j && log[b] == Replied(n, AllowOnce);
    assert AskedBefore(log, b, n);
    var a :| 0 <= a < b && log[a].Asked? && log[a].perm == n;
    assert log[a] in log && Asked(t, n) in log;
    assert log[..j][a] == Asked(t, n) && log[..j][b] == Replied(n, AllowOnce);
  }

  /** The worker's request, sent at a, was answered by an allow-once reply before it,
      and by none between it and the launch at j. */
  ghost predicate GrantedEarly(log: seq<Event>, t: Tid, j: nat)
    requires j <= |log|
  {
    exists n, a, b :: 0 <= b < a < j && log[a] == Asked(t, n) && log[b] == Replied(n, AllowOnce) && NotGrantedIn(log, n, a, j)
  }

  ghost predicate NotGrantedIn(log: seq<Event>, n: PermId, a: nat, j: nat)
    requires j <= |log|
  {
    forall c :: a <= c < j ==> log[c] != Replied(n, AllowOnce)
  }

  /** In every run, a launch for a hard-stop prompt is out of order, its grant not
      following its request, exactly when that request was answered by an early
      reply and by no later one. */
  lemma OutOfOrderExactly(states: seq<Server>, steps: seq<Step>, i: nat, j: nat)
    requires IsRun(states, steps) && i < |states|
    requires j < |states[i].log| && IsLaunch(states[i].log[j]) && HardStopThread(states[i].log, states[i].log[j].tid)
    ensures !GrantedInOrder(states[i].log[..j], states[i].log[j].tid)
            <==> GrantedEarly(states[i].log, states[i].log[j].tid, j)
  {
    RunKeepsInvariant(states, steps, i);
    var log := states[i].log;
    hide IsRun, Safe, RunInvariant, Stopped, Attributed;
    EarlyOrInOrder(log, j);
  }

  lemma EarlyOrInOrder(log: seq<Event>, j: nat)
    requires LaunchesPermitted(log) && AskedOnce(log)
    requires j < |log| && IsLaunch(log[j]) && HardStopThread(log, log[j].tid)
    ensures !GrantedInOrder(log[..j], log[j].tid) <==> GrantedEarly(log, log[j].tid, j)
  {
    var t := log[j].tid;
    var n :| Asked(t, n) in log[..j] && Replied(n, AllowOnce) in log[..j];
    var a :| 0 <= a < j && log[a] == Asked(t, n);
    var b :| 0 <= b < j && log[b] == Replied(n, AllowOnce);
    if GrantedInOrder(log[..j], t) {
      InOrderNotEarly(log, t, j);
    } else {
      forall c | a <= c < j ensures log[c] != Replied(n, AllowOnce) {
        if log[c] == Replied(n, AllowOnce) {
          InOrder(log, t, n, a, c, j);
          assert false;
        }
      }
      assert NotGrantedIn(log, n, a, j) && b < a;
    }
  }

  lemma InOrder(log: seq<Event>, t: Tid, n: PermId, a: nat, b: nat, j: nat)
    requires a <= b < j <= |log| && log[a] == Asked(t, n) && log[b] == Replied(n, AllowOnce)
    ensures GrantedInOrder(log[..j], t)
  {
    assert log[..j][a] == Asked(t, n) && log[..j][b] == Replied(n, AllowOnce);
  }

  lemma InOrderNotEarly(log: seq<Event>, t: Tid, j: nat)
    requires AskedOnce(log) && j <= |log| && GrantedInOrder(log[..j], t)
    ensures !GrantedEarly(log, t, j)
  {
    var n, a, b :| 0 <= a < b < j && log[..j][a] == Asked(t, n) && log[..j][b] == Replied(n, AllowOnce);
    assert log[a] == Asked(t, n) && log[b] == Replied(n, AllowOnce);
    forall m, c | 0 <= c < j && log[c] == Asked(t, m) ensures c == a && m == n {
    }
  }

  /** A worker whose request is sent now is let on without any further reply
      exactly when an allow-once reply to it is stored already. */
  lemma GrantedUnasked(s: Server, t: Tid)
    requires Enabled(s, Work(t, Ask))
    ensures var s1 := Apply(s, Work(t, Ask));
            && Enabled(s1, Work(t, Collect))
            && (Apply(s1, Work(t, Collect)).workers[t].pc == AtGate
                <==> s.perms.counter + 1 in s.perms.responses && s.perms.responses[s.perms.counter + 1] == AllowOnce)
  {
  }

  /** A permission id is asked for by one worker, and its response is taken by
      at most one waiter. */
  lemma ResponsesReachOneWaiter(states: seq<Server>, steps: seq<Step>, i: nat, n: PermId)
    requires IsRun(states, steps) && i < |states|
    ensures Collects(states[i].log, n) <= 1
    ensures forall t, u :: Asked(t, n) in states[i].log && Asked(u, n) in states[i].log ==> t == u
  {
    RunKeepsInvariant(states, steps, i);
    hide IsRun, Safe, RunInvariant, Stopped, WorkerPerms, RepliesLogged, Granted, LaunchersKnown, LaunchesPermitted;
  }

  /** No run id, the session's own id included, is launched twice. */
  lemma RunsLaunchedOnce(states: seq<Server>, steps: seq<Step>, i: nat, r: RunId)
    requires IsRun(states, steps) && i < |states|
    ensures Launches(states[i].log, r) <= 1
  {
    RunKeepsInvariant(states, steps, i);
    hide IsRun, Safe, Permitted, Stopped;
  }

  lemma OneLaunchAfterCancel(states: seq<Server>, steps: seq<Step>, i: nat, k: Key)
    requires IsRun(states, steps) && i < |states|
    ensures LateLaunches(states[i].log, k) <= 1
  {
    RunKeepsInvariant(states, steps, i);
    hide IsRun, Safe, Permitted, RunInvariant;
  }

  /** A run whose await had not ended when a cancel of its session took the lock
      has its stop requested, once the handler and the run's worker have moved on. */
  lemma CancelledRunsAreStopped(states: seq<Server>, steps: seq<Step>, i: nat, c: int, k: Key, r: RunId)
    requires IsRun(states, steps) && i < |states|
    requires OwedBy(states[i].log, c, k, r)
    requires !states[i].main.Cancelling?
    requires forall t :: t in states[i].workers && states[i].workers[t].run == Some(r) ==>
               states[i].workers[t].pc !in {Marking, Stopping}
    ensures StopRequested(r) in states[i].log
  {
    RunKeepsInvariant(states, steps, i);
    hide IsRun, Safe, Permitted, RunInvariant, OwedBy;
  }

  /** A run is stopped only after a cancel of the session that launched it. */
  lemma NoStopWithoutCancel(states: seq<Server>, steps: seq<Step>, i: nat, j: nat, t: Tid, k: Key, r: RunId)
    requires IsRun(states, steps) && i < |states|
    requires j < |states[i].log| && states[i].log[j] == StopRequested(r) && Launched(t, k, r) in states[i].log
    ensures CancelSection(k) in states[i].log[..j]
  {
    RunKeepsInvariant(states, steps, i);
    hide IsRun, Safe, Permitted, RunInvariant, Stopped;
    assert Linked(states[i], k, r);
  }
}
