/** Session ids and the objects behind them. session/load and session/resume put
    a new object in the place of the old one, whose worker may still be running:
    exactly then a client sees two workers of one session, and a cancel misses. */
module AcpNames {
  import opened Wrappers
  import opened AcpSession
  import opened AcpSafety
  import opened AcpRuns
  import opened AcpStops
  import opened AcpLinks
  import opened AcpTheorems

  ghost predicate Named(s: Server) {
    && (forall id :: id in s.names ==> Open(s, id) && s.sessions[s.names[id]].ownId == id)
    && (forall k :: k in s.sessions ==> s.sessions[k].ownId in s.names && s.sessions[k].ownId in s.reserved)
  }

  /** How one step changes the names. */
  lemma NamesFrame(s: Server, step: Step)
    requires Enabled(s, step)
    ensures var s' := Apply(s, step);
            && s'.names == (if step.Create? || step.Restore? then s.names[step.id := step.key] else s.names)
            && s.sessions.Keys <= s'.sessions.Keys
            && (forall k :: k in s.sessions ==> s'.sessions[k].ownId == s.sessions[k].ownId)
            && (forall k :: k in s'.sessions && k !in s.sessions ==>
                  (step.Create? || step.Restore?) && k == step.key && s'.sessions[k].ownId == step.id)
            && (step.Create? || step.Restore? ==> step.key in s'.sessions && step.key !in s.sessions && step.id in s'.reserved)
            && (step.Create? ==> step.id !in s.reserved)
  {
    hide FreshRequest, FreshThread;
    if step.Work? {
      WorkFrame(s, step.tid, step.step);
      hide Act;
    }
  }

  /** How one step changes the workers. */
  lemma WorkersFrame(s: Server, step: Step)
    requires Known(s) && Enabled(s, step)
    ensures var s' := Apply(s, step);
            && (forall t :: t in s'.workers && t in s.workers ==> s'.workers[t].key == s.workers[t].key)
            && (forall t :: t in s'.workers && t !in s.workers ==>
                  step.StartPrompt? && t == step.tid && Open(s, step.id) && s'.workers[t].key == s.names[step.id])
            && (step.StartPrompt? ==> step.tid !in s.workers && s.workers.Keys <= s'.workers.Keys)
  {
    if step.StartPrompt? {
      NewThread(s, step.id, step.tid, step.request, step.prompt);
    }
    hide FreshRequest, FreshThread, Known;
    if step.Work? {
      WorkFrame(s, step.tid, step.step);
      hide Act;
    }
  }

  lemma NamedStep(s: Server, step: Step)
    requires Named(s) && Enabled(s, step)
    ensures Named(Apply(s, step))
  {
    hide Apply, Enabled;
    NamesFrame(s, step);
    ReservedGrows(s, step);
  }

  lemma StepOf(states: seq<Server>, steps: seq<Step>, i: nat)
    requires IsRun(states, steps) && i < |steps|
    ensures |states| == |steps| + 1 && Enabled(states[i], steps[i]) && states[i + 1] == Apply(states[i], steps[i])
  {
    hide Enabled, Apply;
  }

  lemma FirstState(states: seq<Server>, steps: seq<Step>)
    requires IsRun(states, steps)
    ensures |states| == |steps| + 1 && states[0] == INITIAL
  {
    hide Enabled, Apply;
  }

  lemma {:induction false} RunKeepsNames(states: seq<Server>, steps: seq<Step>, i: nat)
    requires IsRun(states, steps) && i < |states|
    ensures Named(states[i])
  {
    FirstState(states, steps);
    hide Apply, Enabled, IsRun;
    if i > 0 {
      RunKeepsNames(states, steps, i - 1);
      StepOf(states, steps, i - 1);
      NamedStep(states[i - 1], steps[i - 1]);
    }
  }

  /** The session id a worker was started under. */
  ghost function IdOf(s: Server, t: Tid): RunId
    requires t in s.workers && s.workers[t].key in s.sessions
  {
    s.sessions[s.workers[t].key].ownId
  }

  ghost predicate WorksFor(s: Server, t: Tid, id: RunId) {
    t in s.workers && s.workers[t].key in s.sessions && IdOf(s, t) == id
  }

  /** The worker's session object is no longer the one its id names. */
  ghost predicate Stale(s: Server, t: Tid) {
    t in s.workers && s.workers[t].key in s.sessions
    && (IdOf(s, t) in s.names ==> s.names[IdOf(s, t)] != s.workers[t].key)
  }

  lemma StaleStep(s: Server, step: Step, t: Tid)
    requires Named(s) && Known(s) && Owned(s) && Enabled(s, step) && t in s.workers && t in Apply(s, step).workers
    ensures WorksFor(Apply(s, step), t, IdOf(s, t))
    ensures Stale(Apply(s, step), t) <==> Stale(s, t) || (step.Restore? && step.id == IdOf(s, t))
  {
    hide Apply, Enabled, Known, Named, Owned;
    NamesFrame(s, step);
    WorkersFrame(s, step);
    WorksForOwn(s, t);
    NamedWorker(s, t);
  }

  lemma NamedWorker(s: Server, t: Tid)
    requires Named(s) && Owned(s) && t in s.workers
    ensures s.workers[t].key in s.sessions && IdOf(s, t) in s.reserved && IdOf(s, t) in s.names
  {
  }

  lemma NewIsNotStale(s: Server, step: Step, t: Tid)
    requires Named(s) && Known(s) && Enabled(s, step) && t !in s.workers && t in Apply(s, step).workers
    ensures step.StartPrompt? && step.tid == t && !Stale(Apply(s, step), t) && WorksFor(Apply(s, step), t, step.id)
  {
    NamesFrame(s, step);
    WorkersFrame(s, step);
    hide Apply, Enabled, Known;
  }

  // ---- exactly when a worker is stale ----

  /** Some earlier step restored the worker's session while the worker lived. */
  ghost predicate RestoredUnder(states: seq<Server>, steps: seq<Step>, i: nat, t: Tid)
    requires |states| == |steps| + 1 && i < |states|
  {
    exists j :: 0 <= j < i && steps[j].Restore? && WorksFor(states[j], t, steps[j].id)
  }

  lemma {:induction false} LogPrefix(states: seq<Server>, steps: seq<Step>, j: nat, i: nat)
    requires IsRun(states, steps) && j <= i < |states|
    ensures states[j].log <= states[i].log
    decreases i - j
  {
    hide *;
    FirstState(states, steps);
    if j < i {
      LogPrefix(states, steps, j, i - 1);
      StepOf(states, steps, i - 1);
      LogOnlyGrows(states[i - 1], steps[i - 1]);
      PrefixOfPrefix(states[j].log, states[i - 1].log, states[i].log);
    }
  }

  lemma LogOnlyGrows(s: Server, step: Step)
    requires Enabled(s, step)
    ensures s.log <= Apply(s, step).log
  {
    LogGrows(s, step);
    hide Apply, Enabled, EventOf;
  }

  lemma PrefixOfPrefix<T>(a: seq<T>, b: seq<T>, c: seq<T>)
    requires a <= b && b <= c
    ensures a <= c
  {
  }

  lemma NotYetStarted(states: seq<Server>, steps: seq<Step>, i: nat, t: Tid, j: nat)
    requires IsRun(states, steps) && j <= i < |states| && FreshThread(states[i].log, t)
    ensures t !in states[j].workers
  {
    RunKeepsInvariant(states, steps, j);
    LogPrefix(states, steps, j, i);
    hide IsRun, Permitted, RunInvariant, Stopped, Attributed;
  }

  lemma StartedFresh(s: Server, step: Step)
    requires Enabled(s, step)
    ensures step.StartPrompt? ==> FreshThread(s.log, step.tid)
  {
    hide FreshThread, FreshRequest;
  }

  lemma SafeParts(s: Server)
    requires Invariant(s)
    ensures Safe(s) && Known(s) && Owned(s)
  {
    hide Known, Owned, Started, OwnRequests, WorkerOutcomes, AllSettled, Permitted, RunInvariant, Stopped, Attributed;
  }

  lemma RestoredLater(states: seq<Server>, steps: seq<Step>, i: nat, t: Tid)
    requires |states| == |steps| + 1 && 0 < i < |states|
    ensures RestoredUnder(states, steps, i, t)
            <==> RestoredUnder(states, steps, i - 1, t) || (steps[i - 1].Restore? && WorksFor(states[i - 1], t, steps[i - 1].id))
  {
    hide WorksFor;
  }

  lemma StaleKept(states: seq<Server>, steps: seq<Step>, i: nat, t: Tid)
    requires IsRun(states, steps) && |states| == |steps| + 1 && 0 < i < |states|
    requires t in states[i].workers && t in states[i - 1].workers
    requires Stale(states[i - 1], t) <==> RestoredUnder(states, steps, i - 1, t)
    ensures Stale(states[i], t) <==> RestoredUnder(states, steps, i, t)
  {
    hide *;
    var s, step := states[i - 1], steps[i - 1];
    RunKeepsInvariant(states, steps, i - 1);
    SafeParts(s);
    RunKeepsNames(states, steps, i - 1);
    StepOf(states, steps, i - 1);
    RestoredLater(states, steps, i, t);
    WorksForOwn(s, t);
    StaleStep(s, step, t);
  }

  lemma StaleNew(states: seq<Server>, steps: seq<Step>, i: nat, t: Tid)
    requires IsRun(states, steps) && |states| == |steps| + 1 && 0 < i < |states|
    requires t in states[i].workers && t !in states[i - 1].workers
    ensures !Stale(states[i], t) && !RestoredUnder(states, steps, i, t)
  {
    hide *;
    var s, step := states[i - 1], steps[i - 1];
    RunKeepsInvariant(states, steps, i - 1);
    SafeParts(s);
    RunKeepsNames(states, steps, i - 1);
    StepOf(states, steps, i - 1);
    NewIsNotStale(s, step, t);
    StartedFresh(s, step);
    forall j: nat | j < i ensures t !in states[j].workers {
      NotYetStarted(states, steps, i - 1, t, j);
    }
    NeverRestoredUnder(states, steps, i, t);
  }

  /** A worker is stale exactly if its session was restored while it lived. */
  lemma {:induction false} StaleExactly(states: seq<Server>, steps: seq<Step>, i: nat, t: Tid)
    requires IsRun(states, steps) && i < |states| && t in states[i].workers
    ensures |states| == |steps| + 1
    ensures Stale(states[i], t) <==> RestoredUnder(states, steps, i, t)
  {
    FirstState(states, steps);
    NoWorkersAtStart();
    hide *;
    if i > 0 {
      if t in states[i - 1].workers {
        StaleExactly(states, steps, i - 1, t);
        StaleKept(states, steps, i, t);
      } else {
        StaleNew(states, steps, i, t);
      }
    }
  }

  lemma NoWorkersAtStart()
    ensures INITIAL.workers == map[]
  {
  }

  lemma WorksForOwn(s: Server, t: Tid)
    requires Owned(s) && t in s.workers
    ensures s.workers[t].key in s.sessions && WorksFor(s, t, IdOf(s, t)) && forall id :: WorksFor(s, t, id) ==> id == IdOf(s, t)
  {
  }

  lemma NeverRestoredUnder(states: seq<Server>, steps: seq<Step>, i: nat, t: Tid)
    requires |states| == |steps| + 1 && i < |states| && forall j: nat :: j < i ==> t !in states[j].workers
    ensures !RestoredUnder(states, steps, i, t)
  {
  }

  // ---- two workers under one id ----

  ghost predicate TwoWorkers(s: Server, id: RunId) {
    exists t, u :: t != u && WorksFor(s, t, id) && WorksFor(s, u, id)
  }

  ghost predicate SomeStale(s: Server, id: RunId) {
    exists t :: WorksFor(s, t, id) && Stale(s, t)
  }

  /** Of two workers under one id one is stale. */
  lemma TwoNeedStale(s: Server, id: RunId)
    requires Named(s) && Owned(s) && TwoWorkers(s, id)
    ensures SomeStale(s, id)
  {
    var t, u :| t != u && WorksFor(s, t, id) && WorksFor(s, u, id);
    assert s.workers[t].key != s.workers[u].key;
    assert Stale(s, t) || Stale(s, u);
  }

  /** A session id has at most one worker, unless the session was restored while
      one of them lived. */
  lemma OneWorkerPerId(states: seq<Server>, steps: seq<Step>, i: nat, id: RunId)
    requires IsRun(states, steps) && i < |states|
    requires forall t :: WorksFor(states[i], t, id) ==> !RestoredUnder(states, steps, i, t)
    ensures !TwoWorkers(states[i], id)
  {
    RunKeepsInvariant(states, steps, i);
    RunKeepsNames(states, steps, i);
    if TwoWorkers(states[i], id) {
      TwoNeedStale(states[i], id);
      var t :| WorksFor(states[i], t, id) && Stale(states[i], t);
      StaleExactly(states, steps, i, t);
    }
  }

  /** After a prompt for an id two workers run under it exactly if there was a
      stale one before. */
  lemma SecondWorkerExactly(s: Server, id: RunId, tid: Tid, request: Request, prompt: Prompt)
    requires Named(s) && Safe(s) && Enabled(s, StartPrompt(id, tid, request, prompt))
    ensures TwoWorkers(Apply(s, StartPrompt(id, tid, request, prompt)), id) <==> SomeStale(s, id)
  {
    var step := StartPrompt(id, tid, request, prompt);
    var s' := Apply(s, step);
    NewThread(s, id, tid, request, prompt);
    NamedStep(s, step);
    OwnedStep(s, step);
    StartedStep(s, step);
    StartedAfter(s, id, tid, request, prompt);
    hide Apply, Enabled, FreshRequest, FreshThread, OwnRequests, WorkerOutcomes, AllSettled, Known;
    if TwoWorkers(s', id) {
      TwoNeedStale(s', id);
      var t :| WorksFor(s', t, id) && Stale(s', t);
      if t !in s.workers {
        NewIsNotStale(s, step, t);
      } else {
        StaleStep(s, step, t);
        assert WorksFor(s, t, id) && Stale(s, t);
      }
    }
    if SomeStale(s, id) {
      var t :| WorksFor(s, t, id) && Stale(s, t);
      StaysForAll(s, step, t);
      StaleStep(s, step, t);
      var u :| u in s'.workers && s'.workers[u].key == s.names[id];
      assert WorksFor(s', t, id) && WorksFor(s', u, id) && t != u;
    }
  }

  lemma StartedAfter(s: Server, id: RunId, tid: Tid, request: Request, prompt: Prompt)
    requires Named(s) && Enabled(s, StartPrompt(id, tid, request, prompt))
    requires Started(Apply(s, StartPrompt(id, tid, request, prompt)))
    ensures var s' := Apply(s, StartPrompt(id, tid, request, prompt));
            s'.names == s.names && id in s.names && HasWorker(s', s.names[id])
            && s.names[id] in s'.sessions && s'.sessions[s.names[id]].ownId == id
  {
    hide FreshRequest, FreshThread;
  }

  lemma StaysForAll(s: Server, step: Step, t: Tid)
    requires Enabled(s, step) && step.StartPrompt? && t in s.workers
    ensures t in Apply(s, step).workers
  {
    hide FreshRequest, FreshThread;
  }

  // ---- what a cancel of an id reaches ----

  /** The locked section of a cancel marks a worker's session exactly if the
      worker is not stale. */
  lemma CancelReachesExactly(s: Server, id: RunId, t: Tid)
    requires Named(s) && Enabled(s, Cancel(id)) && WorksFor(s, t, id)
    ensures Apply(s, Cancel(id)).sessions[s.workers[t].key].cancelled
            <==> s.sessions[s.workers[t].key].cancelled || !Stale(s, t)
  {
  }

  /** A run that was awaited and not stopped yet when its id was cancelled is
      stopped by the handler exactly if its worker is not stale. */
  lemma CancelStopsExactly(s: Server, id: RunId, t: Tid, r: RunId, raises: bool)
    requires Named(s) && ActiveRuns(s) && OneLink(s) && LaunchedHasRun(s)
    requires Enabled(s, Cancel(id)) && WorksFor(s, t, id)
    requires s.workers[t].pc == Awaiting && s.workers[t].run == Some(r) && StopRequested(r) !in s.log
    ensures var s' := Apply(Apply(s, Cancel(id)), FinishCancel(raises));
            StopRequested(r) in s'.log <==> !Stale(s, t)
  {
    var k, l := s.workers[t].key, s.names[id];
    assert Linked(s, k, r);
    if s.sessions[l].launched {
      assert Linked(s, l, s.sessions[l].activeRun.value);
    }
    hide OneLink, Linked;
    if k != l {
      OneHolder(s, k, l, r);
    }
  }

  lemma OneHolder(s: Server, k: Key, l: Key, r: RunId)
    requires OneLink(s) && k != l
    ensures !(Linked(s, l, r) && Linked(s, k, r))
  {
  }

  /** In every run: a direct run whose await had not ended when the client
      cancelled its session id gets its stop requested, once the handler and the
      run's worker have moved on, if the worker was not stale at the cancel. */
  lemma CancelledIdIsStopped(states: seq<Server>, steps: seq<Step>, i: nat, c: nat, id: RunId, t: Tid, r: RunId)
    requires IsRun(states, steps) && c < i < |states| && steps[c] == Cancel(id)
    requires WorksFor(states[c], t, id) && !Stale(states[c], t)
    requires Launched(t, states[c].workers[t].key, r) in states[i].log && !Ended(states[c].log, r)
    requires !states[i].main.Cancelling?
    requires forall u :: u in states[i].workers && states[i].workers[u].run == Some(r) ==>
               states[i].workers[u].pc !in {Marking, Stopping}
    ensures StopRequested(r) in states[i].log
  {
    var s, k := states[c], states[c].workers[t].key;
    RunKeepsNames(states, steps, c);
    assert Enabled(s, Cancel(id)) && states[c + 1] == Apply(s, Cancel(id));
    assert s.names[id] == k;
    LogGrows(s, Cancel(id));
    LogPrefix(states, steps, c + 1, i);
    assert EventOf(s, Cancel(id)) == [CancelSection(k)];
    hide Apply, Enabled, EventOf;
    var n := |s.log|;
    assert states[c + 1].log[n] == CancelSection(k) && states[i].log[n] == states[c + 1].log[n];
    assert states[i].log[..n] == s.log;
    assert OwedBy(states[i].log, n, k, r);
    CancelledRunsAreStopped(states, steps, i, n, k, r);
  }
}
