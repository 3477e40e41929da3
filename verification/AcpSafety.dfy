/** What every interleaving of the session protocol keeps. */
module AcpSafety {
  import opened Wrappers
  import opened AcpSession

  // ---- frames: what one worker step leaves alone ----

  ghost function TurnOf(s: Server, tid: Tid, step: WorkerStep): Turn
    requires Enabled(s, Work(tid, step))
  {
    var w := s.workers[tid];
    Act(tid, w, s.sessions[w.key], s.perms, s.reserved, step)
  }

  lemma WorkFrame(s: Server, tid: Tid, step: WorkerStep)
    requires Enabled(s, Work(tid, step))
    ensures var (w, turn, s') := (s.workers[tid], TurnOf(s, tid, step), Apply(s, Work(tid, step)));
            && turn.w.key == w.key && turn.w.request == w.request && turn.w.prompt == w.prompt
            && turn.x.ownId == s.sessions[w.key].ownId && turn.x.restored == s.sessions[w.key].restored
            && turn.x.cancelled == s.sessions[w.key].cancelled
            && turn.x.promptStarted == s.sessions[w.key].promptStarted
            && turn.x.promptCount == s.sessions[w.key].promptCount
            && s' == Server(s.sessions[w.key := turn.x], s.names, s.workers[tid := turn.w], s.main, turn.perms,
                            turn.reserved, s.log + turn.events)
  {
  }

  // ---- one worker per session ----

  /** Every worker is the thread of a received prompt. */
  ghost predicate Known(s: Server) {
    forall t :: t in s.workers ==>
      var w := s.workers[t];
      Received(w.request, w.key, t, w.prompt) in s.log
  }

  lemma KnownStep(s: Server, step: Step)
    requires Known(s) && Enabled(s, step)
    ensures Known(Apply(s, step))
  {
    hide FreshRequest, FreshThread;
    if step.Work? {
      WorkFrame(s, step.tid, step.step);
      hide Act;
    }
  }

  ghost predicate Owned(s: Server) {
    && (forall t :: t in s.workers ==>
          s.workers[t].key in s.sessions && s.sessions[s.workers[t].key].promptStarted)
    && (forall t, u :: t in s.workers && u in s.workers && s.workers[t].key == s.workers[u].key ==> t == u)
  }

  ghost predicate HasWorker(s: Server, k: Key) {
    exists t :: t in s.workers && s.workers[t].key == k
  }

  ghost predicate Started(s: Server) {
    forall k :: k in s.sessions && s.sessions[k].promptStarted ==> HasWorker(s, k)
  }

  lemma NewThread(s: Server, id: RunId, tid: Tid, request: Request, prompt: Prompt)
    requires Known(s) && Enabled(s, StartPrompt(id, tid, request, prompt))
    ensures tid !in s.workers
    ensures forall t :: t in s.workers ==> s.workers[t].request != request
  {
  }

  lemma OwnedStep(s: Server, step: Step)
    requires Known(s) && Owned(s) && Enabled(s, step)
    ensures Owned(Apply(s, step))
  {
    match step
    case Work(tid, wstep) => OwnedWork(s, tid, wstep);
    case StartPrompt(id, tid, request, prompt) => OwnedStart(s, id, tid, request, prompt);
    case _ =>
      hide FreshRequest, FreshThread, Known;
  }

  lemma OwnedWork(s: Server, tid: Tid, step: WorkerStep)
    requires Owned(s) && Enabled(s, Work(tid, step))
    ensures Owned(Apply(s, Work(tid, step)))
  {
    WorkFrame(s, tid, step);
    hide Apply, Act, TurnOf;
  }

  lemma OwnedStart(s: Server, id: RunId, tid: Tid, request: Request, prompt: Prompt)
    requires Known(s) && Owned(s) && Enabled(s, StartPrompt(id, tid, request, prompt))
    ensures Owned(Apply(s, StartPrompt(id, tid, request, prompt)))
  {
    NewThread(s, id, tid, request, prompt);
    hide FreshRequest, FreshThread, Known;
  }

  lemma StartedWork(s: Server, tid: Tid, step: WorkerStep)
    requires Started(s) && Enabled(s, Work(tid, step))
    ensures Started(Apply(s, Work(tid, step)))
  {
    WorkFrame(s, tid, step);
    hide Act;
    var s' := Apply(s, Work(tid, step));
    forall k | k in s'.sessions && s'.sessions[k].promptStarted ensures HasWorker(s', k) {
      var t :| t in s.workers && s.workers[t].key == k;
      assert s'.workers[t].key == k;
    }
  }

  lemma StartedStep(s: Server, step: Step)
    requires Known(s) && Owned(s) && Started(s) && Enabled(s, step)
    ensures Started(Apply(s, step))
  {
    hide Act, FreshRequest, FreshThread;
    var s' := Apply(s, step);
    match step
    case Work(tid, wstep) => StartedWork(s, tid, wstep);
    case StartPrompt(id, tid, request, prompt) =>
      NewThread(s, id, tid, request, prompt);
      StartedStart(s, id, tid, request, prompt);
    case EndWorker(tid) => StartedEnd(s, tid);
    case _ => assert forall k :: HasWorker(s, k) ==> HasWorker(s', k);
  }

  lemma StartedStart(s: Server, id: RunId, tid: Tid, request: Request, prompt: Prompt)
    requires Started(s) && tid !in s.workers && Enabled(s, StartPrompt(id, tid, request, prompt))
    ensures Started(Apply(s, StartPrompt(id, tid, request, prompt)))
  {
    hide FreshRequest, FreshThread;
    var s' := Apply(s, StartPrompt(id, tid, request, prompt));
    forall k | k in s'.sessions && s'.sessions[k].promptStarted ensures HasWorker(s', k) {
      if s.sessions[k].promptStarted {
        var t :| t in s.workers && s.workers[t].key == k;
        assert s'.workers[t].key == k;
      } else {
        assert s'.workers[tid].key == k;
      }
    }
  }

  lemma StartedEnd(s: Server, tid: Tid)
    requires Owned(s) && Started(s) && Enabled(s, EndWorker(tid))
    ensures Started(Apply(s, EndWorker(tid)))
  {
    var s' := Apply(s, EndWorker(tid));
    forall k | k in s'.sessions && s'.sessions[k].promptStarted ensures HasWorker(s', k) {
      var t :| t in s.workers && s.workers[t].key == k;
      assert t != tid && s'.workers[t].key == k;
    }
  }

  // ---- exactly one outcome per prompt request ----

  /** The JSON-RPC responses to a request, and the failure to send the last one. */
  predicate IsOutcome(e: Event, q: Request) {
    (e.Responded? && e.request == q) || (e.Rejected? && e.request == q) || (e.Unanswered? && e.request == q)
  }

  function Outcomes(log: seq<Event>, q: Request): nat {
    if log == [] then 0
    else Outcomes(log[..|log| - 1], q) + (if IsOutcome(log[|log| - 1], q) then 1 else 0)
  }

  lemma OutcomesSnoc(log: seq<Event>, events: seq<Event>, q: Request)
    requires |events| <= 1
    ensures Outcomes(log + events, q) ==
            Outcomes(log, q) + (if events != [] && IsOutcome(events[0], q) then 1 else 0)
  {
    if events != [] {
      assert (log + events)[..|log|] == log;
    } else {
      assert log + events == log;
    }
  }

  ghost predicate Heard(log: seq<Event>, q: Request) {
    exists e :: e in log && e.Received? && e.request == q
  }

  ghost predicate PendingRequest(s: Server, q: Request) {
    exists t :: t in s.workers && s.workers[t].request == q && s.workers[t].pc != Finishing
  }

  ghost predicate WorkerOutcomes(s: Server) {
    forall t :: t in s.workers ==>
      Outcomes(s.log, s.workers[t].request) == if s.workers[t].pc == Finishing then 1 else 0
  }

  ghost predicate OwnRequests(s: Server) {
    forall t, u :: t in s.workers && u in s.workers && s.workers[t].request == s.workers[u].request ==> t == u
  }

  lemma OwnRequestsStep(s: Server, step: Step)
    requires Known(s) && OwnRequests(s) && Enabled(s, step)
    ensures OwnRequests(Apply(s, step))
  {
    hide FreshRequest, FreshThread;
    if step.Work? {
      WorkFrame(s, step.tid, step.step);
      hide Act;
    } else if step.StartPrompt? {
      NewThread(s, step.id, step.tid, step.request, step.prompt);
    }
  }

  ghost predicate AllSettled(s: Server) {
    && (forall q :: Outcomes(s.log, q) <= 1)
    && (forall q :: FreshRequest(s.log, q) ==> Outcomes(s.log, q) == 0)
    && (forall q :: Heard(s.log, q) && Outcomes(s.log, q) == 0 ==> PendingRequest(s, q))
  }

  /** The steps that end a worker's duty to its request. */
  predicate Settles(w: Worker, step: WorkerStep) { step.Respond? || (step.RespondFails? && w.pc == Failing) }

  /** A worker step settles its own request when it responds or fails to, and no other. */
  lemma WorkOutcomes(s: Server, tid: Tid, step: WorkerStep)
    requires Enabled(s, Work(tid, step))
    ensures TurnOf(s, tid, step).w.pc == Finishing <==> Settles(s.workers[tid], step)
    ensures s.workers[tid].pc != Finishing
    ensures forall q :: Outcomes(Apply(s, Work(tid, step)).log, q) ==
              Outcomes(s.log, q) + (if Settles(s.workers[tid], step) && q == s.workers[tid].request then 1 else 0)
    ensures forall q :: Heard(Apply(s, Work(tid, step)).log, q) ==> Heard(s.log, q)
    ensures forall q :: FreshRequest(Apply(s, Work(tid, step)).log, q) ==> FreshRequest(s.log, q)
  {
    var turn := TurnOf(s, tid, step);
    WorkFrame(s, tid, step);
    WorkSettles(s, tid, step);
    hide Act, Apply, TurnOf, Settles, IsOutcome;
    forall q ensures Outcomes(s.log + turn.events, q) ==
              Outcomes(s.log, q) + (if Settles(s.workers[tid], step) && q == s.workers[tid].request then 1 else 0)
    {
      OutcomesSnoc(s.log, turn.events, q);
    }
  }

  lemma WorkSettles(s: Server, tid: Tid, step: WorkerStep)
    requires Enabled(s, Work(tid, step))
    ensures var (w, turn) := (s.workers[tid], TurnOf(s, tid, step));
            && (turn.w.pc == Finishing <==> Settles(w, step)) && w.pc != Finishing
            && |turn.events| <= 1 && (turn.events != [] ==> !turn.events[0].Received?)
            && forall q :: (turn.events != [] && IsOutcome(turn.events[0], q)) <==> Settles(w, step) && q == w.request
  {
  }

  /** A server step without a worker logs at most one event. */
  ghost function EventOf(s: Server, step: Step): seq<Event>
    requires Enabled(s, step)
  {
    match step
    case Create(_, _) => []
    case Restore(_, _) => []
    case StartPrompt(id, tid, request, prompt) =>
      if s.sessions[s.names[id]].promptStarted then [Rejected(request)] else [Received(request, s.names[id], tid, prompt)]
    case RejectPrompt(request) => [Rejected(request)]
    case Cancel(id) => [CancelSection(s.names[id])]
    case MainFails => []
    case FinishCancel(_) => if s.main.launched then [StopRequested(s.main.active)] else []
    case Deliver(n, reply) => [Replied(n, reply)]
    case CloseClient => []
    case Work(tid, wstep) => TurnOf(s, tid, wstep).events
    case EndWorker(_) => []
  }

  lemma LogGrows(s: Server, step: Step)
    requires Enabled(s, step)
    ensures Apply(s, step).log == s.log + EventOf(s, step)
    ensures |EventOf(s, step)| <= 1
  {
    hide FreshRequest, FreshThread;
  }

  lemma WorkerOutcomesStep(s: Server, step: Step)
    requires Known(s) && OwnRequests(s) && WorkerOutcomes(s) && AllSettled(s) && Enabled(s, step)
    ensures WorkerOutcomes(Apply(s, step))
  {
    if step.Work? {
      WorkFrame(s, step.tid, step.step);
      WorkOutcomes(s, step.tid, step.step);
      hide Act, Outcomes, Apply, TurnOf;
    } else {
      WorkerOutcomesServer(s, step);
    }
  }

  /** A server step answers only a request that was never heard of. */
  lemma ServerOutcomes(s: Server, step: Step)
    requires Enabled(s, step) && !step.Work?
    ensures forall q :: Outcomes(Apply(s, step).log, q) ==
              Outcomes(s.log, q) + (if EventOf(s, step) != [] && IsOutcome(EventOf(s, step)[0], q) then 1 else 0)
    ensures forall q :: EventOf(s, step) != [] && IsOutcome(EventOf(s, step)[0], q) ==> FreshRequest(s.log, q)
    ensures forall t :: t in Apply(s, step).workers && !(step.StartPrompt? && t == step.tid) ==>
              t in s.workers && Apply(s, step).workers[t] == s.workers[t]
  {
    LogGrows(s, step);
    hide FreshRequest, FreshThread;
    forall q ensures Outcomes(Apply(s, step).log, q) ==
        Outcomes(s.log, q) + (if EventOf(s, step) != [] && IsOutcome(EventOf(s, step)[0], q) then 1 else 0)
    {
      OutcomesSnoc(s.log, EventOf(s, step), q);
    }
  }

  lemma KnownNotFresh(s: Server)
    requires Known(s)
    ensures forall t :: t in s.workers ==> !FreshRequest(s.log, s.workers[t].request)
  {
  }

  lemma StartedWorker(s: Server, id: RunId, tid: Tid, request: Request, prompt: Prompt)
    requires Known(s) && AllSettled(s) && Enabled(s, StartPrompt(id, tid, request, prompt))
    ensures var s' := Apply(s, StartPrompt(id, tid, request, prompt));
            tid in s'.workers ==>
              s'.workers[tid].request == request && s'.workers[tid].pc == Parsing && Outcomes(s'.log, request) == 0
  {
    NewThread(s, id, tid, request, prompt);
    if !s.sessions[s.names[id]].promptStarted {
      OutcomesSnoc(s.log, [Received(request, s.names[id], tid, prompt)], request);
    }
    hide Outcomes, FreshThread;
  }

  lemma WorkerOutcomesServer(s: Server, step: Step)
    requires Known(s) && WorkerOutcomes(s) && AllSettled(s) && Enabled(s, step) && !step.Work?
    ensures WorkerOutcomes(Apply(s, step))
  {
    ServerOutcomes(s, step);
    KnownNotFresh(s);
    if step.StartPrompt? {
      NewThread(s, step.id, step.tid, step.request, step.prompt);
      StartedWorker(s, step.id, step.tid, step.request, step.prompt);
    }
    hide Outcomes, FreshThread, FreshRequest, Apply, EventOf, Known, Owned, AllSettled, IsOutcome, Enabled;
    var s' := Apply(s, step);
    forall t | t in s'.workers
      ensures Outcomes(s'.log, s'.workers[t].request) == if s'.workers[t].pc == Finishing then 1 else 0
    {
      if t in s.workers {
        assert !FreshRequest(s.log, s.workers[t].request);
      }
    }
  }

  lemma AllSettledStep(s: Server, step: Step)
    requires Known(s) && OwnRequests(s) && WorkerOutcomes(s) && AllSettled(s) && Enabled(s, step)
    ensures AllSettled(Apply(s, step))
  {
    if step.Work? {
      AllSettledWork(s, step.tid, step.step);
    } else {
      AllSettledServer(s, step);
    }
  }

  lemma AllSettledWork(s: Server, tid: Tid, step: WorkerStep)
    requires Known(s) && WorkerOutcomes(s) && AllSettled(s) && Enabled(s, Work(tid, step))
    ensures AllSettled(Apply(s, Work(tid, step)))
  {
    KnownNotFresh(s);
    WorkOutcomes(s, tid, step);
    var s' := Apply(s, Work(tid, step));
    assert Outcomes(s.log, s.workers[tid].request) == 0;
    hide Act, Outcomes, Apply, TurnOf, FreshRequest, Heard, Enabled, Known, PendingRequest, WorkerOutcomes;
    forall q | Heard(s'.log, q) && Outcomes(s'.log, q) == 0 ensures PendingRequest(s', q) {
      PendingAfterWork(s, tid, step, q);
    }
  }

  lemma PendingAfterWork(s: Server, tid: Tid, step: WorkerStep, q: Request)
    requires Enabled(s, Work(tid, step)) && PendingRequest(s, q)
    requires Settles(s.workers[tid], step) ==> q != s.workers[tid].request
    ensures PendingRequest(Apply(s, Work(tid, step)), q)
  {
    WorkFrame(s, tid, step);
    WorkOutcomes(s, tid, step);
    hide Act, Outcomes, TurnOf, FreshRequest, Heard, Enabled;
    var t :| t in s.workers && s.workers[t].request == q && s.workers[t].pc != Finishing;
    assert Apply(s, Work(tid, step)).workers[t].request == q;
  }

  lemma AllSettledServer(s: Server, step: Step)
    requires Known(s) && WorkerOutcomes(s) && AllSettled(s) && Enabled(s, step) && !step.Work?
    ensures AllSettled(Apply(s, step))
  {
    LogGrows(s, step);
    ServerOutcomes(s, step);
    var s', events := Apply(s, step), EventOf(s, step);
    hide Outcomes, FreshThread, Apply, EventOf;
    forall q | FreshRequest(s'.log, q) ensures FreshRequest(s.log, q) && (events != [] ==> !IsOutcome(events[0], q)) {
      assert events != [] ==> events[0] in s'.log;
    }
    forall q | Heard(s'.log, q) && Outcomes(s'.log, q) == 0 ensures PendingRequest(s', q) {
      PendingStays(s, step, q);
    }
  }

  lemma ServerKeeps(s: Server, step: Step, t: Tid)
    requires Known(s) && Enabled(s, step) && !step.Work?
    ensures t in s.workers && s.workers[t].pc != Finishing ==>
              t in Apply(s, step).workers && Apply(s, step).workers[t] == s.workers[t]
  {
    hide FreshRequest, FreshThread;
    if step.StartPrompt? {
      NewThread(s, step.id, step.tid, step.request, step.prompt);
    }
  }

  /** A prompt that is heard now has a worker that has yet to answer it. */
  lemma NewlyHeard(s: Server, step: Step, q: Request)
    requires Known(s) && Enabled(s, step) && !step.Work? && Heard(Apply(s, step).log, q) && !Heard(s.log, q)
    ensures PendingRequest(Apply(s, step), q)
  {
    LogGrows(s, step);
    hide FreshThread, FreshRequest, Known;
    var s' := Apply(s, step);
    var e :| e in s'.log && e.Received? && e.request == q;
    assert e !in s.log;
    assert step.StartPrompt? && s'.workers[step.tid].request == q;
  }

  lemma PendingStays(s: Server, step: Step, q: Request)
    requires Known(s) && WorkerOutcomes(s) && AllSettled(s) && Enabled(s, step) && !step.Work?
    requires Heard(Apply(s, step).log, q) && Outcomes(s.log, q) == 0
    ensures PendingRequest(Apply(s, step), q)
  {
    hide Outcomes, Apply, Enabled, Known;
    if Heard(s.log, q) {
      var t :| t in s.workers && s.workers[t].request == q && s.workers[t].pc != Finishing;
      ServerKeeps(s, step, t);
      assert t in Apply(s, step).workers;
    } else {
      NewlyHeard(s, step, q);
    }
  }

  // ---- outcomes and responses ----

  /** The JSON-RPC responses to a request. */
  function Responses(log: seq<Event>, q: Request): nat {
    if log == [] then 0
    else
      var e := log[|log| - 1];
      Responses(log[..|log| - 1], q) + (if (e.Responded? || e.Rejected?) && e.request == q then 1 else 0)
  }

  function Failures(log: seq<Event>, q: Request): nat {
    if log == [] then 0
    else Failures(log[..|log| - 1], q) + (if log[|log| - 1] == Unanswered(q) then 1 else 0)
  }

  lemma {:induction false} OutcomesSplit(log: seq<Event>, q: Request)
    ensures Outcomes(log, q) == Responses(log, q) + Failures(log, q)
    ensures Failures(log, q) > 0 <==> Unanswered(q) in log
  {
    if log != [] {
      OutcomesSplit(log[..|log| - 1], q);
      assert log == log[..|log| - 1] + [log[|log| - 1]];
    }
  }
}
