/** What a prompt is answered, and which way it takes: over every run, read off the
    log. */
module AcpAnswers {
  import opened Wrappers
  import opened AcpSession
  import opened AcpSafety
  import opened AcpPermission
  import opened AcpRuns
  import opened AcpStops
  import opened AcpTheorems

  // ---- one receipt per request ----

  ghost predicate RequestOnce(log: seq<Event>) {
    forall e, f :: e in log && f in log && e.Received? && f.Received? && e.request == f.request ==> e == f
  }

  lemma RequestOnceStep(s: Server, step: Step)
    requires RequestOnce(s.log) && Enabled(s, step)
    ensures RequestOnce(Apply(s, step).log)
  {
    LogGrows(s, step);
    NewReceipt(s, step);
    hide Apply, EventOf, Enabled;
  }

  lemma NewReceipt(s: Server, step: Step)
    requires Enabled(s, step)
    ensures |EventOf(s, step)| <= 1
    ensures forall e :: e in EventOf(s, step) && e.Received? ==> FreshRequest(s.log, e.request)
  {
    LogGrows(s, step);
    if step.Work? {
      WorkSettles(s, step.tid, step.step);
    }
  }

  // ---- the way a prompt takes ----

  /** Unknown commands go nowhere; a ship prompt runs a lifecycle, any other prompt a
      direct run; only hard stops ask for permission. */
  predicate OnItsWay(w: Worker) {
    && (w.pc in {Preparing, Launching, Marking, Stopping, Awaiting} ==> !w.prompt.ship && !w.prompt.unknownCommand)
    && (w.pc == InLifecycle ==> w.prompt.ship && !w.prompt.unknownCommand)
    && (w.pc in {Asking, Waiting} ==> w.prompt.hardStop && !w.prompt.unknownCommand)
    && (w.pc == AtGate || w.pc.Judging? ==> !w.prompt.unknownCommand)
  }

  ghost predicate AllOnTheirWay(s: Server) { forall t :: t in s.workers ==> OnItsWay(s.workers[t]) }

  lemma WorkOnItsWay(s: Server, tid: Tid, step: WorkerStep)
    requires Enabled(s, Work(tid, step)) && OnItsWay(s.workers[tid])
    ensures OnItsWay(TurnOf(s, tid, step).w)
  {
  }

  lemma AllOnTheirWayStep(s: Server, step: Step)
    requires AllOnTheirWay(s) && Enabled(s, step)
    ensures AllOnTheirWay(Apply(s, step))
  {
    if step.Work? {
      WorkFrame(s, step.tid, step.step);
      WorkOnItsWay(s, step.tid, step.step);
      hide Act, Apply, TurnOf, OnItsWay;
    } else {
      ServerPermEvents(s, step);
      hide Apply, Enabled, EventOf;
    }
  }

  /** The log shows the way: each event of a prompt fits the prompt received. */
  ghost predicate Routed(log: seq<Event>) {
    forall e, f :: e in log && f in log && f.Received? && f.tid == TidOf(e) ==> RouteFits(e, f.prompt)
  }

  function TidOf(e: Event): Tid {
    match e
    case Launched(tid, _, _) => tid
    case LifecycleBegan(tid) => tid
    case Asked(tid, _) => tid
    case _ => 0
  }

  predicate RouteFits(e: Event, prompt: Prompt) {
    && (e.Launched? ==> !prompt.ship && !prompt.unknownCommand)
    && (e.LifecycleBegan? ==> prompt.ship && !prompt.unknownCommand)
    && (e.Asked? ==> prompt.hardStop && !prompt.unknownCommand)
  }

  predicate IsRoute(e: Event) { e.Launched? || e.LifecycleBegan? || e.Asked? }

  ghost predicate RoutesKnown(log: seq<Event>) {
    forall e :: e in log && IsRoute(e) ==> !FreshThread(log, TidOf(e))
  }

  lemma WorkRoutes(s: Server, tid: Tid, step: WorkerStep)
    requires Enabled(s, Work(tid, step)) && OnItsWay(s.workers[tid])
    ensures forall e :: e in TurnOf(s, tid, step).events && IsRoute(e) ==> TidOf(e) == tid && RouteFits(e, s.workers[tid].prompt)
    ensures forall e :: e in TurnOf(s, tid, step).events ==> !e.Received?
  {
  }

  lemma ServerRoutes(s: Server, step: Step)
    requires Enabled(s, step) && !step.Work?
    ensures forall e :: e in EventOf(s, step) ==> !IsRoute(e)
    ensures forall e :: e in EventOf(s, step) && e.Received? ==> FreshThread(s.log, e.tid)
  {
    hide FreshRequest;
  }

  lemma RoutesKnownStep(s: Server, step: Step)
    requires Known(s) && AllOnTheirWay(s) && RoutesKnown(s.log) && Enabled(s, step)
    ensures RoutesKnown(Apply(s, step).log)
  {
    LogGrows(s, step);
    if step.Work? {
      WorkRoutes(s, step.tid, step.step);
      WorkersNotFresh(s, step.tid);
    } else {
      ServerRoutes(s, step);
    }
    hide Apply, EventOf, Enabled, FreshThread, TurnOf, Known, OnItsWay, IsRoute, TidOf;
    var s' := Apply(s, step);
    forall e | e in s'.log && IsRoute(e) ensures !FreshThread(s'.log, TidOf(e)) {
      StaysKnown(s.log, EventOf(s, step), TidOf(e));
    }
  }

  lemma RoutedStep(s: Server, step: Step)
    requires Known(s) && OneReceipt(s.log) && AllOnTheirWay(s) && RoutesKnown(s.log) && Routed(s.log) && Enabled(s, step)
    ensures Routed(Apply(s, step).log)
  {
    LogGrows(s, step);
    var log, events := s.log, EventOf(s, step);
    if step.Work? {
      var w := s.workers[step.tid];
      WorkRoutes(s, step.tid, step.step);
      assert Received(w.request, w.key, step.tid, w.prompt) in log;
      hide Apply, EventOf, Enabled, TurnOf, Known, OnItsWay, IsRoute, TidOf, RouteFits;
      forall e: Event, f: Event | e in log + events && f in log + events && f.Received? && f.tid == TidOf(e) ensures RouteFits(e, f.prompt) {
        if e !in log {
          if !IsRoute(e) { NoRouteFits(e, f.prompt); }
        }
      }
    } else {
      ServerRoutes(s, step);
      hide Apply, EventOf, Enabled, Known, TidOf, RouteFits, IsRoute;
      forall e: Event, f: Event | e in log + events && f in log + events && f.Received? && f.tid == TidOf(e) ensures RouteFits(e, f.prompt) {
        if !IsRoute(e) {
          NoRouteFits(e, f.prompt);
        } else if f !in log {
          assert false;
        }
      }
    }
  }

  lemma NoRouteFits(e: Event, prompt: Prompt)
    requires !IsRoute(e)
    ensures RouteFits(e, prompt)
  {
  }

  // ---- what an answer says ----

  /** The waiting of thread t ended at place b of the log. */
  predicate EndsAt(log: seq<Event>, b: int, t: Tid, completed: bool, stopped: bool) {
    0 <= b < |log|
    && ((log[b].AwaitEnded? && log[b].tid == t && log[b].end == Returned(completed, stopped))
        || log[b] == LifecycleEnded(t, Returned(completed, stopped)))
  }

  /** The answer after an end that came at b and was judged at a: cancelled if the
      session was cancelled before it was judged or the run was stopped, and else by
      whether the run was completed. */
  ghost predicate AnswersEnd(log: seq<Event>, b: int, a: int, t: Tid, k: Key, completed: bool, stopped: bool, reason: StopReason) {
    && EndsAt(log, b, t, completed, stopped) && b < a < |log| && log[a] == Judged(t)
    && reason == (if CancelSection(k) in log[..a] || stopped then Cancelled else if completed then EndTurn else Refusal)
  }

  predicate IsEndOf(e: Event, t: Tid) { (e.AwaitEnded? || e.LifecycleEnded?) && e.tid == t }

  ghost predicate HasJudged(log: seq<Event>, t: Tid) { Judged(t) in log }
  ghost predicate HasEnded(log: seq<Event>, t: Tid) { exists e :: e in log && IsEndOf(e, t) }

  /** Nothing of a thread's end or judgement. */
  predicate IsMark(e: Event, t: Tid) { e == Judged(t) || IsEndOf(e, t) }
  ghost predicate Unmarked(log: seq<Event>, t: Tid) { forall e :: e in log ==> !IsMark(e, t) }

  ghost predicate AnswersSomeEnd(log: seq<Event>, t: Tid, k: Key, reason: StopReason) {
    exists b, a, completed, stopped :: AnswersEnd(log, b, a, t, k, completed, stopped, reason)
  }

  /** An answer without a run: an unknown command is refused; else the session was
      cancelled, or permission was not granted. */
  predicate EarlyAnswer(prompt: Prompt, cancelled: bool, reason: StopReason) {
    if prompt.unknownCommand then reason == Refusal
    else (reason == Cancelled && cancelled) || (reason == Refusal && prompt.hardStop)
  }

  /** A regular answer follows the end of the run, if there was one. */
  ghost predicate Meant(log: seq<Event>, t: Tid, k: Key, prompt: Prompt, reason: StopReason) {
    if HasJudged(log, t) then AnswersSomeEnd(log, t, k, reason)
    else !HasEnded(log, t) && EarlyAnswer(prompt, CancelSection(k) in log, reason)
  }

  /** The answer of the exception handler. */
  ghost predicate MeantInstead(log: seq<Event>, k: Key, reason: StopReason) {
    reason == if CancelSection(k) in log then Cancelled else Refusal
  }

  lemma AnswersLater(log: seq<Event>, more: seq<Event>, t: Tid, k: Key, reason: StopReason)
    requires AnswersSomeEnd(log, t, k, reason)
    ensures AnswersSomeEnd(log + more, t, k, reason)
  {
    var b, a, completed, stopped :| AnswersEnd(log, b, a, t, k, completed, stopped, reason);
    assert (log + more)[..a] == log[..a];
    assert AnswersEnd(log + more, b, a, t, k, completed, stopped, reason);
  }

  lemma MeantLater(log: seq<Event>, more: seq<Event>, t: Tid, k: Key, prompt: Prompt, reason: StopReason)
    requires Meant(log, t, k, prompt, reason) && Unmarked(more, t)
    ensures Meant(log + more, t, k, prompt, reason)
  {
    hide AnswersSomeEnd;
    if HasJudged(log, t) {
      AnswersLater(log, more, t, k, reason);
    }
  }

  /** A worker's state fits what the log says of its prompt. */
  ghost predicate Fits(log: seq<Event>, t: Tid, w: Worker) {
    match w.pc
    case Responding(reason) => Meant(log, t, w.key, w.prompt, reason)
    case Judging(completed, stopped) => !HasJudged(log, t) && exists b :: EndsAt(log, b, t, completed, stopped)
    case Failing => true
    case Finishing => true
    case _ => Unmarked(log, t)
  }

  ghost predicate AllFit(s: Server) { forall t :: t in s.workers ==> Fits(s.log, t, s.workers[t]) }

  lemma FitsLater(log: seq<Event>, more: seq<Event>, t: Tid, w: Worker)
    requires Fits(log, t, w) && Unmarked(more, t)
    ensures Fits(log + more, t, w)
  {
    if w.pc.Responding? {
      MeantLater(log, more, t, w.key, w.prompt, w.pc.reason);
    } else if w.pc.Judging? {
      var b :| EndsAt(log, b, t, w.pc.completed, w.pc.stopped);
      assert EndsAt(log + more, b, t, w.pc.completed, w.pc.stopped);
    }
    hide Meant, EndsAt;
  }

  lemma JudgedNow(log: seq<Event>, t: Tid, k: Key, prompt: Prompt, completed: bool, stopped: bool)
    requires !HasJudged(log, t) && exists b :: EndsAt(log, b, t, completed, stopped)
    ensures Meant(log + [Judged(t)], t, k, prompt,
                  if CancelSection(k) in log || stopped then Cancelled else if completed then EndTurn else Refusal)
  {
    var b :| EndsAt(log, b, t, completed, stopped);
    var after, a := log + [Judged(t)], |log|;
    assert after[..a] == log && after[a] == Judged(t);
    assert AnswersEnd(after, b, a, t, k, completed, stopped,
                      if CancelSection(k) in log || stopped then Cancelled else if completed then EndTurn else Refusal);
  }

  /** Where a worker has not yet come to the end of a run. */
  predicate Early(pc: Pc) { !pc.Responding? && !pc.Judging? && pc !in {Failing, Finishing} }

  /** A judgement reads the flag of the session, and sets the answer. */
  ghost predicate TurnJudges(w: Worker, x: Session, tid: Tid, turn: Turn) {
    && turn.w.key == w.key && turn.w.prompt == w.prompt
    && w.pc.Judging? && turn.events == [Judged(tid)]
    && turn.w.pc == Responding(if x.cancelled || w.pc.stopped then Cancelled
                               else if w.pc.completed then EndTurn else Refusal)
  }

  /** What any other worker step does to the answer it will give. */
  ghost predicate TurnAnswers(w: Worker, x: Session, tid: Tid, turn: Turn) {
    && turn.w.key == w.key && turn.w.prompt == w.prompt
    && (turn.w.pc.Responding? ==>
          Early(w.pc) && Unmarked(turn.events, tid) && EarlyAnswer(w.prompt, x.cancelled, turn.w.pc.reason))
    && (turn.w.pc.Judging? ==>
          Early(w.pc) && |turn.events| == 1 && EndsAt(turn.events, 0, tid, turn.w.pc.completed, turn.w.pc.stopped))
    && (Early(turn.w.pc) ==> Early(w.pc) && Unmarked(turn.events, tid))
  }

  lemma WorkJudges(s: Server, tid: Tid)
    requires Enabled(s, Work(tid, Judge))
    ensures TurnJudges(s.workers[tid], s.sessions[s.workers[tid].key], tid, TurnOf(s, tid, Judge))
  {
  }

  lemma WorkAnswers(s: Server, tid: Tid, step: WorkerStep)
    requires Enabled(s, Work(tid, step)) && OnItsWay(s.workers[tid]) && !step.Judge?
    ensures TurnAnswers(s.workers[tid], s.sessions[s.workers[tid].key], tid, TurnOf(s, tid, step))
  {
    WorkComesToEnd(s, tid, step);
    hide EndsAt, Unmarked;
  }

  lemma WorkComesToEnd(s: Server, tid: Tid, step: WorkerStep)
    requires Enabled(s, Work(tid, step)) && !step.Judge?
    ensures var turn := TurnOf(s, tid, step);
            && (turn.w.pc.Judging? ==> |turn.events| == 1 && EndsAt(turn.events, 0, tid, turn.w.pc.completed, turn.w.pc.stopped))
            && (Early(turn.w.pc) || turn.w.pc.Responding? ==> Unmarked(turn.events, tid))
  {
  }

  lemma FitsAfterWork(s: Server, tid: Tid, step: WorkerStep)
    requires CancelsLogged(s) && AllOnTheirWay(s) && AllFit(s) && Enabled(s, Work(tid, step))
    ensures Fits(s.log + TurnOf(s, tid, step).events, tid, TurnOf(s, tid, step).w)
  {
    hide TurnAnswers, TurnJudges, TurnOf, Act, CanStep, Fits, OnItsWay;
    if step.Judge? { WorkJudges(s, tid); } else { WorkAnswers(s, tid, step); }
    var w, x := s.workers[tid], s.sessions[s.workers[tid].key];
    assert Fits(s.log, tid, w) && (x.cancelled <==> CancelSection(w.key) in s.log);
    hide AllFit, AllOnTheirWay, Enabled, CancelsLogged;
    if step.Judge? {
      FitsAfterJudge(s.log, w, x, tid, TurnOf(s, tid, step));
    } else {
      FitsAfterTurn(s.log, w, x, tid, TurnOf(s, tid, step));
    }
  }

  lemma FitsAfterTurn(log: seq<Event>, w: Worker, x: Session, tid: Tid, turn: Turn)
    requires Fits(log, tid, w) && (x.cancelled <==> CancelSection(w.key) in log) && TurnAnswers(w, x, tid, turn)
    ensures Fits(log + turn.events, tid, turn.w)
  {
    hide Meant, EndsAt, Unmarked;
    if turn.w.pc.Responding? {
      Unjudged(log, turn.events, tid, w.key, w.prompt, turn.w.pc.reason);
    } else if turn.w.pc.Judging? {
      EndsLater(log, turn.events, tid, turn.w.pc.completed, turn.w.pc.stopped);
    } else if Early(turn.w.pc) {
      UnmarkedLater(log, turn.events, tid);
    }
  }

  lemma FitsAfterJudge(log: seq<Event>, w: Worker, x: Session, tid: Tid, turn: Turn)
    requires Fits(log, tid, w) && (x.cancelled <==> CancelSection(w.key) in log) && TurnJudges(w, x, tid, turn)
    ensures Fits(log + turn.events, tid, turn.w)
  {
    hide Meant, EndsAt;
    JudgedNow(log, tid, w.key, w.prompt, w.pc.completed, w.pc.stopped);
  }

  lemma UnmarkedLater(log: seq<Event>, more: seq<Event>, t: Tid)
    requires Unmarked(log, t) && Unmarked(more, t)
    ensures Unmarked(log + more, t)
  {
  }

  lemma Unjudged(log: seq<Event>, more: seq<Event>, t: Tid, k: Key, prompt: Prompt, reason: StopReason)
    requires Unmarked(log, t) && Unmarked(more, t) && EarlyAnswer(prompt, CancelSection(k) in log, reason)
    ensures Meant(log + more, t, k, prompt, reason)
  {
  }

  lemma EndsLater(log: seq<Event>, more: seq<Event>, t: Tid, completed: bool, stopped: bool)
    requires Unmarked(log, t) && |more| == 1 && EndsAt(more, 0, t, completed, stopped)
    ensures !HasJudged(log + more, t) && exists b :: EndsAt(log + more, b, t, completed, stopped)
  {
    assert EndsAt(log + more, |log|, t, completed, stopped);
  }

  lemma ServerJudges(s: Server, step: Step)
    requires Enabled(s, step) && !step.Work?
    ensures forall e :: e in EventOf(s, step) ==> !HasMark(e) && !e.Responded?
  {
    hide FreshRequest, FreshThread;
  }

  predicate HasMark(e: Event) { e.Judged? || e.AwaitEnded? || e.LifecycleEnded? }

  /** A thread that was never heard of has come to no end. */
  ghost predicate MarksKnown(log: seq<Event>) {
    forall e :: e in log && HasMark(e) ==> !FreshThread(log, e.tid)
  }

  lemma WorkMarks(s: Server, tid: Tid, step: WorkerStep)
    requires Enabled(s, Work(tid, step))
    ensures |TurnOf(s, tid, step).events| <= 1
    ensures forall e :: e in TurnOf(s, tid, step).events && HasMark(e) ==> e.tid == tid
    ensures forall e :: e in TurnOf(s, tid, step).events && e.Judged? ==> s.workers[tid].pc.Judging?
    ensures forall e :: e in TurnOf(s, tid, step).events && IsEndOf(e, tid) ==> Early(s.workers[tid].pc)
  {
  }

  lemma MarksKnownStep(s: Server, step: Step)
    requires Known(s) && MarksKnown(s.log) && Enabled(s, step)
    ensures MarksKnown(Apply(s, step).log)
  {
    LogGrows(s, step);
    if step.Work? {
      WorkMarks(s, step.tid, step.step);
      WorkersNotFresh(s, step.tid);
    } else {
      ServerJudges(s, step);
    }
    hide Apply, EventOf, Enabled, FreshThread, TurnOf, Known;
    var s' := Apply(s, step);
    forall e | e in s'.log && HasMark(e) ensures !FreshThread(s'.log, e.tid) {
      StaysKnown(s.log, EventOf(s, step), e.tid);
    }
  }

  lemma AllFitStep(s: Server, step: Step)
    requires Known(s) && CancelsLogged(s) && AllOnTheirWay(s) && MarksKnown(s.log) && AllFit(s) && Enabled(s, step)
    ensures AllFit(Apply(s, step))
  {
    if step.Work? {
      AllFitWork(s, step.tid, step.step);
    } else {
      AllFitServer(s, step);
    }
  }

  lemma AllFitWork(s: Server, tid: Tid, step: WorkerStep)
    requires CancelsLogged(s) && AllOnTheirWay(s) && AllFit(s) && Enabled(s, Work(tid, step))
    ensures AllFit(Apply(s, Work(tid, step)))
  {
    FitsAfterWork(s, tid, step);
    WorkFrame(s, tid, step);
    WorkMarks(s, tid, step);
    hide Act, Apply, TurnOf, Fits, Enabled, CancelsLogged, AllOnTheirWay;
    var s' := Apply(s, Work(tid, step));
    forall t | t in s'.workers ensures Fits(s'.log, t, s'.workers[t]) {
      if t != tid {
        FitsLater(s.log, TurnOf(s, tid, step).events, t, s.workers[t]);
      }
    }
  }

  lemma AllFitServer(s: Server, step: Step)
    requires MarksKnown(s.log) && AllFit(s) && Enabled(s, step) && !step.Work?
    ensures AllFit(Apply(s, step))
  {
    LogGrows(s, step);
    ServerJudges(s, step);
    ServerPermEvents(s, step);
    NewThreadIsFresh(s, step);
    hide Apply, EventOf, Enabled, Fits, FreshThread;
    var s' := Apply(s, step);
    forall t | t in s'.workers ensures Fits(s'.log, t, s'.workers[t]) {
      if t in s.workers && s'.workers[t] == s.workers[t] {
        FitsLater(s.log, EventOf(s, step), t, s.workers[t]);
      } else {
        NewFits(s.log, EventOf(s, step), t, s'.workers[t]);
      }
    }
  }

  lemma NewThreadIsFresh(s: Server, step: Step)
    requires Enabled(s, step)
    ensures step.StartPrompt? ==> FreshThread(s.log, step.tid)
  {
    hide FreshThread, FreshRequest;
  }

  lemma NewFits(log: seq<Event>, more: seq<Event>, t: Tid, w: Worker)
    requires MarksKnown(log) && FreshThread(log, t) && w.pc == Parsing && forall e :: e in more ==> !HasMark(e)
    ensures Fits(log + more, t, w)
  {
    hide FreshThread;
  }

  // ---- the answers in the log ----

  ghost predicate AnswerFits(log: seq<Event>, t: Tid, k: Key, prompt: Prompt, reason: StopReason, fallback: bool) {
    if fallback then MeantInstead(log, k, reason) else Meant(log, t, k, prompt, reason)
  }

  ghost predicate AnsweredBy(log: seq<Event>, q: Request, reason: StopReason, fallback: bool) {
    exists t, k, prompt :: Received(q, k, t, prompt) in log && AnswerFits(log, t, k, prompt, reason, fallback)
  }

  ghost predicate AnswersMeant(log: seq<Event>) {
    forall j :: 0 <= j < |log| && log[j].Responded? ==>
      AnsweredBy(log[..j], log[j].request, log[j].reason, log[j].fallback)
  }

  lemma WorkResponds(s: Server, tid: Tid, step: WorkerStep)
    requires Enabled(s, Work(tid, step))
    ensures var (w, x, turn) := (s.workers[tid], s.sessions[s.workers[tid].key], TurnOf(s, tid, step));
            && |turn.events| <= 1
            && forall e :: e in turn.events && e.Responded? ==>
                 e.request == w.request && (e.fallback <==> w.pc == Failing)
                 && (!e.fallback ==> w.pc == Responding(e.reason))
                 && (e.fallback ==> e.reason == if x.cancelled then Cancelled else Refusal)
  {
  }

  lemma AnswersMeantStep(s: Server, step: Step)
    requires Known(s) && CancelsLogged(s) && AllFit(s) && AnswersMeant(s.log) && Enabled(s, step)
    ensures AnswersMeant(Apply(s, step).log)
  {
    LogGrows(s, step);
    var log, events := s.log, EventOf(s, step);
    if step.Work? {
      var w := s.workers[step.tid];
      WorkResponds(s, step.tid, step.step);
      assert Received(w.request, w.key, step.tid, w.prompt) in log && Fits(log, step.tid, w);
      assert s.sessions[w.key].cancelled <==> CancelSection(w.key) in log;
      assert EventOf(s, step) == TurnOf(s, step.tid, step.step).events;
      hide Apply, EventOf, Enabled, TurnOf, Known, CancelsLogged, AllFit;
      forall e | e in events && e.Responded? ensures AnsweredBy(log, e.request, e.reason, e.fallback) {
        RespondsAsMeant(log, step.tid, w, e);
      }
    } else {
      ServerJudges(s, step);
    }
    hide Apply, EventOf, Enabled, AnsweredBy, Known, CancelsLogged, AllFit;
    AnswersMeantNext(log, events);
  }

  lemma RespondsAsMeant(log: seq<Event>, t: Tid, w: Worker, e: Event)
    requires Received(w.request, w.key, t, w.prompt) in log && Fits(log, t, w) && e.Responded? && e.request == w.request
    requires (!e.fallback ==> w.pc == Responding(e.reason)) && (e.fallback ==> MeantInstead(log, w.key, e.reason))
    ensures AnsweredBy(log, e.request, e.reason, e.fallback)
  {
    assert AnswerFits(log, t, w.key, w.prompt, e.reason, e.fallback);
  }

  lemma AnswersMeantNext(log: seq<Event>, events: seq<Event>)
    requires AnswersMeant(log) && |events| <= 1
    requires forall e :: e in events && e.Responded? ==> AnsweredBy(log, e.request, e.reason, e.fallback)
    ensures AnswersMeant(log + events)
  {
    var all := log + events;
    hide AnsweredBy;
    forall j | 0 <= j < |all| && all[j].Responded? ensures AnsweredBy(all[..j], all[j].request, all[j].reason, all[j].fallback) {
      if j < |log| {
        assert all[..j] == log[..j] && all[j] == log[j];
      } else {
        assert all[..j] == log && all[j] in events;
      }
    }
  }

  // ---- one end and one judgement per thread ----

  /** Two ends, or two judgements, of one thread. */
  predicate SameMark(e: Event, f: Event) {
    (e.Judged? && f == e) || ((e.AwaitEnded? || e.LifecycleEnded?) && IsEndOf(f, e.tid))
  }

  ghost predicate MarkedOnce(log: seq<Event>) {
    forall a, b :: 0 <= a < b < |log| ==> !SameMark(log[a], log[b])
  }

  lemma MarkedOnceStep(s: Server, step: Step)
    requires AllFit(s) && MarkedOnce(s.log) && Enabled(s, step)
    ensures MarkedOnce(Apply(s, step).log)
  {
    LogGrows(s, step);
    var log, events := s.log, EventOf(s, step);
    if step.Work? {
      WorkMarks(s, step.tid, step.step);
      var w := s.workers[step.tid];
      assert Fits(log, step.tid, w) && events == TurnOf(s, step.tid, step.step).events;
      hide Apply, EventOf, Enabled, TurnOf, AllFit, Fits;
      forall e | e in events ensures Unlike(log, e) {
        if HasMark(e) { FitsUnlike(log, step.tid, w, e); }
      }
    } else {
      ServerJudges(s, step);
    }
    hide Apply, EventOf, Enabled, AllFit;
    MarkedOnceNext(log, events);
  }

  ghost predicate Unlike(log: seq<Event>, e: Event) { forall f :: f in log ==> !SameMark(f, e) }

  lemma FitsUnlike(log: seq<Event>, t: Tid, w: Worker, e: Event)
    requires Fits(log, t, w) && HasMark(e) && e.tid == t
    requires (e.Judged? ==> w.pc.Judging?) && (IsEndOf(e, t) ==> Early(w.pc))
    ensures Unlike(log, e)
  {
    hide Meant, EndsAt;
  }

  lemma MarkedOnceNext(log: seq<Event>, events: seq<Event>)
    requires MarkedOnce(log) && |events| <= 1 && forall e :: e in events ==> Unlike(log, e)
    ensures MarkedOnce(log + events)
  {
    var all := log + events;
    hide SameMark;
    forall a, b | 0 <= a < b < |all| ensures !SameMark(all[a], all[b]) {
      if b >= |log| {
        assert all[a] in log && all[b] in events;
      }
    }
  }

  // ---- every run ----

  ghost predicate Answering(s: Server) {
    && RequestOnce(s.log) && AllOnTheirWay(s) && RoutesKnown(s.log) && Routed(s.log)
    && MarksKnown(s.log) && AllFit(s) && AnswersMeant(s.log) && MarkedOnce(s.log)
  }

  lemma AnsweringStep(s: Server, step: Step)
    requires Known(s) && OneReceipt(s.log) && CancelsLogged(s) && Answering(s) && Enabled(s, step)
    ensures Answering(Apply(s, step))
  {
    hide Apply, Enabled, Known, OneReceipt, CancelsLogged, RequestOnce, AllOnTheirWay, RoutesKnown, Routed, MarksKnown,
      AllFit, AnswersMeant, MarkedOnce;
    RequestOnceStep(s, step);
    AllOnTheirWayStep(s, step);
    RoutesKnownStep(s, step);
    RoutedStep(s, step);
    MarksKnownStep(s, step);
    AllFitStep(s, step);
    AnswersMeantStep(s, step);
    MarkedOnceStep(s, step);
  }

  lemma {:induction false} RunAnswers(states: seq<Server>, steps: seq<Step>, i: nat)
    requires IsRun(states, steps) && i < |states|
    ensures Answering(states[i])
  {
    if i > 0 {
      RunAnswers(states, steps, i - 1);
      RunKeepsInvariant(states, steps, i - 1);
      InvariantParts(states[i - 1]);
      hide Apply, Enabled, Invariant, Answering;
      AnsweringStep(states[i - 1], steps[i - 1]);
    }
  }

  lemma InvariantParts(s: Server)
    requires Invariant(s)
    ensures Known(s) && OneReceipt(s.log) && CancelsLogged(s)
  {
    hide Known, OneReceipt, CancelsLogged, RunInvariant, Attributed;
  }

  /** An unknown command starts nothing, a ship prompt only lifecycles, any other
      prompt only direct runs, and only hard stops ask. */
  lemma PromptsGoTheirWay(states: seq<Server>, steps: seq<Step>, i: nat, q: Request, k: Key, t: Tid, prompt: Prompt)
    requires IsRun(states, steps) && i < |states| && Received(q, k, t, prompt) in states[i].log
    ensures forall key, run :: Launched(t, key, run) in states[i].log ==> !prompt.ship && !prompt.unknownCommand
    ensures LifecycleBegan(t) in states[i].log ==> prompt.ship && !prompt.unknownCommand
    ensures forall n :: Asked(t, n) in states[i].log ==> prompt.hardStop && !prompt.unknownCommand
  {
    RunAnswers(states, steps, i);
    hide IsRun, RequestOnce, AllOnTheirWay, RoutesKnown, MarksKnown, AllFit, AnswersMeant, MarkedOnce;
  }

  /** The regular answer to a prompt that came to the end of its run: the flag of its
      session is read once, after the end; cancelled if a cancel came before that or
      the run was stopped, else end_turn if it was completed, and refused if not. */
  lemma AnswerAfterEnd(states: seq<Server>, steps: seq<Step>, i: nat, j: nat, q: Request, k: Key, t: Tid, prompt: Prompt,
                       b: nat, completed: bool, stopped: bool)
    requires IsRun(states, steps) && i < |states| && j < |states[i].log| && Received(q, k, t, prompt) in states[i].log
    requires states[i].log[j].Responded? && states[i].log[j].request == q && !states[i].log[j].fallback
    requires EndsAt(states[i].log[..j], b, t, completed, stopped)
    ensures exists a :: b < a < j && states[i].log[a] == Judged(t)
    ensures forall a :: 0 <= a < |states[i].log| && states[i].log[a] == Judged(t) ==>
              states[i].log[j].reason == if CancelSection(k) in states[i].log[..a] || stopped then Cancelled
                                         else if completed then EndTurn else Refusal
  {
    RunAnswers(states, steps, i);
    hide IsRun, AllOnTheirWay, RoutesKnown, Routed, MarksKnown, AllFit;
    var log := states[i].log;
    AnswerIsMeant(log, j, q, k, t, prompt);
    EndIsAnswered(log, j, k, t, prompt, b, completed, stopped);
  }

  lemma AnswerIsMeant(log: seq<Event>, j: nat, q: Request, k: Key, t: Tid, prompt: Prompt)
    requires RequestOnce(log) && AnswersMeant(log) && j < |log| && Received(q, k, t, prompt) in log
    requires log[j].Responded? && log[j].request == q
    ensures AnswerFits(log[..j], t, k, prompt, log[j].reason, log[j].fallback)
  {
    hide AnswerFits;
    assert AnsweredBy(log[..j], log[j].request, log[j].reason, log[j].fallback);
  }

  lemma EndIsAnswered(log: seq<Event>, j: nat, k: Key, t: Tid, prompt: Prompt, b: nat, completed: bool, stopped: bool)
    requires MarkedOnce(log) && j < |log| && log[j].Responded? && Meant(log[..j], t, k, prompt, log[j].reason)
    requires EndsAt(log[..j], b, t, completed, stopped)
    ensures exists a :: b < a < j && log[a] == Judged(t)
    ensures forall a :: 0 <= a < |log| && log[a] == Judged(t) ==>
              log[j].reason == if CancelSection(k) in log[..a] || stopped then Cancelled
                               else if completed then EndTurn else Refusal
  {
    assert IsEndOf(log[..j][b], t) && log[..j][b] in log[..j];
    var b1, a, c1, s1 :| AnswersEnd(log[..j], b1, a, t, k, c1, s1, log[j].reason);
    assert log[b] == log[..j][b] && log[b1] == log[..j][b1] && log[a] == log[..j][a] && log[..j][..a] == log[..a];
    OneMark(log, b, b1);
    forall a1 | 0 <= a1 < |log| && log[a1] == Judged(t) ensures a1 == a {
      OneMark(log, a, a1);
    }
  }

  lemma OneMark(log: seq<Event>, a: nat, b: nat)
    requires MarkedOnce(log) && a < |log| && b < |log| && SameMark(log[a], log[b]) && SameMark(log[b], log[a])
    ensures a == b
  {
  }

  /** The regular answer to a prompt that came to no end: an unknown command is
      refused, and any other prompt only if it was a hard stop; an answer cancelled
      comes after a cancel. So only the end of a run is answered end_turn. */
  lemma AnswerWithoutEnd(states: seq<Server>, steps: seq<Step>, i: nat, j: nat, q: Request, k: Key, t: Tid, prompt: Prompt)
    requires IsRun(states, steps) && i < |states| && j < |states[i].log| && Received(q, k, t, prompt) in states[i].log
    requires states[i].log[j].Responded? && states[i].log[j].request == q && !states[i].log[j].fallback
    requires forall b, completed, stopped :: !EndsAt(states[i].log[..j], b, t, completed, stopped)
    ensures prompt.unknownCommand ==> states[i].log[j].reason == Refusal
    ensures states[i].log[j].reason == Refusal ==> prompt.unknownCommand || prompt.hardStop
    ensures states[i].log[j].reason == Cancelled ==> CancelSection(k) in states[i].log[..j]
    ensures states[i].log[j].reason != EndTurn
  {
    RunAnswers(states, steps, i);
    hide IsRun, AllOnTheirWay, RoutesKnown, Routed, MarksKnown, AllFit, MarkedOnce, EndsAt;
    AnswerIsMeant(states[i].log, j, q, k, t, prompt);
  }

  /** The exception handler answers cancelled exactly if the session was cancelled
      by then, and else refuses. */
  lemma AnswerAfterFailure(states: seq<Server>, steps: seq<Step>, i: nat, j: nat, q: Request, k: Key, t: Tid, prompt: Prompt)
    requires IsRun(states, steps) && i < |states| && j < |states[i].log| && Received(q, k, t, prompt) in states[i].log
    requires states[i].log[j].Responded? && states[i].log[j].request == q && states[i].log[j].fallback
    ensures states[i].log[j].reason == if CancelSection(k) in states[i].log[..j] then Cancelled else Refusal
  {
    RunAnswers(states, steps, i);
    hide IsRun, AllOnTheirWay, RoutesKnown, Routed, MarksKnown, AllFit, MarkedOnce, Meant;
    AnswerIsMeant(states[i].log, j, q, k, t, prompt);
  }

  // ---- failures ----

  /** A worker may fail wherever it is at work, and then its exception handler answers. */
  lemma WorkMayFail(t: Tid, w: Worker, x: Session, perms: Perms, reserved: set<RunId>)
    requires w.pc in {Parsing, Asking, Waiting, AtGate, Preparing, InLifecycle} || w.pc.Judging?
    ensures CanStep(w, x, reserved, Raise)
    ensures var failed := Act(t, w, x, perms, reserved, Raise);
            && failed.w.pc == Failing && failed.x == x && failed.events == []
            && CanStep(failed.w, x, reserved, Respond)
            && Act(t, failed.w, x, perms, reserved, Respond).events
               == [Responded(w.request, if x.cancelled then Cancelled else Refusal, true)]
  {
  }

  /** So may the launch, the wait and the sending of the answer itself. */
  lemma OperationsMayFail(t: Tid, w: Worker, x: Session, perms: Perms, reserved: set<RunId>)
    ensures w.pc == Launching ==>
              CanStep(w, x, reserved, LaunchFails) && Act(t, w, x, perms, reserved, LaunchFails).w.pc == Failing
    ensures w.pc == Stopping && w.run.Some? ==>
              CanStep(w, x, reserved, RequestStop(true)) && Act(t, w, x, perms, reserved, RequestStop(true)).w.pc == Failing
    ensures w.pc == Awaiting && w.run.Some? ==>
              CanStep(w, x, reserved, AwaitRaises) && Act(t, w, x, perms, reserved, AwaitRaises).w.pc == Failing
    ensures w.pc.Responding? ==>
              CanStep(w, x, reserved, RespondFails) && Act(t, w, x, perms, reserved, RespondFails).w.pc == Failing
  {
  }

  /** An exception in a message handler ends the reading of messages: nothing but the
      workers goes on. */
  lemma HandlersMayFail(s: Server, step: Step)
    requires s.main == Idle
    ensures Enabled(s, MainFails)
    ensures Enabled(Apply(s, MainFails), step) ==> step.Work? || step.EndWorker?
  {
    hide FreshRequest, FreshThread;
  }
}
