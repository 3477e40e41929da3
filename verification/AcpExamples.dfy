/** Runs that show where the protocol's guarantees end. */
module AcpExamples {
  import opened Wrappers
  import opened AcpSession
  import opened AcpSafety
  import opened AcpPermission
  import opened AcpTheorems
  import opened AcpNames

  /** A state that some run reaches. */
  ghost predicate Reached(s: Server) {
    exists states, steps :: IsRun(states, steps) && states[|states| - 1] == s
  }

  lemma StartReached()
    ensures Reached(INITIAL)
  {
    assert IsRun([INITIAL], []);
  }

  lemma NextReached(s: Server, step: Step)
    requires Reached(s) && Enabled(s, step)
    ensures Reached(Apply(s, step))
  {
    var states, steps :| IsRun(states, steps) && states[|states| - 1] == s;
    var s' := Apply(s, step);
    hide Apply, Enabled;
    assert IsRun(states + [s'], steps + [step]);
  }

  const DIRECT := Prompt(false, false, false)

  /** A session with id 7 whose first prompt has worker 0. */
  ghost function Prompted(prompt: Prompt): Server {
    Server(map[0 := StartSection(FreshSession(7, false))], map[7 := 0], map[0 := Worker(0, 0, prompt, Parsing, None, None)],
           Idle, Perms(0, map[], false), {7}, [Received(0, 0, 0, prompt)])
  }

  lemma PromptedReached(prompt: Prompt)
    ensures Reached(Prompted(prompt))
  {
    hide Reached;
    StartReached();
    NextReached(INITIAL, Create(0, 7));
    var s := Apply(INITIAL, Create(0, 7));
    NextReached(s, StartPrompt(7, 0, 0, prompt));
    assert s.sessions[0 := StartSection(FreshSession(7, false))] == map[0 := StartSection(FreshSession(7, false))];
    assert Apply(s, StartPrompt(7, 0, 0, prompt)) == Prompted(prompt);
  }

  /** Create, prompt, load, prompt: two workers under one session id. */
  lemma SecondWorker() returns (s: Server)
    ensures Reached(s) && TwoWorkers(s, 7)
  {
    PromptedReached(DIRECT);
    hide Reached;
    var s1 := Prompted(DIRECT);
    NextReached(s1, Restore(1, 7));
    var s2 := Apply(s1, Restore(1, 7));
    NextReached(s2, StartPrompt(7, 1, 1, DIRECT));
    s := Apply(s2, StartPrompt(7, 1, 1, DIRECT));
    assert WorksFor(s, 0, 7) && WorksFor(s, 1, 7);
  }

  /** One step of the worker of Prompted, given what it does. */
  lemma Worked(s: Server, step: WorkerStep, x: Session, w: Worker, turn: Turn)
    requires Reached(s) && s.workers == map[0 := w] && w.key == 0 && s.sessions == map[0 := x]
    requires CanStep(w, x, s.reserved, step) && turn == Act(0, w, x, s.perms, s.reserved, step)
    ensures Reached(Server(map[0 := turn.x], s.names, map[0 := turn.w], s.main, turn.perms, turn.reserved, s.log + turn.events))
  {
    NextReached(s, Work(0, step));
    hide Reached;
    assert s.sessions[0 := turn.x] == map[0 := turn.x] && s.workers[0 := turn.w] == map[0 := turn.w];
  }

  /** Only the worker of the one session, the rendezvous and the log differ. */
  ghost function OneWorker(w: Worker, perms: Perms, log: seq<Event>): Server {
    Server(map[0 := StartSection(FreshSession(7, false))], map[7 := 0], map[0 := w], Idle, perms, {7}, log)
  }

  lemma Moved(w: Worker, perms: Perms, log: seq<Event>, step: WorkerStep, turn: Turn)
    requires Reached(OneWorker(w, perms, log)) && w.key == 0
    requires var x := StartSection(FreshSession(7, false));
             CanStep(w, x, {7}, step) && turn == Act(0, w, x, perms, {7}, step) && turn.x == x && turn.reserved == {7}
    ensures Reached(OneWorker(turn.w, turn.perms, log + turn.events))
  {
    Worked(OneWorker(w, perms, log), step, StartSection(FreshSession(7, false)), w, turn);
  }

  /** The same session once its run, the session's own id, is awaited. */
  ghost function Running(): Server {
    Server(map[0 := Session(7, false, true, true, false, Some(7), 0)], map[7 := 0],
           map[0 := Worker(0, 0, DIRECT, Awaiting, None, Some(7))],
           Idle, Perms(0, map[], false), {7}, [Received(0, 0, 0, DIRECT), Launched(0, 0, 7)])
  }

  function DirectWorker(pc: Pc, run: Option<RunId>): Worker { Worker(0, 0, DIRECT, pc, None, run) }

  const HEARD := [Received(0, 0, 0, DIRECT)]
  const NO_PERMS := Perms(0, map[], false)

  lemma PreparingReached()
    ensures Reached(OneWorker(DirectWorker(Preparing, None), NO_PERMS, HEARD))
  {
    PromptedReached(DIRECT);
    hide Reached;
    assert HEARD + [] == HEARD;
    var x := StartSection(FreshSession(7, false));
    Moved(DirectWorker(Parsing, None), NO_PERMS, HEARD, Parse, Turn(DirectWorker(AtGate, None), x, NO_PERMS, {7}, []));
    Moved(DirectWorker(AtGate, None), NO_PERMS, HEARD, PassGate, Turn(DirectWorker(Preparing, None), x, NO_PERMS, {7}, []));
  }

  lemma RunningReached()
    ensures Reached(Running())
  {
    PreparingReached();
    hide Reached;
    var launched := [Received(0, 0, 0, DIRECT), Launched(0, 0, 7)];
    assert {7} + {7} == {7} && HEARD + [] == HEARD && HEARD + [Launched(0, 0, 7)] == launched && launched + [] == launched;
    var names, x0 := map[7 := 0], StartSection(FreshSession(7, false));
    var x := x0.(activeRun := Some(7));
    Worked(OneWorker(DirectWorker(Preparing, None), NO_PERMS, HEARD), Prepare(8), x0, DirectWorker(Preparing, None),
           Turn(DirectWorker(Launching, Some(7)), x, NO_PERMS, {7}, []));
    Worked(Server(map[0 := x], names, map[0 := DirectWorker(Launching, Some(7))], Idle, NO_PERMS, {7}, HEARD), LaunchAccepted,
           x, DirectWorker(Launching, Some(7)), Turn(DirectWorker(Marking, Some(7)), x, NO_PERMS, {7}, [Launched(0, 0, 7)]));
    Worked(Server(map[0 := x], names, map[0 := DirectWorker(Marking, Some(7))], Idle, NO_PERMS, {7}, launched), Mark,
           x, DirectWorker(Marking, Some(7)), Turn(DirectWorker(Awaiting, Some(7)), MarkSection(x), NO_PERMS, {7}, []));
  }

  /** After a load the cancel of the same session id leaves the awaited run alone. */
  lemma CancelMisses() returns (s: Server)
    ensures Reached(s) && s.main == Idle && WorksFor(s, 0, 7) && s.workers[0].pc == Awaiting
    ensures Launched(0, 0, 7) in s.log && 7 in s.names && CancelSection(s.names[7]) in s.log
    ensures !Ended(s.log, 7) && StopRequested(7) !in s.log
  {
    RunningReached();
    hide Reached;
    var s0 := Running();
    NextReached(s0, Restore(1, 7));
    var s1 := Apply(s0, Restore(1, 7));
    NextReached(s1, Cancel(7));
    var s2 := Apply(s1, Cancel(7));
    NextReached(s2, FinishCancel(false));
    s := Apply(s2, FinishCancel(false));
  }

  const SHIP := Prompt(false, true, true)   // a hard stop in a lifecycle prompt
  const EARLY := [Received(0, 0, 0, SHIP), Replied(1, AllowOnce)]

  function ShipWorker(pc: Pc, perm: Option<PermId>): Worker { Worker(0, 0, SHIP, pc, perm, None) }

  lemma EarlyAsked()
    ensures Reached(OneWorker(ShipWorker(Waiting, Some(1)), Perms(1, map[1 := AllowOnce], false), EARLY + [Asked(0, 1)]))
  {
    PromptedReached(SHIP);
    hide Reached;
    NextReached(Prompted(SHIP), Deliver(1, AllowOnce));
    var x, perms := StartSection(FreshSession(7, false)), Perms(0, map[1 := AllowOnce], false);
    var none: map<PermId, Reply> := map[];
    assert none[1 := AllowOnce] == map[1 := AllowOnce] && [Received(0, 0, 0, SHIP)] + [Replied(1, AllowOnce)] == EARLY;
    assert Apply(Prompted(SHIP), Deliver(1, AllowOnce)) == OneWorker(ShipWorker(Parsing, None), perms, EARLY);
    assert EARLY + [] == EARLY;
    Moved(ShipWorker(Parsing, None), perms, EARLY, Parse, Turn(ShipWorker(Asking, None), x, perms, {7}, []));
    Moved(ShipWorker(Asking, None), perms, EARLY, Ask,
          Turn(ShipWorker(Waiting, Some(1)), x, perms.(counter := 1), {7}, [Asked(0, 1)]));
  }

  /** A reply that comes before the request it names lets the launch through. */
  lemma EarlyReply() returns (s: Server)
    ensures Reached(s) && HardStopThread(s.log, 0) && s.log != [] && s.log[|s.log| - 1] == LifecycleBegan(0)
    ensures !GrantedInOrder(s.log, 0) && !NoEarlyReply(s.log)
  {
    EarlyAsked();
    hide Reached, GrantedInOrder, NoEarlyReply, HardStopThread;
    var x, perms := StartSection(FreshSession(7, false)), Perms(1, map[1 := AllowOnce], false);
    var after := Perms(1, map[1 := AllowOnce] - {1}, false);
    var asked := EARLY + [Asked(0, 1)];
    Moved(ShipWorker(Waiting, Some(1)), perms, asked, Collect,
          Turn(ShipWorker(AtGate, Some(1)), x, after, {7}, [Collected(0, 1)]));
    var collected := asked + [Collected(0, 1)];
    Moved(ShipWorker(AtGate, Some(1)), after, collected, PassGate,
          Turn(ShipWorker(InLifecycle, Some(1)), x, after, {7}, [LifecycleBegan(0)]));
    s := OneWorker(ShipWorker(InLifecycle, Some(1)), after, collected + [LifecycleBegan(0)]);
    EarlyLog(s.log);
  }

  lemma EarlyLog(log: seq<Event>)
    requires |log| == 5 && log[0] == Received(0, 0, 0, SHIP) && log[1] == Replied(1, AllowOnce)
    requires log[2] == Asked(0, 1) && log[3] == Collected(0, 1) && log[4] == LifecycleBegan(0)
    ensures HardStopThread(log, 0) && !GrantedInOrder(log, 0) && !NoEarlyReply(log)
  {
    assert log[0] in log;
    assert !AskedBefore(log, 1, 1);
  }

  /** If the client is gone, a heard prompt is never answered. */
  lemma AnswerLost() returns (s: Server)
    ensures Reached(s) && Heard(s.log, 0) && !PendingRequest(s, 0) && Responses(s.log, 0) == 0
  {
    var prompt := Prompt(true, false, false);
    PromptedReached(prompt);
    hide Reached;
    var x, perms := StartSection(FreshSession(7, false)), Perms(0, map[], false);
    var w, log := Worker(0, 0, prompt, Parsing, None, None), [Received(0, 0, 0, prompt)];
    assert log + [] == log;
    var w1, w2, w3 := w.(pc := Responding(Refusal)), w.(pc := Failing), w.(pc := Finishing);
    Moved(w, perms, log, Parse, Turn(w1, x, perms, {7}, []));
    Moved(w1, perms, log, RespondFails, Turn(w2, x, perms, {7}, []));
    Moved(w2, perms, log, RespondFails, Turn(w3, x, perms, {7}, [Unanswered(0)]));
    s := OneWorker(w3, perms, log + [Unanswered(0)]);
    assert s.log[0] in s.log;
    assert s.log[..1] == log && log[..0] == [];
    assert Responses(log[..0], 0) == 0 && Responses(log, 0) == 0;
  }
}
