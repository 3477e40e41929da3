/** The mutable objects behind the protocol: each method is one critical section,
    and changes its object exactly as the protocol step of the same name does. */
module AcpObjects {
  import opened Wrappers
  import opened AcpSession

  /** The rendezvous between permission requests and client responses. */
  class ClientRequests {
    var counter: nat
    var responses: map<PermId, Reply>
    var closed: bool

    function Value(): Perms
      reads this
    {
      Perms(counter, responses, closed)
    }

    constructor ()
      ensures Value() == INITIAL.perms
    {
      counter, responses, closed := 0, map[], false;
    }

    /** resolve: the last response stored under an id wins. */
    method Resolve(id: PermId, reply: Reply)
      modifies this
      ensures forall s: Server :: s.perms == old(Value()) && Enabled(s, Deliver(id, reply)) ==>
                Apply(s, Deliver(id, reply)).perms == Value()
      ensures id in responses && responses[id] == reply
      ensures forall n :: n in old(responses) && n != id ==> n in responses && responses[n] == old(responses)[n]
    {
      responses := responses[id := reply];
    }

    /** The first critical section of request: a number never used before. */
    method NextId() returns (id: PermId)
      modifies this
      ensures id == old(counter) + 1
      ensures forall t, w: Worker, x, reserved :: w.pc == Asking ==>
                var turn := Act(t, w, x, old(Value()), reserved, Ask);
                turn.perms == Value() && turn.w.perm == Some(id) && turn.events == [Asked(t, id)]
    {
      counter := counter + 1;
      id := counter;
    }

    /** The end of request's wait, for whatever reason it ended. */
    method Take(id: PermId) returns (reply: Option<Reply>)
      modifies this
      ensures id !in responses
      ensures reply.Some? <==> id in old(responses)
      ensures forall t, w: Worker, x, reserved :: w.pc == Waiting && w.perm == Some(id) ==>
                var turn := Act(t, w, x, old(Value()), reserved, Collect);
                turn.perms == Value() && (turn.w.pc == AtGate <==> reply == Some(AllowOnce))
    {
      reply := if id in responses then Some(responses[id]) else None;
      responses := responses - {id};
      assert reply == None ==> responses == old(responses);
    }

    method Close()
      modifies this
      ensures forall s: Server :: s.perms == old(Value()) && Enabled(s, CloseClient) ==> Apply(s, CloseClient).perms == Value()
      ensures responses == old(responses)
    {
      closed := true;
    }
  }

  /** A session, whose fields the prompt worker and the cancel handler share. */
  class SharedSession {
    const sessionId: RunId
    const restored: bool
    var promptStarted: bool
    var launched: bool
    var cancelled: bool
    var activeRun: Option<RunId>
    var promptCount: nat

    function Value(): Session
      reads this
    {
      Session(sessionId, restored, promptStarted, launched, cancelled, activeRun, promptCount)
    }

    constructor (id: RunId, restored: bool)
      ensures Value() == FreshSession(id, restored)
    {
      sessionId, this.restored := id, restored;
      promptStarted, launched, cancelled, activeRun, promptCount := false, false, false, None, 0;
    }

    /** The locked part of _start_prompt; refused while a prompt is running. */
    method TryStart() returns (started: bool)
      modifies this
      ensures started <==> !old(promptStarted)
      ensures Value() == if started then StartSection(old(Value())) else old(Value())
    {
      if promptStarted { return false; }
      promptStarted := true;
      started := true;
    }

    /** The choice of the run in _run_direct_prompt: the session's own id once. */
    method ChooseRun(newId: RunId) returns (run: RunId)
      modifies this
      ensures forall t, w: Worker, perms, reserved :: w.pc == Preparing && newId !in reserved ==>
                var turn := Act(t, w, old(Value()), perms, reserved, Prepare(newId));
                turn.x == Value() && turn.w.run == Some(run)
    {
      var continuation := restored || promptCount > 0;
      run := if continuation then newId else sessionId;
      activeRun := Some(run);
    }

    /** The critical section after a launch; says whether the run must be stopped. */
    method MarkLaunched() returns (mustStop: bool)
      modifies this
      ensures forall t, w: Worker, perms, reserved :: w.pc == Marking ==>
                var turn := Act(t, w, old(Value()), perms, reserved, Mark);
                turn.x == Value() && (turn.w.pc == Stopping <==> mustStop)
    {
      launched := true;
      mustStop := cancelled;
    }

    /** The critical section of _cancel; says which run the handler must stop. */
    method MarkCancelled() returns (stop: bool, active: RunId)
      modifies this
      ensures forall s: Server, id :: Enabled(s, Cancel(id)) && s.sessions[s.names[id]] == old(Value()) ==>
                var (k, s') := (s.names[id], Apply(s, Cancel(id))); s'.sessions[k] == Value() && s'.main == Cancelling(k, stop, active)
    {
      cancelled := true;
      stop := launched;
      active := if activeRun.Some? then activeRun.value else sessionId;
    }

    method Finish()
      modifies this
      ensures Value() == FinishSection(old(Value()))
    {
      promptStarted := false;
      promptCount := promptCount + 1;
    }
  }
}
