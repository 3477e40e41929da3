/** The session protocol of the ACP server as atomic steps: one main thread that
    reads messages, one worker thread per accepted prompt, and the shared
    session fields and client responses they touch under locks. */
module AcpSession {
  import opened Wrappers

  type Key = nat        // a Session object
  type RunId = nat      // a control-plane run id; a session id is one of them
  type Request = nat    // one incoming session/prompt message
  type Tid = nat        // a prompt-worker thread
  type PermId = nat     // the counter inside vibecrafted-permission-N

  datatype Reply = AllowOnce | NotGranted   // allowed_once(decision)
  datatype StopReason = EndTurn | Refusal | Cancelled

  /** The fields of a Session that the protocol reads. */
  datatype Session = Session(ownId: RunId, restored: bool, promptStarted: bool, launched: bool,
                             cancelled: bool, activeRun: Option<RunId>, promptCount: nat)

  /** What the classifiers say about a prompt. */
  datatype Prompt = Prompt(unknownCommand: bool, hardStop: bool, ship: bool)

  datatype Pc =
    | Parsing | Asking | Waiting | AtGate | Preparing | Launching | Marking | Stopping | Awaiting
    | InLifecycle | Judging(completed: bool, stopped: bool) | Responding(reason: StopReason) | Failing | Finishing

  datatype Worker = Worker(key: Key, request: Request, prompt: Prompt, pc: Pc,
                           perm: Option<PermId>, run: Option<RunId>)

  /** Dead: an exception left a message handler, and with it the read loop. */
  datatype Main = Idle | Cancelling(key: Key, launched: bool, active: RunId) | Dead

  /** ClientRequests: the counter, the undelivered responses, the closed flag. */
  datatype Perms = Perms(counter: nat, responses: map<PermId, Reply>, closed: bool)

  /** How waiting for a run, or a lifecycle, ended. */
  datatype End = Returned(completed: bool, stopped: bool) | Raised

  /** What the outside world, or a reader of the log, could have seen. */
  datatype Event =
    | Received(request: Request, key: Key, tid: Tid, prompt: Prompt)
    | Asked(tid: Tid, perm: PermId)
    | Replied(perm: PermId, reply: Reply)
    | Collected(tid: Tid, perm: PermId)
    | CancelSection(key: Key)
    | Launched(tid: Tid, key: Key, run: RunId)
    | LifecycleBegan(tid: Tid)
    | StopRequested(run: RunId)
    | AwaitEnded(tid: Tid, run: RunId, end: End)
    | LifecycleEnded(tid: Tid, end: End)
    | Judged(tid: Tid)   // the cancelled flag was read after the run's end
    | Responded(request: Request, reason: StopReason, fallback: bool)   // fallback: by the exception handler
    | Rejected(request: Request)
    | Unanswered(request: Request)   // sending the response of last resort failed

  /** The objects ever made, and which of them a session id names now: loading a
      session puts a new object in the place of the old one. */
  datatype Server = Server(sessions: map<Key, Session>, names: map<RunId, Key>, workers: map<Tid, Worker>, main: Main,
                           perms: Perms, reserved: set<RunId>, log: seq<Event>)

  /** Waiting for the run has ended. */
  ghost predicate Ended(log: seq<Event>, r: RunId) {
    exists e :: e in log && e.AwaitEnded? && e.run == r
  }

  const INITIAL := Server(map[], map[], map[], Idle, Perms(0, map[], false), {}, [])

  // ---- the locked sections, on values ----

  function FreshSession(id: RunId, restored: bool): Session {
    Session(id, restored, false, false, false, None, 0)
  }

  function StartSection(x: Session): Session { x.(promptStarted := true) }
  function MarkSection(x: Session): Session { x.(launched := true) }
  function CancelLocked(x: Session): Session { x.(cancelled := true) }
  function FinishSection(x: Session): Session {
    x.(promptStarted := false, promptCount := x.promptCount + 1)
  }
  /** active_run_id or session_id. */
  function ActiveOrOwn(x: Session): RunId { if x.activeRun.Some? then x.activeRun.value else x.ownId }

  // ---- one atomic step of a worker ----

  datatype WorkerStep =
    | Parse | Ask | Collect | PassGate
    | Prepare(newId: RunId)
    | LaunchAccepted | LaunchFails
    | Mark
    | RequestStop(raises: bool)
    | AwaitReturns(completed: bool, stopped: bool) | AwaitRaises
    | StageActive(child: RunId) | StageLaunched | LifecycleReturns(completed: bool, stopped: bool)
    | Judge
    | Raise
    | Respond | RespondFails

  /** Everything one worker step changes; the worker's end is a server step. */
  datatype Turn = Turn(w: Worker, x: Session, perms: Perms, reserved: set<RunId>, events: seq<Event>)

  predicate CanStep(w: Worker, x: Session, reserved: set<RunId>, step: WorkerStep) {
    match step
    case Parse => w.pc == Parsing
    case Ask => w.pc == Asking
    case Collect => w.pc == Waiting && w.perm.Some?
    case PassGate => w.pc == AtGate
    case Prepare(newId) => w.pc == Preparing && newId !in reserved
    case LaunchAccepted => w.pc == Launching && w.run.Some?
    case LaunchFails => w.pc == Launching
    case Mark => w.pc == Marking
    case RequestStop(_) => w.pc == Stopping && w.run.Some?
    case AwaitReturns(_, _) => w.pc == Awaiting && w.run.Some?
    case AwaitRaises => w.pc == Awaiting && w.run.Some?
    case StageActive(child) => w.pc == InLifecycle && child !in reserved
    case StageLaunched => w.pc == InLifecycle && x.activeRun.Some?
    case LifecycleReturns(_, _) => w.pc == InLifecycle
    case Judge => w.pc.Judging?
    case Raise => w.pc in {Parsing, Asking, Waiting, AtGate, Preparing, InLifecycle} || w.pc.Judging?
    case Respond => w.pc.Responding? || w.pc == Failing
    case RespondFails => w.pc.Responding? || w.pc == Failing
  }

  function ReasonAfter(x: Session, completed: bool, stopped: bool): StopReason {
    if x.cancelled || stopped then Cancelled else if completed then EndTurn else Refusal
  }

  /** _run_direct_prompt starts the session's own id only for a first prompt. */
  predicate Continuation(x: Session) { x.restored || x.promptCount > 0 }

  function Act(t: Tid, w: Worker, x: Session, perms: Perms, reserved: set<RunId>, step: WorkerStep): Turn
    requires CanStep(w, x, reserved, step)
  {
    match step
    case Parse =>
      var pc := if w.prompt.unknownCommand then Responding(Refusal)
                else if w.prompt.hardStop then Asking else AtGate;
      Turn(w.(pc := pc), x, perms, reserved, [])
    case Ask =>
      var n := perms.counter + 1;
      Turn(w.(pc := Waiting, perm := Some(n)), x, perms.(counter := n), reserved, [Asked(t, n)])
    case Collect =>
      var n := w.perm.value;
      if n in perms.responses then
        var granted := perms.responses[n] == AllowOnce;
        Turn(w.(pc := if granted then AtGate else Responding(if x.cancelled then Cancelled else Refusal)),
             x, perms.(responses := perms.responses - {n}), reserved, [Collected(t, n)])
      else
        Turn(w.(pc := Responding(if x.cancelled then Cancelled else Refusal)), x, perms, reserved, [])
    case PassGate =>
      if x.cancelled then Turn(w.(pc := Responding(Cancelled)), x, perms, reserved, [])
      else if w.prompt.ship then Turn(w.(pc := InLifecycle), x, perms, reserved, [LifecycleBegan(t)])
      else Turn(w.(pc := Preparing), x, perms, reserved, [])
    case Prepare(newId) =>
      var run := if Continuation(x) then newId else x.ownId;
      Turn(w.(pc := Launching, run := Some(run)), x.(activeRun := Some(run)), perms, reserved + {run}, [])
    case LaunchAccepted =>
      Turn(w.(pc := Marking), x, perms, reserved, [Launched(t, w.key, w.run.value)])
    case LaunchFails => Turn(w.(pc := Failing), x, perms, reserved, [])
    case Mark =>
      Turn(w.(pc := if x.cancelled then Stopping else Awaiting), MarkSection(x), perms, reserved, [])
    case RequestStop(raises) =>
      Turn(w.(pc := if raises then Failing else Awaiting), x, perms, reserved, [StopRequested(w.run.value)])
    case AwaitReturns(completed, stopped) =>
      Turn(w.(pc := Judging(completed, stopped)), x, perms, reserved,
           [AwaitEnded(t, w.run.value, Returned(completed, stopped))])
    case AwaitRaises => Turn(w.(pc := Failing), x, perms, reserved, [AwaitEnded(t, w.run.value, Raised)])
    case StageActive(child) => Turn(w, x.(activeRun := Some(child)), perms, reserved + {child}, [])
    case StageLaunched => Turn(w, x.(launched := true), perms, reserved, [])
    case LifecycleReturns(completed, stopped) =>
      Turn(w.(pc := Judging(completed, stopped)), x, perms, reserved, [LifecycleEnded(t, Returned(completed, stopped))])
    case Judge =>
      Turn(w.(pc := Responding(ReasonAfter(x, w.pc.completed, w.pc.stopped))), x, perms, reserved, [Judged(t)])
    case Raise => Turn(w.(pc := Failing), x, perms, reserved, [])
    case Respond =>
      var reason := if w.pc.Responding? then w.pc.reason else if x.cancelled then Cancelled else Refusal;
      Turn(w.(pc := Finishing), x, perms, reserved, [Responded(w.request, reason, w.pc == Failing)])
    case RespondFails =>
      // the exception handler sends once more; nothing catches its own failure
      if w.pc.Responding? then Turn(w.(pc := Failing), x, perms, reserved, [])
      else Turn(w.(pc := Finishing), x, perms, reserved, [Unanswered(w.request)])
  }

  // ---- one atomic step of the server ----

  datatype Step =
    | Create(key: Key, id: RunId)                 // session/new
    | Restore(key: Key, id: RunId)                // session/load, session/resume
    | StartPrompt(id: RunId, tid: Tid, request: Request, prompt: Prompt)
    | RejectPrompt(request: Request)              // unknown session or empty prompt
    | Cancel(id: RunId)                           // the locked section of session/cancel
    | FinishCancel(raises: bool)                  // wake, stop when launched, respond
    | MainFails                                   // any other handler raises
    | Deliver(perm: PermId, reply: Reply)         // ClientRequests.resolve
    | CloseClient
    | Work(tid: Tid, step: WorkerStep)
    | EndWorker(tid: Tid)                         // the finally block

  /** sessions.get(session_id) finds an object. */
  predicate Open(s: Server, id: RunId) { id in s.names && s.names[id] in s.sessions }

  ghost predicate Enabled(s: Server, step: Step) {
    match step
    case Create(key, id) => s.main == Idle && key !in s.sessions && id !in s.reserved
    case Restore(key, id) => s.main == Idle && key !in s.sessions
    case StartPrompt(id, tid, request, prompt) =>
      s.main == Idle && Open(s, id) && FreshRequest(s.log, request) && FreshThread(s.log, tid)
    case RejectPrompt(request) => s.main == Idle && FreshRequest(s.log, request)
    case Cancel(id) => s.main == Idle && Open(s, id)
    case FinishCancel(_) => s.main.Cancelling?
    case MainFails => s.main == Idle
    case Deliver(_, _) => s.main == Idle
    case CloseClient => s.main == Idle
    case Work(tid, step) =>
      tid in s.workers && s.workers[tid].key in s.sessions
      && CanStep(s.workers[tid], s.sessions[s.workers[tid].key], s.reserved, step)
    case EndWorker(tid) => tid in s.workers && s.workers[tid].pc == Finishing && s.workers[tid].key in s.sessions
  }

  /** Each incoming message is a request of its own, and threads are new. */
  ghost predicate FreshRequest(log: seq<Event>, q: Request) {
    forall e :: e in log ==> !(e.Received? && e.request == q) && !(e.Rejected? && e.request == q)
  }

  ghost predicate FreshThread(log: seq<Event>, t: Tid) {
    forall e :: e in log ==> !(e.Received? && e.tid == t)
  }

  ghost function Apply(s: Server, step: Step): Server
    requires Enabled(s, step)
  {
    match step
    case Create(key, id) =>
      s.(sessions := s.sessions[key := FreshSession(id, false)], names := s.names[id := key], reserved := s.reserved + {id})
    case Restore(key, id) =>
      s.(sessions := s.sessions[key := FreshSession(id, true)], names := s.names[id := key], reserved := s.reserved + {id})
    case StartPrompt(id, tid, request, prompt) =>
      var key := s.names[id];
      var x := s.sessions[key];
      if x.promptStarted then s.(log := s.log + [Rejected(request)])
      else s.(sessions := s.sessions[key := StartSection(x)],
              workers := s.workers[tid := Worker(key, request, prompt, Parsing, None, None)],
              log := s.log + [Received(request, key, tid, prompt)])
    case RejectPrompt(request) => s.(log := s.log + [Rejected(request)])
    case Cancel(id) =>
      var key := s.names[id];
      var x := s.sessions[key];
      s.(sessions := s.sessions[key := CancelLocked(x)], main := Cancelling(key, x.launched, ActiveOrOwn(x)),
         log := s.log + [CancelSection(key)])
    case FinishCancel(raises) =>
      s.(main := if raises then Dead else Idle,
         log := if s.main.launched then s.log + [StopRequested(s.main.active)] else s.log)
    case MainFails => s.(main := Dead)
    case Deliver(n, reply) =>
      s.(perms := s.perms.(responses := s.perms.responses[n := reply]), log := s.log + [Replied(n, reply)])
    case CloseClient => s.(perms := s.perms.(closed := true))
    case Work(tid, step) =>
      var w := s.workers[tid];
      var turn := Act(tid, w, s.sessions[w.key], s.perms, s.reserved, step);
      Server(s.sessions[w.key := turn.x], s.names, s.workers[tid := turn.w], s.main, turn.perms, turn.reserved,
             s.log + turn.events)
    case EndWorker(tid) =>
      var key := s.workers[tid].key;
      s.(sessions := s.sessions[key := FinishSection(s.sessions[key])], workers := s.workers - {tid})
  }

  /** A run of the server: any interleaving of enabled steps from the start. */
  ghost predicate IsRun(states: seq<Server>, steps: seq<Step>) {
    && |states| == |steps| + 1
    && states[0] == INITIAL
    && forall i :: 0 <= i < |steps| ==> Enabled(states[i], steps[i]) && states[i + 1] == Apply(states[i], steps[i])
  }
}
