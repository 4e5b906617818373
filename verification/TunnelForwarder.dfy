/**
 The tunnel forwarder of connections/tunnel.py as an interleaving of atomic steps.

 Three kinds of thread share one lock, one stop flag and one request table: the serving thread
 (`_serve`, `_start_request`), one worker per accepted socket (`_run_request`, `handle`) and the
 owner that stops them (`request_stop`, then `wait_stopped`).  A step is one native call, one
 critical section or one unlocked read; every native cleanup call may raise.  A run is any
 sequence of enabled steps, so a theorem about reachable states holds for every schedule.
 */
module TunnelForwarder {
  import opened Common

  type Sock = nat   // an accepted socket; its worker thread is named by the same number
  type Error = nat

  datatype Call = Quiet | Raises(e: Error)

  /** Where a thread stands inside `_close_socket`. */
  datatype ClosePc = Shutdown | ShutdownRaised(e: Error) | Close | CloseRaised(e: Error)

  datatype ServePc =
    | Loop                           // at the test of `while not stop`
    | Waiting                        // in handle_request, nothing accepted
    | Holding(r: Sock)               // accepted, before the critical section
    | Refusing(r: Sock, c: ClosePc)  // saw stop: closing without registering
    | Starting(r: Sock)              // registered, before worker.start()
    | Awaiting(r: Sock)              // in worker.start(): launched, waiting for the mark of the worker
    | Undoing(r: Sock, c: ClosePc)   // start failed: closing
    | Unregistering(r: Sock)         // start failed: before the pop
    | Ended

  datatype WorkerPc =
    | Unstarted
    | Launched           // a native thread, without ident
    | Identified         // ident is set, the thread is not marked started
    | Entered            // before `if not stop` of _run_request
    | InHandler          // before the stop test of handle
    | Opening            // before open_channel
    | Relaying           // owns an open channel
    | ChannelRaised(e: Error)
    | Finally(c: ClosePc)
    | Popping
    | Exiting            // popped; the thread is still alive
    | Finished

  datatype WaitResult = Normal | Timeout | CleanupFailed(e: Error) | JoinRaised

  /** `i == 0` stands for the serving thread, `i > 0` for `snapshot[i - 1]`. */
  datatype OwnerPc =
    | Idle
    | ClosingListener
    | ListenerRaised(e: Error)
    | ClosingRequests(i: nat, c: ClosePc)
    | Stopped                                                     // request_stop returned
    | IdentTest(i: nat, deadline: real)
    | Sampling(i: nat, deadline: real)
    | JoinReady(i: nat, deadline: real, budget: real)
    | Joining(i: nat, deadline: real, budget: real, since: real)
    | AliveTest(i: nat, deadline: real)
    | IdentRetest(i: nat, deadline: real)
    | ServerRetest(i: nat, deadline: real)
    | ReadingError
    | Returned(r: WaitResult)

  datatype Thread = Server | Worker(r: Sock)

  datatype State = State(
    stop: bool,
    requests: set<Sock>,
    snapshot: seq<Sock>,
    cleanup: Option<Error>,
    serve: ServePc,
    workers: map<Sock, WorkerPc>,   // one entry per accepted socket
    owner: OwnerPc,
    remaining: seq<Thread>,
    now: real,
    // history
    registered: set<Sock>,          // ever put into the table
    shut: set<Sock>,                // shutdown() was attempted
    closed: set<Sock>,              // close() was attempted
    channels: set<Sock>,            // workers that obtained a channel
    channelClosed: set<Sock>,       // channel.close() was attempted
    faulted: bool,                  // some cleanup call raised
    blocked: real)                  // time spent inside join()

  predicate Init(s: State) {
    && !s.stop && s.requests == {} && s.snapshot == [] && s.cleanup == None
    && (s.serve == Loop || s.serve == Ended)
    && s.workers == map[] && s.owner == Idle && s.remaining == []
    && s.registered == {} && s.shut == {} && s.closed == {} && s.channels == {} && s.channelClosed == {}
    && !s.faulted && s.blocked == 0.0
  }

  // ---------------------------------------------------------------- steps

  datatype ServeAction =
    | TestStop | Accept(r: Sock) | ReturnIdle | RaiseFromHandle(caught: bool)
    | Publish | ServeCall(o: Call) | StartWorker(ok: bool) | StartReturns | Unregister(dies: bool)

  datatype WorkerAction = OpenChannel(got: bool) | WorkerCall(o: Call)

  datatype Action =
    | Serve(serving: ServeAction)
    | Work(r: Sock, working: WorkerAction)
    | TakeSnapshot(order: seq<Sock>)
    | StopCall(o: Call)
    | WaitCall
    | Tick(dt: real)

  /** `_record_cleanup_error`: the first error wins. */
  function Record(recorded: Option<Error>, e: Error): Option<Error> {
    if recorded.None? then Some(e) else recorded
  }

  predicate PendingClose(c: ClosePc) { c.ShutdownRaised? || c.CloseRaised? }

  /** Where `_close_socket` stands after one more step; None means it returned. */
  function CloseNext(c: ClosePc, o: Call): Option<ClosePc> {
    match c
    case Shutdown => Some(if o.Raises? then ShutdownRaised(o.e) else Close)
    case ShutdownRaised(_) => Some(Close)
    case Close => if o.Raises? then Some(CloseRaised(o.e)) else None
    case CloseRaised(_) => None
  }

  /** What that step does to the shared state. */
  function AfterClose(s: State, r: Sock, c: ClosePc, o: Call): State {
    s.(shut := if c.Shutdown? then s.shut + {r} else s.shut,
       closed := if c.Close? then s.closed + {r} else s.closed,
       faulted := s.faulted || (!PendingClose(c) && o.Raises?),
       cleanup := if PendingClose(c) then Record(s.cleanup, c.e) else s.cleanup)
  }

  /** The worker has set the mark that start(), join() and is_alive() look at. */
  predicate MarkedStarted(w: WorkerPc) { !w.Unstarted? && !w.Launched? && !w.Identified? }

  function ServeStep(s: State, a: ServeAction): Option<State> {
    match (s.serve, a)
    case (Loop, TestStop) => Some(s.(serve := if s.stop then Ended else Waiting))
    case (Waiting, Accept(r)) =>
      if r in s.workers then None
      else Some(s.(serve := Holding(r), workers := s.workers[r := Unstarted]))
    case (Waiting, ReturnIdle) => Some(s.(serve := Loop))
    case (Waiting, RaiseFromHandle(caught)) => Some(s.(serve := if caught && s.stop then Loop else Ended))
    case (Holding(r), Publish) =>
      if s.stop then Some(s.(serve := Refusing(r, Shutdown)))
      else Some(s.(serve := Starting(r), requests := s.requests + {r}, registered := s.registered + {r}))
    case (Refusing(r, c), ServeCall(o)) =>
      var c' := CloseNext(c, o);
      Some(AfterClose(s, r, c, o).(serve := if c'.Some? then Refusing(r, c'.value) else Loop))
    case (Starting(r), StartWorker(ok)) =>
      if r !in s.workers then None
      else if ok then Some(s.(serve := Awaiting(r), workers := s.workers[r := Launched]))
      else Some(s.(serve := Undoing(r, Shutdown)))
    case (Awaiting(r), StartReturns) =>
      if r in s.workers && MarkedStarted(s.workers[r]) then Some(s.(serve := Loop)) else None
    case (Undoing(r, c), ServeCall(o)) =>
      var c' := CloseNext(c, o);
      Some(AfterClose(s, r, c, o).(serve := if c'.Some? then Undoing(r, c'.value) else Unregistering(r)))
    case (Unregistering(r), Unregister(dies)) =>
      Some(s.(serve := if dies then Ended else Loop, requests := s.requests - {r}))
    case _ => None
  }

  /** The next program counter of a worker; leaving Relaying means calling channel.close(). */
  function WorkerNext(stop: bool, w: WorkerPc, a: WorkerAction): Option<WorkerPc> {
    if a.OpenChannel? then
      if w.Opening? then Some(if a.got then Relaying else Finally(Shutdown)) else None
    else
      match w
      case Launched => Some(Identified)
      case Identified => Some(Entered)
      case Entered => Some(if stop then Finally(Shutdown) else InHandler)
      case InHandler => Some(if stop then Finally(Shutdown) else Opening)
      case Relaying => Some(if a.o.Raises? then ChannelRaised(a.o.e) else Finally(Shutdown))
      case ChannelRaised(_) => Some(Finally(Shutdown))
      case Finally(c) =>
        var c' := CloseNext(c, a.o);
        Some(if c'.Some? then Finally(c'.value) else Popping)
      case Popping => Some(Exiting)
      case Exiting => Some(Finished)
      case _ => None
  }

  function WorkerStep(s: State, r: Sock, a: WorkerAction): Option<State> {
    if r !in s.workers then None else
    var w := s.workers[r];
    var w' := WorkerNext(s.stop, w, a);
    if w'.None? then None else
    var s1 := if w.Finally? then AfterClose(s, r, w.c, a.o) else s;
    Some(s1.(
      workers := s.workers[r := w'.value],
      requests := if w.Popping? then s.requests - {r} else s.requests,
      channels := if w'.value.Relaying? then s.channels + {r} else s.channels,
      channelClosed := if w.Relaying? then s.channelClosed + {r} else s.channelClosed,
      faulted := s1.faulted || w'.value.ChannelRaised?,
      cleanup := if w.ChannelRaised? then Record(s.cleanup, w.e) else s1.cleanup))
  }

  predicate IsOrderOf(order: seq<Sock>, socks: set<Sock>) {
    && |order| == |socks|
    && socks == set r | r in order
  }

  predicate HasIdent(s: State, r: Sock) { r in s.workers && !s.workers[r].Unstarted? && !s.workers[r].Launched? }

  predicate WorkerAlive(s: State, r: Sock) { r in s.workers && MarkedStarted(s.workers[r]) && !s.workers[r].Finished? }

  predicate ServerAlive(s: State) { !s.serve.Ended? }

  /** Start looking at thread `i`, or read the recorded error when all were looked at. */
  function VisitPc(s: State, i: nat, deadline: real): OwnerPc {
    if i == 0 then Sampling(i, deadline)
    else if i <= |s.snapshot| then IdentTest(i, deadline)
    else ReadingError
  }

  function NextRequestPc(s: State, i: nat): OwnerPc {
    if i < |s.snapshot| then ClosingRequests(i, Shutdown) else Stopped
  }

  /** The owner inside `request_stop`, after its critical section. */
  function StopStep(s: State, o: Call): Option<State> {
    match s.owner
    case ClosingListener =>
      Some(s.(owner := if o.Raises? then ListenerRaised(o.e) else NextRequestPc(s, 0),
              faulted := s.faulted || o.Raises?))
    case ListenerRaised(e) => Some(s.(owner := NextRequestPc(s, 0), cleanup := Record(s.cleanup, e)))
    case ClosingRequests(i, c) =>
      if i >= |s.snapshot| then None else
      var c' := CloseNext(c, o);
      Some(AfterClose(s, s.snapshot[i], c, o).(
        owner := if c'.Some? then ClosingRequests(i, c'.value) else NextRequestPc(s, i + 1)))
    case _ => None
  }

  predicate AliveAt(s: State, i: nat) {
    if i == 0 then ServerAlive(s) else Looking(s, i) && WorkerAlive(s, s.snapshot[i - 1])
  }

  predicate Looking(s: State, i: nat) { 0 < i <= |s.snapshot| }

  /**
   The next program counter inside `wait_stopped`; join() returns when the thread is dead or its timeout
   is over, not later, and raises when the thread is not marked started.
   */
  function WaitNext(s: State): Option<OwnerPc> {
    match s.owner
    case Stopped => Some(VisitPc(s, 0, s.now + 1.0))
    case IdentTest(i, d) =>
      if !Looking(s, i) then None
      else Some(if HasIdent(s, s.snapshot[i - 1]) then Sampling(i, d) else AliveTest(i, d))
    case Sampling(i, d) => Some(JoinReady(i, d, MaxReal(0.0, d - s.now)))
    case JoinReady(i, d, b) =>
      if i == 0 then Some(Joining(i, d, b, s.now))
      else if !Looking(s, i) || s.snapshot[i - 1] !in s.workers then None
      else Some(if MarkedStarted(s.workers[s.snapshot[i - 1]]) then Joining(i, d, b, s.now) else Returned(JoinRaised))
    case Joining(i, d, b, since) =>
      if s.now - since == b || (s.now - since < b && !AliveAt(s, i)) then Some(AliveTest(i, d)) else None
    case AliveTest(i, d) =>
      if i == 0 then Some(VisitPc(s, 1, d))
      else if !Looking(s, i) then None
      else Some(if WorkerAlive(s, s.snapshot[i - 1]) then VisitPc(s, i + 1, d) else IdentRetest(i, d))
    case IdentRetest(i, d) =>
      if !Looking(s, i) then None
      else Some(if HasIdent(s, s.snapshot[i - 1]) then VisitPc(s, i + 1, d) else ServerRetest(i, d))
    case ServerRetest(i, d) => if Looking(s, i) then Some(VisitPc(s, i + 1, d)) else None
    case ReadingError =>
      Some(Returned(if s.remaining != [] then Timeout
                    else if s.cleanup.Some? then CleanupFailed(s.cleanup.value) else Normal))
    case _ => None
  }

  /** The thread this step adds to the list of threads that did not stop. */
  function Unstopped(s: State): seq<Thread> {
    match s.owner
    case AliveTest(i, _) =>
      if i == 0 then if ServerAlive(s) then [Server] else []
      else if Looking(s, i) && WorkerAlive(s, s.snapshot[i - 1]) then [Worker(s.snapshot[i - 1])] else []
    case ServerRetest(i, _) => if Looking(s, i) && ServerAlive(s) then [Worker(s.snapshot[i - 1])] else []
    case _ => []
  }

  /** The owner inside `wait_stopped`: it only reads what the other threads write. */
  function WaitStep(s: State): Option<State> {
    var pc := WaitNext(s);
    if pc.None? then None
    else Some(s.(owner := pc.value,
                 remaining := s.remaining + Unstopped(s),
                 blocked := if s.owner.Joining? then s.blocked + (s.now - s.owner.since) else s.blocked))
  }

  /** The critical section of `request_stop`. */
  function SnapshotStep(s: State, order: seq<Sock>): Option<State> {
    if s.owner.Idle? && IsOrderOf(order, s.requests)
    then Some(s.(stop := true, snapshot := order, owner := ClosingListener)) else None
  }

  function Step(s: State, a: Action): Option<State> {
    match a
    case Serve(sa) => ServeStep(s, sa)
    case Work(r, wa) => WorkerStep(s, r, wa)
    case TakeSnapshot(order) => SnapshotStep(s, order)
    case StopCall(o) => StopStep(s, o)
    case WaitCall => WaitStep(s)
    case Tick(dt) => if dt >= 0.0 then Some(s.(now := s.now + dt)) else None
  }

  function Run(s: State, schedule: seq<Action>): Option<State>
    decreases |schedule|
  {
    if schedule == [] then Some(s)
    else
      var s1 := Step(s, schedule[0]);
      if s1.None? then None else Run(s1.value, schedule[1..])
  }

  // ---------------------------------------------------------------- invariant

  /** The serving thread owns this socket: nobody else will register or close it. */
  predicate HeldByServer(s: State, r: Sock) {
    (s.serve.Holding? || s.serve.Refusing?) && s.serve.r == r
  }

  /** The serving thread registered this socket and has not yet seen its worker start. */
  predicate BeingStarted(s: State, r: Sock) {
    (s.serve.Starting? || s.serve.Awaiting? || s.serve.Undoing? || s.serve.Unregistering?) && s.serve.r == r
  }

  ghost predicate ServerInv(s: State) {
    match s.serve
    case Holding(r) => r in s.workers && s.workers[r].Unstarted? && r !in s.requests
    case Refusing(r, c) => s.stop && r in s.workers && s.workers[r].Unstarted? && r !in s.requests
                           && (c.CloseRaised? ==> r in s.closed)
    case Starting(r) => r in s.workers && s.workers[r].Unstarted? && r in s.requests
    case Awaiting(r) => r in s.workers && !s.workers[r].Unstarted?
    case Undoing(r, c) => r in s.workers && s.workers[r].Unstarted? && r in s.requests
                          && (c.CloseRaised? ==> r in s.closed)
    case Unregistering(r) => r in s.workers && s.workers[r].Unstarted? && r in s.requests && r in s.closed
    case _ => true
  }

  /** What the position of worker `r` says about its socket and its channel. */
  ghost predicate WorkerInv(s: State, r: Sock)
    requires r in s.workers
  {
    && (r in s.channels && r !in s.channelClosed ==> s.workers[r].Relaying?)
    && (r in s.registered ==> r in s.requests || r in s.closed)
    && match s.workers[r]
       case Unstarted => if r in s.requests then BeingStarted(s, r) else HeldByServer(s, r) || r in s.closed
       case Launched => r in s.requests && s.serve == Awaiting(r)
       case Identified => r in s.requests && s.serve == Awaiting(r)
       case Exiting => r !in s.requests && r in s.closed
       case Finished => r !in s.requests && r in s.closed
       case Popping => r in s.requests && r in s.closed
       case Finally(c) => r in s.requests && (c.CloseRaised? ==> r in s.closed)
       case _ => r in s.requests
  }

  ghost predicate TableInv(s: State) {
    && s.requests <= s.workers.Keys
    && s.requests <= s.registered <= s.workers.Keys
    && s.channels <= s.workers.Keys
    && (s.owner.Idle? <==> !s.stop)
    && (s.stop ==> forall r :: r in s.requests ==> r in s.snapshot)
    && (forall r :: r in s.snapshot ==> r in s.registered)
  }

  /** How many snapshot sockets the stop loop has certainly tried to close. */
  ghost function ClosedUpTo(s: State): int {
    match s.owner
    case Idle => 0
    case ClosingListener => 0
    case ListenerRaised(_) => 0
    case ClosingRequests(i, c) => if c.CloseRaised? then i + 1 else i
    case _ => |s.snapshot|
  }

  ghost predicate StopLoopInv(s: State) {
    && ClosedUpTo(s) <= |s.snapshot|
    && (s.owner.ClosingRequests? ==> s.owner.i < |s.snapshot|)
    && forall j :: 0 <= j < ClosedUpTo(s) ==> s.snapshot[j] in s.closed
  }

  predicate PendingWorker(w: WorkerPc) { w.ChannelRaised? || (w.Finally? && PendingClose(w.c)) }

  /** A thread holds a cleanup error it has not recorded yet. */
  ghost predicate PendingError(s: State) {
    || ((s.serve.Refusing? || s.serve.Undoing?) && PendingClose(s.serve.c))
    || s.owner.ListenerRaised?
    || (s.owner.ClosingRequests? && PendingClose(s.owner.c))
    || exists r :: r in s.workers && PendingWorker(s.workers[r])
  }

  ghost predicate ErrorInv(s: State) {
    s.faulted <==> s.cleanup.Some? || PendingError(s)
  }

  /** How many threads wait_stopped has finished looking at (the serving thread counts as one). */
  ghost function Visited(s: State): int {
    match s.owner
    case IdentTest(i, _) => i
    case Sampling(i, _) => i
    case JoinReady(i, _, _) => i
    case Joining(i, _, _, _) => i
    case AliveTest(i, _) => i
    case IdentRetest(i, _) => i
    case ServerRetest(i, _) => i
    case ReadingError => |s.snapshot| + 1
    case Returned(_) => |s.snapshot| + 1
    case _ => 0
  }

  predicate CannotRun(s: State, r: Sock) {
    r in s.workers && (s.workers[r].Unstarted? || s.workers[r].Finished?)
  }

  ghost predicate VisitInv(s: State) {
    && Visited(s) <= |s.snapshot| + 1
    && (Visited(s) == 0 ==> s.remaining == [])
    && (s.remaining == [] && Visited(s) > 0 ==> s.serve.Ended?)
    && (s.remaining == [] ==> forall j :: 0 <= j < Visited(s) - 1 ==> CannotRun(s, s.snapshot[j]))
    && (s.remaining == [] && (s.owner.IdentRetest? || s.owner.ServerRetest?) ==>
          0 < s.owner.i <= |s.snapshot| && CannotRun(s, s.snapshot[s.owner.i - 1]))
    && ((s.owner.Sampling? || s.owner.JoinReady?) && s.owner.i > 0 ==>
          s.owner.i <= |s.snapshot| && HasIdent(s, s.snapshot[s.owner.i - 1]))
  }

  ghost predicate WaitInv(s: State) {
    VisitInv(s) && (s.owner.Returned? && s.owner.r.Normal? ==> s.remaining == [] && !s.faulted)
  }

  ghost predicate ClockInv(s: State) {
    && 0.0 <= s.blocked <= 1.0
    && match s.owner
       case IdentTest(_, d) => s.blocked <= s.now - (d - 1.0)
       case Sampling(_, d) => s.blocked <= s.now - (d - 1.0)
       case JoinReady(_, d, b) => s.blocked <= s.now - (d - 1.0) && b >= 0.0 && s.blocked + b <= 1.0
       case Joining(_, d, b, t) => s.blocked <= t - (d - 1.0) && t <= s.now && s.blocked + b <= 1.0
       case AliveTest(_, d) => s.blocked <= s.now - (d - 1.0)
       case IdentRetest(_, d) => s.blocked <= s.now - (d - 1.0)
       case ServerRetest(_, d) => s.blocked <= s.now - (d - 1.0)
       case ReadingError => true
       case Returned(_) => true
       case _ => s.blocked == 0.0
  }

  ghost predicate Inv(s: State) {
    && ServerInv(s)
    && TableInv(s)
    && (forall r :: r in s.workers ==> WorkerInv(s, r))
    && StopLoopInv(s)
    && ErrorInv(s)
    && WaitInv(s)
    && ClockInv(s)
  }

  // ---------------------------------------------------------------- the serving thread keeps it

  /** What a step of the serving thread may touch: only the worker it holds or starts, and no other socket. */
  ghost predicate ServeFrame(s: State, s': State) {
    && s'.owner == s.owner && s'.snapshot == s.snapshot && s'.stop == s.stop && s'.remaining == s.remaining
    && s'.now == s.now && s'.blocked == s.blocked && s'.channels == s.channels && s'.channelClosed == s.channelClosed
    && s.workers.Keys <= s'.workers.Keys && s.closed <= s'.closed
    && (s.serve.Ended? ==> s' == s)
    && forall q :: q in s.workers && !HeldByServer(s, q) && !BeingStarted(s, q) ==>
         && s'.workers[q] == s.workers[q]
         && !HeldByServer(s', q) && !BeingStarted(s', q)
         && (q in s'.requests <==> q in s.requests) && (q in s'.registered <==> q in s.registered)
  }

  lemma ServeStaysInFrame(s: State, a: ServeAction)
    requires ServerInv(s) && ServeStep(s, a).Some?
    ensures ServeFrame(s, ServeStep(s, a).value)
  {
  }

  lemma ServeKeepsServerInv(s: State, a: ServeAction)
    requires ServerInv(s) && TableInv(s) && ServeStep(s, a).Some?
    ensures ServerInv(ServeStep(s, a).value) && TableInv(ServeStep(s, a).value)
  {
  }

  lemma ServeKeepsOtherWorker(s: State, a: ServeAction, q: Sock)
    requires ServerInv(s) && ServeStep(s, a).Some?
    requires q in s.workers && WorkerInv(s, q) && !HeldByServer(s, q) && !BeingStarted(s, q)
    ensures WorkerInv(ServeStep(s, a).value, q)
  {
    ServeStaysInFrame(s, a);
  }

  lemma ServeKeepsOwnWorker(s: State, a: ServeAction, q: Sock)
    requires ServerInv(s) && TableInv(s) && ServeStep(s, a).Some? && q in ServeStep(s, a).value.workers
    requires q in s.workers ==> WorkerInv(s, q) && (HeldByServer(s, q) || BeingStarted(s, q))
    ensures WorkerInv(ServeStep(s, a).value, q)
  {
  }

  lemma ServeKeepsWorkerInv(s: State, a: ServeAction, q: Sock)
    requires ServerInv(s) && TableInv(s) && ServeStep(s, a).Some? && q in ServeStep(s, a).value.workers
    requires q in s.workers ==> WorkerInv(s, q)
    ensures WorkerInv(ServeStep(s, a).value, q)
  {
    if q in s.workers && !HeldByServer(s, q) && !BeingStarted(s, q) {
      ServeKeepsOtherWorker(s, a, q);
    } else {
      ServeKeepsOwnWorker(s, a, q);
    }
  }

  lemma ServeKeepsErrorInv(s: State, a: ServeAction)
    requires Inv(s) && ServeStep(s, a).Some?
    ensures ErrorInv(ServeStep(s, a).value)
  {
    var s' := ServeStep(s, a).value;
    ServeStaysInFrame(s, a);
    forall q | q in s.workers && PendingWorker(s.workers[q]) ensures PendingWorker(s'.workers[q]) {
      assert WorkerInv(s, q);
    }
  }

  lemma ServeKeepsRest(s: State, a: ServeAction)
    requires Inv(s) && ServeStep(s, a).Some?
    ensures StopLoopInv(ServeStep(s, a).value) && WaitInv(ServeStep(s, a).value) && ClockInv(ServeStep(s, a).value)
  {
    ServeStaysInFrame(s, a);
  }

  lemma ServeKeepsInv(s: State, a: ServeAction)
    requires Inv(s) && ServeStep(s, a).Some?
    ensures Inv(ServeStep(s, a).value)
  {
    var s' := ServeStep(s, a).value;
    ServeKeepsServerInv(s, a);
    ServeKeepsErrorInv(s, a);
    ServeKeepsRest(s, a);
    forall q | q in s'.workers ensures WorkerInv(s', q) { ServeKeepsWorkerInv(s, a, q); }
  }

  // ---------------------------------------------------------------- a worker keeps it

  /** What a step of worker `r` may touch: only its own entry and its own socket. */
  ghost predicate WorkerFrame(s: State, s': State, r: Sock) {
    && s'.serve == s.serve && s'.owner == s.owner && s'.snapshot == s.snapshot && s'.stop == s.stop
    && s'.remaining == s.remaining && s'.now == s.now && s'.blocked == s.blocked && s'.registered == s.registered
    && r in s.workers && s'.workers.Keys == s.workers.Keys && !CannotRun(s, r) && HasIdent(s', r)
    && (forall q :: q in s.workers && q != r ==> s'.workers[q] == s.workers[q])
    && (forall q :: q != r ==>
          && (q in s'.requests <==> q in s.requests) && (q in s'.closed <==> q in s.closed)
          && (q in s'.channels <==> q in s.channels) && (q in s'.channelClosed <==> q in s.channelClosed))
    && s'.requests <= s.requests && s.closed <= s'.closed
    && (s'.faulted != s.faulted ==> !s.workers[r].Exiting?)
  }

  lemma WorkerStaysInFrame(s: State, r: Sock, a: WorkerAction)
    requires WorkerStep(s, r, a).Some?
    ensures WorkerFrame(s, WorkerStep(s, r, a).value, r)
  {
  }

  lemma WorkerKeepsOwnInv(s: State, r: Sock, a: WorkerAction)
    requires r in s.workers && WorkerInv(s, r) && WorkerStep(s, r, a).Some?
    ensures WorkerInv(WorkerStep(s, r, a).value, r)
  {
  }

  lemma FrameKeepsOtherWorkers(s: State, s': State, r: Sock, q: Sock)
    requires WorkerFrame(s, s', r) && q in s.workers && q != r && WorkerInv(s, q)
    ensures WorkerInv(s', q)
  {
  }

  lemma FrameKeepsTables(s: State, s': State, r: Sock)
    requires Inv(s) && WorkerFrame(s, s', r) && s'.channels <= s.channels + {r}
    ensures ServerInv(s') && TableInv(s') && StopLoopInv(s') && ClockInv(s')
  {
    assert WorkerInv(s, r);
  }

  lemma FrameKeepsWaitInv(s: State, s': State, r: Sock)
    requires Inv(s) && WorkerFrame(s, s', r)
    ensures WaitInv(s')
  {
    assert WorkerInv(s, r);
    if s.owner.Returned? && s.owner.r.Normal? {
      // every snapshot worker is past running, so a worker that can still step left the table long ago
      forall j | 0 <= j < |s.snapshot| ensures s.snapshot[j] != r { assert CannotRun(s, s.snapshot[j]); }
      assert s.workers[r].Exiting?;
    }
  }

  lemma WorkerKeepsErrorInv(s: State, r: Sock, a: WorkerAction)
    requires Inv(s) && WorkerStep(s, r, a).Some?
    ensures ErrorInv(WorkerStep(s, r, a).value)
  {
    var s' := WorkerStep(s, r, a).value;
    WorkerStaysInFrame(s, r, a);
    forall q | q in s.workers && PendingWorker(s.workers[q]) && q != r ensures PendingWorker(s'.workers[q]) {}
    forall q | q in s'.workers && PendingWorker(s'.workers[q]) && q != r ensures PendingWorker(s.workers[q]) {}
    if PendingWorker(s.workers[r]) {
      assert s'.cleanup.Some?;
    } else if s'.faulted != s.faulted {
      assert PendingWorker(s'.workers[r]);
    }
  }

  lemma WorkerKeepsInv(s: State, r: Sock, a: WorkerAction)
    requires Inv(s) && WorkerStep(s, r, a).Some?
    ensures Inv(WorkerStep(s, r, a).value)
  {
    var s' := WorkerStep(s, r, a).value;
    WorkerStaysInFrame(s, r, a);
    FrameKeepsTables(s, s', r);
    FrameKeepsWaitInv(s, s', r);
    WorkerKeepsErrorInv(s, r, a);
    forall q | q in s'.workers ensures WorkerInv(s', q) {
      if q == r { WorkerKeepsOwnInv(s, r, a); } else { FrameKeepsOtherWorkers(s, s', r, q); }
    }
  }

  // ---------------------------------------------------------------- the owner keeps it

  lemma SnapshotKeepsInv(s: State, order: seq<Sock>)
    requires Inv(s) && SnapshotStep(s, order).Some?
    ensures Inv(SnapshotStep(s, order).value)
  {
    var s' := SnapshotStep(s, order).value;
    forall q | q in s'.workers ensures WorkerInv(s', q) { assert WorkerInv(s, q); }
  }

  lemma StopKeepsErrorInv(s: State, o: Call)
    requires Inv(s) && StopStep(s, o).Some?
    ensures ErrorInv(StopStep(s, o).value)
  {
  }

  lemma StopKeepsTables(s: State, o: Call)
    requires ServerInv(s) && TableInv(s) && StopLoopInv(s) && ClockInv(s) && StopStep(s, o).Some?
    ensures ServerInv(StopStep(s, o).value) && TableInv(StopStep(s, o).value)
    ensures StopLoopInv(StopStep(s, o).value) && ClockInv(StopStep(s, o).value)
  {
  }

  lemma StopKeepsWorkerInv(s: State, o: Call, q: Sock)
    requires q in s.workers && WorkerInv(s, q) && StopStep(s, o).Some?
    ensures WorkerInv(StopStep(s, o).value, q)
  {
  }

  lemma StopKeepsInv(s: State, o: Call)
    requires Inv(s) && StopStep(s, o).Some?
    ensures Inv(StopStep(s, o).value)
  {
    var s' := StopStep(s, o).value;
    StopKeepsErrorInv(s, o);
    StopKeepsTables(s, o);
    forall q | q in s'.workers ensures WorkerInv(s', q) { StopKeepsWorkerInv(s, o, q); }
  }

  lemma WaitKeepsVisitInv(s: State)
    requires VisitInv(s) && WaitStep(s).Some?
    // a worker between launch and mark keeps the serving thread in start()
    requires forall r :: r in s.snapshot ==>
               && r in s.workers
               && ((s.workers[r].Launched? || s.workers[r].Identified?) ==> !s.serve.Ended?)
    ensures VisitInv(WaitStep(s).value)
  {
    if 0 < Visited(s) <= |s.snapshot| { assert s.snapshot[Visited(s) - 1] in s.snapshot; }
  }

  lemma WaitKeepsWaitInv(s: State)
    requires Inv(s) && WaitStep(s).Some?
    ensures WaitInv(WaitStep(s).value)
  {
    forall r | r in s.snapshot
      ensures r in s.workers && ((s.workers[r].Launched? || s.workers[r].Identified?) ==> !s.serve.Ended?)
    {
      assert r in s.registered;
      assert WorkerInv(s, r);
    }
    WaitKeepsVisitInv(s);
  }

  lemma WaitKeepsClockInv(s: State)
    requires Inv(s) && WaitStep(s).Some?
    ensures ClockInv(WaitStep(s).value)
  {
  }

  lemma WaitKeepsInv(s: State)
    requires Inv(s) && WaitStep(s).Some?
    ensures Inv(WaitStep(s).value)
  {
    var s' := WaitStep(s).value;
    forall q | q in s'.workers ensures WorkerInv(s', q) { assert WorkerInv(s, q); }
    WaitKeepsWaitInv(s);
    WaitKeepsClockInv(s);
  }

  // ---------------------------------------------------------------- every run

  lemma StepKeepsInv(s: State, a: Action)
    requires Inv(s) && Step(s, a).Some?
    ensures Inv(Step(s, a).value)
  {
    match a
    case Serve(sa) => ServeKeepsInv(s, sa);
    case Work(r, wa) => WorkerKeepsInv(s, r, wa);
    case TakeSnapshot(order) => SnapshotKeepsInv(s, order);
    case StopCall(o) => StopKeepsInv(s, o);
    case WaitCall => WaitKeepsInv(s);
    case Tick(dt) =>
      forall q | q in s.workers ensures WorkerInv(Step(s, a).value, q) { assert WorkerInv(s, q); }
  }

  lemma {:induction false} RunKeepsInv(s: State, schedule: seq<Action>)
    requires Inv(s) && Run(s, schedule).Some?
    ensures Inv(Run(s, schedule).value)
    decreases |schedule|
  {
    if schedule == [] {
    } else {
      StepKeepsInv(s, schedule[0]);
      RunKeepsInv(Step(s, schedule[0]).value, schedule[1..]);
    }
  }

  ghost predicate Reachable(s: State) {
    exists s0: State, schedule: seq<Action> :: Init(s0) && Run(s0, schedule) == Some(s)
  }

  lemma ReachableInv(s: State)
    requires Reachable(s)
    ensures Inv(s)
  {
    var s0: State, schedule: seq<Action> :| Init(s0) && Run(s0, schedule) == Some(s);
    RunKeepsInv(s0, schedule);
  }

  // ---------------------------------------------------------------- main results

  /**
   In every reachable state an accepted socket was closed, is in the table, or is held by the
   serving thread on its way to one of the two; a socket is never in transit and in the table.
   */
  lemma EverySocketIsOwned(s: State, r: Sock)
    requires Reachable(s) && r in s.workers
    ensures r in s.closed || r in s.requests || HeldByServer(s, r)
    ensures !(r in s.requests && HeldByServer(s, r))
    ensures r in s.requests ==> BeingStarted(s, r) || WorkerAlive(s, r)
  {
    ReachableInv(s);
    assert WorkerInv(s, r);
  }

  lemma ServeRegistersNothing(s: State, a: ServeAction)
    requires s.stop && ServeStep(s, a).Some?
    ensures var s' := ServeStep(s, a).value;
            s'.stop && s'.snapshot == s.snapshot && s'.registered == s.registered && s'.requests <= s.requests
  {
  }

  /** Once the stop flag is up no step registers a socket, and the snapshot covers the table. */
  lemma NothingRegisteredAfterStop(s: State, a: Action)
    requires Reachable(s) && s.stop && Step(s, a).Some?
    ensures Step(s, a).value.stop && Step(s, a).value.snapshot == s.snapshot
    ensures Step(s, a).value.registered == s.registered
    ensures Step(s, a).value.requests <= s.requests <= set r | r in s.snapshot
  {
    ReachableInv(s);
    match a
    case Serve(sa) => ServeRegistersNothing(s, sa);
    case Work(r, wa) => WorkerStaysInFrame(s, r, wa);
    case _ =>
  }

  /** A table entry disappears only after close() was attempted on its socket. */
  lemma RemovedOnlyAfterClose(s: State, a: Action, r: Sock)
    requires Reachable(s) && Step(s, a).Some?
    requires r in s.requests && r !in Step(s, a).value.requests
    ensures r in s.closed
  {
    ReachableInv(s);
    assert WorkerInv(s, r);
  }

  /** The owner has run the stop loop of `request_stop` to its end. */
  predicate StopLoopDone(s: State) {
    s.stop && !s.owner.ClosingListener? && !s.owner.ListenerRaised? && !s.owner.ClosingRequests?
  }

  /**
   After the stop loop every accepted socket has been closed, except at most the one in transit,
   which the serving thread will refuse; this needs no worker to make progress.
   */
  lemma StopClosesEverySocket(s: State, r: Sock)
    requires Reachable(s) && StopLoopDone(s) && r in s.workers
    ensures r in s.closed || HeldByServer(s, r)
    ensures !ServerAlive(s) ==> r in s.closed
  {
    ReachableInv(s);
    assert WorkerInv(s, r);
    if r in s.requests {
      var j :| 0 <= j < |s.snapshot| && s.snapshot[j] == r;
      assert s.snapshot[j] in s.closed;
    }
  }

  /** No thread can touch the shared state any more. */
  ghost predicate Settled(s: State) {
    && !ServerAlive(s)
    && (forall r :: r in s.snapshot ==> CannotRun(s, r))
    && (forall r :: r in s.workers ==> r in s.closed && (CannotRun(s, r) || s.workers[r].Exiting?))
    && (forall r :: r in s.channels ==> r in s.channelClosed)
    && s.requests == {} && !s.faulted && s.cleanup == None
  }

  /**
   A normal return of `wait_stopped` certifies that the serving thread is dead, that every
   snapshotted worker is dead or can never start, that every accepted socket and every channel
   has had its close attempted, and that no cleanup call ever raised.
   */
  lemma NormalReturnMeansQuiet(s: State)
    requires Reachable(s) && s.owner == Returned(Normal)
    ensures Settled(s)
  {
    ReachableInv(s);
    forall r | r in s.snapshot ensures CannotRun(s, r) {
      var j :| 0 <= j < |s.snapshot| && s.snapshot[j] == r;
      assert CannotRun(s, s.snapshot[j]);
    }
    forall r | r in s.workers ensures r !in s.requests { assert WorkerInv(s, r); }
    forall r | r in s.workers ensures r in s.closed && (CannotRun(s, r) || s.workers[r].Exiting?) {
      assert WorkerInv(s, r);
    }
    forall r | r in s.channels ensures r in s.channelClosed { assert WorkerInv(s, r); }
  }

  /** Nothing that runs later can undo that: the certificate holds in every continuation. */
  lemma {:induction false} QuietForever(s: State, schedule: seq<Action>)
    requires Settled(s) && s.owner == Returned(Normal) && Run(s, schedule).Some?
    ensures Settled(Run(s, schedule).value)
    ensures Run(s, schedule).value.workers.Keys == s.workers.Keys
    decreases |schedule|
  {
    if schedule == [] {
    } else {
      var s1 := Step(s, schedule[0]).value;
      assert Settled(s1) && s1.owner == Returned(Normal) && s1.workers.Keys == s.workers.Keys;
      QuietForever(s1, schedule[1..]);
    }
  }

  /** Conversely, while the serving thread or a snapshotted worker can still act, the wait ends in a timeout. */
  lemma AliveThreadIsReported(s: State, r: Sock)
    requires Reachable(s) && s.owner.ReadingError?
    requires ServerAlive(s) || (r in s.snapshot && !CannotRun(s, r))
    ensures Step(s, WaitCall).Some? && Step(s, WaitCall).value.owner == Returned(Timeout)
  {
    ReachableInv(s);
    if r in s.snapshot {
      var j :| 0 <= j < |s.snapshot| && s.snapshot[j] == r;
    }
  }

  /**
   The one way around that: join() itself raises. It does so exactly when the worker has an ident and is
   not marked started; then the serving thread is still in the start() of that worker, and was already
   found alive.
   */
  lemma JoinRaisesOnlyDuringStart(s: State, i: nat)
    requires Reachable(s) && s.owner.JoinReady? && s.owner.i == i && 0 < i <= |s.snapshot|
    ensures var r := s.snapshot[i - 1];
            && r in s.workers && Step(s, WaitCall).Some?
            && (Step(s, WaitCall).value.owner == Returned(JoinRaised) <==> !MarkedStarted(s.workers[r]))
            && (!MarkedStarted(s.workers[r]) ==>
                  s.workers[r].Identified? && s.serve == Awaiting(r) && s.remaining != [])
  {
    ReachableInv(s);
    var r := s.snapshot[i - 1];
    assert r in s.registered;
    assert WorkerInv(s, r);
  }

  /** Nothing that is waited for can act any more, and nothing was found alive. */
  ghost predicate NothingToWaitFor(s: State) {
    s.serve.Ended? && s.remaining == [] && forall r :: r in s.snapshot ==> CannotRun(s, r)
  }

  /** What `wait_stopped` answers when nothing is left to wait for. */
  function QuietAnswer(cleanup: Option<Error>): WaitResult {
    if cleanup.Some? then CleanupFailed(cleanup.value) else Normal
  }

  /** The wait is under way or ended as it should. */
  ghost predicate WaitsQuietly(s: State, cleanup: Option<Error>) {
    && NothingToWaitFor(s) && s.cleanup == cleanup && s.stop
    && !s.owner.Idle? && !s.owner.ClosingListener? && !s.owner.ListenerRaised? && !s.owner.ClosingRequests?
    && (s.owner.Returned? ==> s.owner.r == QuietAnswer(cleanup))
  }

  lemma QuietServerStays(s: State, a: ServeAction)
    requires s.serve.Ended?
    ensures ServeStep(s, a).None?
  {
  }

  /** A worker that still has a step to do has left the table, and touches nothing. */
  lemma QuietWorkerTouchesNothing(s: State, r: Sock, a: WorkerAction)
    requires Inv(s) && NothingToWaitFor(s) && s.stop && WorkerStep(s, r, a).Some?
    ensures var s' := WorkerStep(s, r, a).value;
            && s'.cleanup == s.cleanup && s'.owner == s.owner && s'.remaining == s.remaining && s'.serve == s.serve
            && s'.snapshot == s.snapshot && s'.stop == s.stop
            && forall q :: q in s.snapshot ==> CannotRun(s', q)
  {
    WorkerStaysInFrame(s, r, a);
    assert WorkerInv(s, r);
    assert r !in s.snapshot;
    assert s.workers[r].Exiting?;
  }

  lemma QuietOwnerGoesOn(s: State)
    requires Inv(s) && WaitsQuietly(s, s.cleanup) && WaitStep(s).Some?
    ensures WaitsQuietly(WaitStep(s).value, s.cleanup)
  {
    var i := Visited(s);
    if 0 < i <= |s.snapshot| {
      assert s.snapshot[i - 1] in s.snapshot;
      assert !WorkerAlive(s, s.snapshot[i - 1]);
    }
    assert Unstopped(s) == [];
  }

  lemma QuietStep(s: State, a: Action)
    requires Inv(s) && WaitsQuietly(s, s.cleanup) && Step(s, a).Some?
    ensures WaitsQuietly(Step(s, a).value, s.cleanup)
  {
    match a
    case Serve(sa) => QuietServerStays(s, sa);
    case Work(r, wa) => QuietWorkerTouchesNothing(s, r, wa);
    case WaitCall => QuietOwnerGoesOn(s);
    case _ =>
  }

  lemma {:induction false} QuietRun(s: State, schedule: seq<Action>)
    requires Inv(s) && WaitsQuietly(s, s.cleanup) && Run(s, schedule).Some?
    ensures WaitsQuietly(Run(s, schedule).value, s.cleanup)
    decreases |schedule|
  {
    if schedule != [] {
      StepKeepsInv(s, schedule[0]);
      QuietStep(s, schedule[0]);
      QuietRun(Step(s, schedule[0]).value, schedule[1..]);
    }
  }

  /**
   `wait_stopped` does not time out without reason: when the serving thread is dead and no snapshotted
   worker can run when it is called, every run in which it returns ends normally, or with the cleanup
   error that was recorded.
   */
  lemma {:induction false} DeadThreadsAreNotReported(s: State, schedule: seq<Action>)
    requires Reachable(s) && s.owner.Stopped? && !ServerAlive(s)
    requires forall r :: r in s.snapshot ==> CannotRun(s, r)
    requires Run(s, schedule).Some? && Run(s, schedule).value.owner.Returned?
    ensures Run(s, schedule).value.owner.r ==
            if s.cleanup.Some? then CleanupFailed(s.cleanup.value) else Normal
  {
    ReachableInv(s);
    QuietRun(s, schedule);
  }

  // ---------------------------------------------------------------- after the stop flag

  /** The worker has not got to the point where it would open a channel. */
  predicate BeforeChannel(w: WorkerPc) {
    w.Unstarted? || w.Launched? || w.Identified? || w.Entered? || w.InHandler?
  }

  ghost predicate NoChannel(s: State, r: Sock) {
    s.stop && r in s.workers && r !in s.channels && !s.workers[r].Opening? && !s.workers[r].Relaying?
  }

  lemma NoChannelServe(s: State, a: ServeAction, r: Sock)
    requires NoChannel(s, r) && ServeStep(s, a).Some?
    ensures NoChannel(ServeStep(s, a).value, r)
  {
  }

  lemma NoChannelStep(s: State, a: Action, r: Sock)
    requires NoChannel(s, r) && Step(s, a).Some?
    ensures NoChannel(Step(s, a).value, r)
  {
    match a
    case Serve(sa) => NoChannelServe(s, sa, r);
    case Work(q, wa) => WorkerStaysInFrame(s, q, wa);
    case _ =>
  }

  /** A worker that sees the stop flag before it opens its channel never opens one. */
  lemma {:induction false} StoppedWorkersOpenNoChannel(s: State, schedule: seq<Action>, r: Sock)
    requires s.stop && r in s.workers && BeforeChannel(s.workers[r]) && r !in s.channels
    requires Run(s, schedule).Some?
    ensures r !in Run(s, schedule).value.channels
  {
    NoChannelRun(s, schedule, r);
  }

  lemma {:induction false} NoChannelRun(s: State, schedule: seq<Action>, r: Sock)
    requires NoChannel(s, r) && Run(s, schedule).Some?
    ensures r !in Run(s, schedule).value.channels
    decreases |schedule|
  {
    if schedule != [] {
      NoChannelStep(s, schedule[0], r);
      NoChannelRun(Step(s, schedule[0]).value, schedule[1..], r);
    }
  }

  function CloseSteps(c: ClosePc): nat {
    match c
    case Shutdown => 4
    case ShutdownRaised(_) => 3
    case Close => 2
    case CloseRaised(_) => 1
  }

  /** How many steps a stopped serving thread has left, at most. */
  function ServeSteps(p: ServePc): nat {
    match p
    case Ended => 0
    case Loop => 1
    case Refusing(_, c) => 1 + CloseSteps(c)
    case Holding(_) => 6
    case Waiting => 7
    case Awaiting(_) => 2
    case Unregistering(_) => 2
    case Undoing(_, c) => 2 + CloseSteps(c)
    case Starting(_) => 7
  }

  function WorkerSteps(w: WorkerPc): nat {
    match w
    case Finished => 0
    case Exiting => 1
    case Popping => 2
    case Finally(c) => 2 + CloseSteps(c)
    case ChannelRaised(_) => 7
    case Relaying => 8
    case Opening => 9
    case InHandler => 10
    case Entered => 11
    case Identified => 12
    case Launched => 13
    case Unstarted => 14
  }

  /** After the stop flag every step of the serving thread brings its end nearer: it has at most 7 left. */
  lemma ServingThreadEnds(s: State, a: ServeAction)
    requires s.stop && ServeStep(s, a).Some?
    ensures ServeSteps(ServeStep(s, a).value.serve) < ServeSteps(s.serve) <= 7
  {
  }

  /** Every step of a worker brings its end nearer, and no other thread sets it back. */
  lemma WorkersEnd(s: State, a: Action, r: Sock)
    requires ServerInv(s) && Step(s, a).Some? && r in s.workers
    ensures var s' := Step(s, a).value;
            && r in s'.workers && WorkerSteps(s'.workers[r]) <= WorkerSteps(s.workers[r]) <= 14
            && (a.Work? && a.r == r ==> WorkerSteps(s'.workers[r]) < WorkerSteps(s.workers[r]))
  {
    match a
    case Serve(sa) => if !HeldByServer(s, r) && !BeingStarted(s, r) { ServeStaysInFrame(s, sa); }
    case Work(q, wa) => WorkerStaysInFrame(s, q, wa);
    case _ =>
  }

  /** However many workers there are, `wait_stopped` spends at most one second inside join(). */
  lemma JoinsTakeAtMostOneSecond(s: State)
    requires Reachable(s)
    ensures s.blocked <= 1.0
  {
    ReachableInv(s);
  }

  /** How long the serving thread has been waited for by a call made at `called`. */
  ghost predicate GivenASecond(s: State, called: real) {
    && called <= s.now
    && (Server in s.remaining ==> called + 1.0 <= s.now)
    && match s.owner
       case Sampling(i, d) => i == 0 ==> called + 1.0 <= d
       case JoinReady(i, d, b) => i == 0 ==> called + 1.0 <= s.now + b
       case Joining(i, d, b, since) => i == 0 ==> called + 1.0 <= since + b
       case AliveTest(i, d) => i == 0 && ServerAlive(s) ==> called + 1.0 <= s.now
       case _ => true
  }

  lemma GivenASecondServe(s: State, a: ServeAction, called: real)
    requires GivenASecond(s, called) && ServeStep(s, a).Some?
    ensures GivenASecond(ServeStep(s, a).value, called)
  {
    if s.serve.Ended? { QuietServerStays(s, a); }
  }

  lemma GivenASecondWait(s: State, called: real)
    requires GivenASecond(s, called) && WaitStep(s).Some?
    ensures GivenASecond(WaitStep(s).value, called) && !WaitStep(s).value.owner.Idle?
  {
  }

  lemma GivenASecondStep(s: State, a: Action, called: real)
    requires GivenASecond(s, called) && !s.owner.Idle? && Step(s, a).Some?
    ensures GivenASecond(Step(s, a).value, called) && !Step(s, a).value.owner.Idle?
  {
    match a
    case Serve(sa) => GivenASecondServe(s, sa, called);
    case Work(r, wa) => WorkerStaysInFrame(s, r, wa);
    case WaitCall => GivenASecondWait(s, called);
    case _ =>
  }

  lemma {:induction false} GivenASecondRun(s: State, schedule: seq<Action>, called: real)
    requires GivenASecond(s, called) && !s.owner.Idle? && Run(s, schedule).Some?
    ensures GivenASecond(Run(s, schedule).value, called)
    decreases |schedule|
  {
    if schedule != [] {
      GivenASecondStep(s, schedule[0], called);
      GivenASecondRun(Step(s, schedule[0]).value, schedule[1..], called);
    }
  }

  /** The serving thread is found alive only when a whole second has passed since `wait_stopped` was called. */
  lemma {:induction false} ServerIsGivenASecond(s: State, schedule: seq<Action>)
    requires Reachable(s) && s.owner.Stopped? && Run(s, schedule).Some?
    requires Server in Run(s, schedule).value.remaining
    ensures s.now + 1.0 <= Run(s, schedule).value.now
  {
    ReachableInv(s);
    GivenASecondRun(s, schedule, s.now);
  }

  /** How many steps the owner has left, with `n` sockets in its snapshot. */
  function OwnerSteps(o: OwnerPc, n: nat): int {
    match o
    case Idle => 12 * n + 24
    case ClosingListener => 12 * n + 22
    case ListenerRaised(_) => 12 * n + 21
    case ClosingRequests(i, c) => 12 * n - 4 * i + 12 + CloseSteps(c)
    case Stopped => 8 * n + 12
    case IdentTest(i, _) => 8 * (n - i) + 10
    case Sampling(i, _) => 8 * (n - i) + 9
    case JoinReady(i, _, _) => 8 * (n - i) + 8
    case Joining(i, _, _, _) => 8 * (n - i) + 7
    case AliveTest(i, _) => 8 * (n - i) + 6
    case IdentRetest(i, _) => 8 * (n - i) + 5
    case ServerRetest(i, _) => 8 * (n - i) + 4
    case ReadingError => 1
    case Returned(_) => 0
  }

  /** The thread the owner looks at exists. */
  predicate InBounds(s: State) {
    && (s.owner.ClosingRequests? ==> s.owner.i < |s.snapshot|)
    && ((s.owner.Sampling? || s.owner.JoinReady? || s.owner.Joining? || s.owner.AliveTest?) ==>
          s.owner.i <= |s.snapshot|)
    && ((s.owner.IdentTest? || s.owner.IdentRetest? || s.owner.ServerRetest?) ==> Looking(s, s.owner.i))
  }

  lemma InBoundsWait(s: State)
    requires InBounds(s) && WaitStep(s).Some?
    ensures InBounds(WaitStep(s).value)
  {
  }

  lemma InBoundsStep(s: State, a: Action)
    requires InBounds(s) && Step(s, a).Some?
    ensures InBounds(Step(s, a).value)
  {
    if a == WaitCall { InBoundsWait(s); }
  }

  lemma {:induction false} InBoundsRun(s: State, schedule: seq<Action>)
    requires InBounds(s) && Run(s, schedule).Some?
    ensures InBounds(Run(s, schedule).value)
    decreases |schedule|
  {
    if schedule != [] {
      InBoundsStep(s, schedule[0]);
      InBoundsRun(Step(s, schedule[0]).value, schedule[1..]);
    }
  }

  lemma ReachableInBounds(s: State)
    requires Reachable(s)
    ensures InBounds(s)
  {
    var s0: State, schedule: seq<Action> :| Init(s0) && Run(s0, schedule) == Some(s);
    InBoundsRun(s0, schedule);
  }

  /**
   The owner never waits for ever: until it returns it has a next step, for any cleanup call that it
   makes, unless a join() is over its time; and each of its steps brings the return nearer.
   */
  lemma OwnerGoesOn(s: State, o: Call)
    requires Reachable(s) && !s.owner.Idle? && !s.owner.Returned?
    requires s.owner.Joining? ==> s.now == s.owner.since + s.owner.budget
    ensures Step(s, StopCall(o)).Some? || Step(s, WaitCall).Some?
  {
    ReachableInv(s);
    ReachableInBounds(s);
    if s.owner.JoinReady? && s.owner.i > 0 {
      assert s.snapshot[s.owner.i - 1] in s.snapshot;
    }
  }

  lemma StopStepsFall(s: State, o: Call)
    requires InBounds(s) && StopStep(s, o).Some?
    ensures 0 <= OwnerSteps(StopStep(s, o).value.owner, |s.snapshot|) < OwnerSteps(s.owner, |s.snapshot|)
  {
  }

  lemma WaitStepsFall(s: State)
    requires InBounds(s) && WaitStep(s).Some?
    ensures 0 <= OwnerSteps(WaitStep(s).value.owner, |s.snapshot|) < OwnerSteps(s.owner, |s.snapshot|)
  {
  }

  lemma OwnerEnds(s: State, a: Action)
    requires Reachable(s) && Step(s, a).Some? && (a.StopCall? || a.WaitCall?)
    ensures var s' := Step(s, a).value;
            && s'.snapshot == s.snapshot
            && 0 <= OwnerSteps(s'.owner, |s.snapshot|) < OwnerSteps(s.owner, |s.snapshot|)
  {
    ReachableInBounds(s);
    if a.StopCall? { StopStepsFall(s, a.o); } else { WaitStepsFall(s); }
  }

  // ---------------------------------------------------------------- shutdown comes before close

  /** Past its first step `_close_socket` has tried shutdown(). */
  predicate ShutBy(s: State, r: Sock, c: ClosePc) { c.Shutdown? || r in s.shut }

  ghost predicate ShutInv(s: State) {
    && s.closed <= s.shut
    && ((s.serve.Refusing? || s.serve.Undoing?) ==> ShutBy(s, s.serve.r, s.serve.c))
    && (s.owner.ClosingRequests? && s.owner.i < |s.snapshot| ==> ShutBy(s, s.snapshot[s.owner.i], s.owner.c))
    && forall r :: r in s.workers && s.workers[r].Finally? ==> ShutBy(s, r, s.workers[r].c)
  }

  lemma ShutServe(s: State, a: ServeAction)
    requires ShutInv(s) && ServeStep(s, a).Some?
    ensures ShutInv(ServeStep(s, a).value)
  {
  }

  lemma ShutWork(s: State, r: Sock, a: WorkerAction)
    requires ShutInv(s) && WorkerStep(s, r, a).Some?
    ensures ShutInv(WorkerStep(s, r, a).value)
  {
  }

  lemma ShutStop(s: State, o: Call)
    requires ShutInv(s) && StopStep(s, o).Some?
    ensures ShutInv(StopStep(s, o).value)
  {
  }

  lemma ShutStep(s: State, a: Action)
    requires ShutInv(s) && Step(s, a).Some?
    ensures ShutInv(Step(s, a).value)
  {
    match a
    case Serve(sa) => ShutServe(s, sa);
    case Work(r, wa) => ShutWork(s, r, wa);
    case StopCall(o) => ShutStop(s, o);
    case _ =>
  }

  lemma {:induction false} ShutRun(s: State, schedule: seq<Action>)
    requires ShutInv(s) && Run(s, schedule).Some?
    ensures ShutInv(Run(s, schedule).value)
    decreases |schedule|
  {
    if schedule != [] {
      ShutStep(s, schedule[0]);
      ShutRun(Step(s, schedule[0]).value, schedule[1..]);
    }
  }

  /** Whoever closes a socket has tried to shut it down before. */
  lemma ShutdownComesFirst(s: State)
    requires Reachable(s)
    ensures s.closed <= s.shut
  {
    var s0: State, schedule: seq<Action> :| Init(s0) && Run(s0, schedule) == Some(s);
    ShutRun(s0, schedule);
  }

  /** The cleanup error that `wait_stopped` reports is the one it was given. */
  predicate ReportsOnly(s: State, e: Error) {
    s.cleanup == Some(e) && (s.owner.Returned? && s.owner.r.CleanupFailed? ==> s.owner.r.e == e)
  }

  /** Over any run, the error `wait_stopped` finally reports is the first one recorded. */
  lemma {:induction false} FirstErrorIsReported(s: State, schedule: seq<Action>, e: Error)
    requires ReportsOnly(s, e) && Run(s, schedule).Some?
    ensures ReportsOnly(Run(s, schedule).value, e)
    decreases |schedule|
  {
    if schedule == [] {
    } else {
      FirstErrorStays(s, schedule[0], e);
      FirstErrorIsReported(Step(s, schedule[0]).value, schedule[1..], e);
    }
  }

  lemma FirstErrorStays(s: State, a: Action, e: Error)
    requires ReportsOnly(s, e) && Step(s, a).Some?
    ensures ReportsOnly(Step(s, a).value, e)
  {
  }
}
