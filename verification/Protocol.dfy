/** The relayed-connect protocol as a state machine: every critical section is one step, in any interleaving. */
module Protocol {
  import opened Common
  import B = Broker
  import I = Ingress

  /** How far a connect request has come; the last four phases only let go of what it holds. */
  datatype Phase =
    | Started | Referenced | Holding | Closed | Cleared | Permitted | Opened | Registered | Connected | Marked
    | DroppingPeer | DroppingPermit | Leaving | Unlocked
  {
    predicate HasReference() {
      !Started?
    }

    predicate HoldsMutex() {
      !Started? && !Referenced? && !Unlocked?
    }

    predicate HasPermit() {
      Permitted? || Opened? || Registered? || Connected? || Marked? || DroppingPeer? || DroppingPermit?
    }

    /** The drop guard of a pending peer entry is armed. */
    predicate HasGuard() {
      Opened? || Registered? || Connected? || DroppingPeer?
    }

    predicate HasRegistration() {
      Registered? || Connected? || Marked?
    }

    predicate HasDescriptor() {
      !DroppingPeer? && !DroppingPermit? && !Leaving? && !Unlocked?
    }
  }

  datatype Task = Task(cookie: u64, target: Endpoint, fd: nat, port: u16, mutex: nat, phase: Phase)

  /** A relay inherits the registration (while it waits for its stream) and the permit of its connect. */
  datatype Relay = Relay(fd: nat, port: u16, waiting: bool)

  /** An open descriptor of the supervisor: the socket it refers to and the request it was made for. */
  datatype Descriptor = Descriptor(cookie: u64, holder: nat)

  /** A running socket dump: when it began, and the sockets that have been connected ever since. */
  datatype Snapshot = Snapshot(started: nat, throughout: set<u64>)

  datatype State = State(
    ingress: Endpoint, now: nat,
    sockets: map<u64, I.Ends>, // sockets that are not closed
    fds: map<nat, Descriptor>,
    locks: B.Locks, nextMutex: nat, owner: map<nat, nat>,
    tasks: map<nat, Task>, nextTask: nat, relays: map<nat, Relay>,
    peers: B.Peers, available: nat,
    waiting: I.Waiting, received: set<nat>, // `received`: channels a stream was sent to
    snapshot: Option<Snapshot>)

  datatype Action =
    | Reference | Acquire | Check | Clear | Permit | Open
    | Register(reserved: u16) | Connect(ends: I.Ends) | Mark | Spawn
    | Leave | DropPeer | DropPermit | Unlock | Exit

  datatype Event =
    | Start(cookie: u64, target: Endpoint, fd: nat)
    | Step(task: nat, action: Action)
    | StopWaiting(relay: nat)
    | Finish(relay: nat)
    | Deliver(source: Endpoint)
    | Sweep(dead: set<u64>)
    | SnapshotStart
    | SnapshotFinish(cookies: set<u64>)
    | SnapshotFail
    | Tick(later: nat)
    | SocketChanges(socket: u64, now: Option<I.Ends>)
    | CloseFd(descriptor: nat)

  predicate Initial(s: State) {
    && s.locks == map[] && s.owner == map[] && s.tasks == map[] && s.relays == map[] && s.peers == map[]
    && s.available == B.PERMITS && s.waiting == map[] && s.received == {} && s.snapshot.None?
    && (forall fd :: fd in s.fds ==> s.fds[fd].holder < s.nextTask) && DistinctPairs(s)
  }

  /** No two connected sockets have the same pair of addresses. */
  predicate DistinctPairs(s: State) {
    forall c, d :: c in s.sockets && d in s.sockets && SamePair(s.sockets[c], s.sockets[d]) ==> c == d
  }

  predicate SamePair(a: I.Ends, b: I.Ends) {
    a.remote.Some? && a.local == b.local && a.remote == b.remote
  }

  predicate FreePair(s: State, c: u64, ends: I.Ends) {
    forall d :: d in s.sockets && d != c ==> !SamePair(s.sockets[d], ends)
  }

  /** The mutexes some request still has a strong reference to. */
  function Alive(s: State): set<nat> {
    set t | t in s.tasks && s.tasks[t].phase.HasReference() :: s.tasks[t].mutex
  }

  /** What the kernel reports for the open descriptors. */
  function EndsOf(s: State): map<nat, I.Ends> {
    map fd | fd in s.fds && s.fds[fd].cookie in s.sockets :: s.sockets[s.fds[fd].cookie]
  }

  /** A descriptor cannot be closed while a request or a waiting registration owns it. */
  predicate Held(s: State, fd: nat)
    requires fd in s.fds
  {
    var h := s.fds[fd].holder;
    || (h in s.tasks && s.tasks[h].phase.HasDescriptor() && s.tasks[h].fd == fd)
    || (h in s.relays && s.relays[h].waiting && s.relays[h].fd == fd)
  }

  predicate StepEnabled(s: State, t: nat, a: Action) {
    && t in s.tasks
    && var task := s.tasks[t];
       var phase := task.phase;
       match a
       case Reference => phase.Started?
       case Acquire => phase.Referenced? && task.mutex !in s.owner
       case Check => phase.Holding?
       case Clear => phase.Closed?
       case Permit => phase.Cleared?
       case Open => phase.Permitted?
       case Register(_) => phase.Opened?
       // The native call succeeds or is in progress: it has connected the socket, or found it connecting already.
       case Connect(ends) =>
         && phase.Registered?
         && (task.cookie in s.sockets ||
             (ends.local.port == task.port && ends.remote == Some(s.ingress) && FreePair(s, task.cookie, ends)))
       case Mark => phase.Connected?
       case Spawn => phase.Marked?
       case Leave =>
         || phase.Referenced? || phase.Holding? || phase.Closed? || phase.Cleared?
         || phase.Permitted? || phase.Opened? || phase.Registered? || phase.Connected?
       case DropPeer => phase.DroppingPeer?
       case DropPermit => phase.DroppingPermit?
       case Unlock => phase.Leaving?
       case Exit => phase.Started? || phase.Unlocked?
  }

  // ---- One step of a request: its own progress, and its effect on each shared table ----

  /** An error, a cancellation or an early answer starts to drop what is held, last acquired first. */
  function Unwind(phase: Phase): Phase {
    match phase
    case Referenced => Unlocked
    case Permitted => DroppingPermit
    case Opened => DroppingPeer
    case Registered => DroppingPeer
    case Connected => DroppingPeer
    case _ => Leaving
  }

  function NextPhase(s: State, t: nat, a: Action): Phase
    requires t in s.tasks
  {
    match a
    case Reference => Referenced
    case Acquire => Holding
    case Check => if s.tasks[t].cookie in s.sockets then Leaving else Closed
    case Clear => Cleared
    case Permit => if s.available > 0 then Permitted else Leaving
    case Open => Opened
    case Register(_) => Registered
    case Connect(_) => Connected
    case Mark => Marked
    case Spawn => Leaving
    case Leave => Unwind(s.tasks[t].phase)
    case DropPeer => DroppingPermit
    case DropPermit => Leaving
    case Unlock => Unlocked
    case Exit => Unlocked
  }

  function NextTask(s: State, t: nat, a: Action): Task
    requires t in s.tasks
  {
    var task := s.tasks[t].(phase := NextPhase(s, t, a));
    if a.Reference? then task.(mutex := B.LockFor(s.locks, Alive(s), task.cookie, s.nextMutex))
    else if a.Register? then task.(port := a.reserved)
    else task
  }

  function NextLocks(s: State, t: nat, a: Action): B.Locks
    requires t in s.tasks
  {
    if a.Reference? then s.locks[s.tasks[t].cookie := NextTask(s, t, a).mutex] else s.locks
  }

  function NextOwner(s: State, t: nat, a: Action): map<nat, nat>
    requires t in s.tasks
  {
    if a.Acquire? then s.owner[s.tasks[t].mutex := t]
    else if a.Unlock? then s.owner - {s.tasks[t].mutex}
    else s.owner
  }

  function NextPeers(s: State, t: nat, a: Action): B.Peers
    requires t in s.tasks
  {
    var task := s.tasks[t];
    if a.Clear? || a.DropPeer? then s.peers - {task.cookie}
    else if a.Open? then B.Opened(s.peers, task.cookie, task.target, s.ingress, s.now)
    else if a.Mark? then B.Committed(s.peers, task.cookie, s.now)
    else s.peers
  }

  function NextAvailable(s: State, a: Action): nat {
    if a.Permit? && s.available > 0 then s.available - 1
    else if a.DropPermit? then s.available + 1
    else s.available
  }

  function NextWaiting(s: State, t: nat, a: Action): I.Waiting
    requires t in s.tasks
  {
    var task := s.tasks[t];
    if a.Register? then I.Registered(s.waiting, a.reserved, task.fd, t)
    else if a.Leave? && task.phase.HasRegistration() then I.Dropped(s.waiting, task.port, task.fd)
    else s.waiting
  }

  function NextSockets(s: State, t: nat, a: Action): map<u64, I.Ends>
    requires t in s.tasks
  {
    var c := s.tasks[t].cookie;
    if a.Connect? && c !in s.sockets then s.sockets[c := a.ends] else s.sockets
  }

  function NextRelays(s: State, t: nat, a: Action): map<nat, Relay>
    requires t in s.tasks
  {
    if a.Spawn? then s.relays[t := Relay(s.tasks[t].fd, s.tasks[t].port, true)] else s.relays
  }

  predicate Enabled(s: State, e: Event) {
    match e
    case Start(_, _, fd) => fd !in s.fds
    case Step(t, a) => StepEnabled(s, t, a)
    case StopWaiting(r) => r in s.relays && s.relays[r].waiting
    case Finish(r) => r in s.relays && !s.relays[r].waiting
    case Deliver(_) => true
    case Sweep(dead) => forall c :: c in dead ==> c in s.locks && s.locks[c] !in Alive(s)
    case SnapshotStart => s.snapshot.None? && s.peers != map[]
    // The dump lists every socket that was connected throughout.
    case SnapshotFinish(cookies) => s.snapshot.Some? && s.snapshot.value.throughout <= cookies
    case SnapshotFail => s.snapshot.Some?
    case Tick(later) => s.now <= later
    // The kernel keeps address pairs distinct.
    case SocketChanges(c, ends) =>
      ends.Some? ==> FreePair(s, c, ends.value)
    case CloseFd(fd) => fd in s.fds && !Held(s, fd)
  }

  function Handed(s: State, source: Endpoint): Option<nat> {
    var taken := I.Taken(s.waiting, source, s.ingress, EndsOf(s));
    if taken.Some? then Some(taken.value.1) else None
  }

  // ---- What every event does to each table ----

  function TasksAfter(s: State, e: Event): map<nat, Task>
    requires Enabled(s, e)
  {
    match e
    case Start(c, target, fd) => s.tasks[s.nextTask := Task(c, target, fd, 0, 0, Started)]
    case Step(t, a) => if a.Exit? then s.tasks - {t} else s.tasks[t := NextTask(s, t, a)]
    case _ => s.tasks
  }

  function FdsAfter(s: State, e: Event): map<nat, Descriptor>
    requires Enabled(s, e)
  {
    match e
    case Start(c, _, fd) => s.fds[fd := Descriptor(c, s.nextTask)]
    case CloseFd(fd) => s.fds - {fd}
    case _ => s.fds
  }

  function LocksAfter(s: State, e: Event): B.Locks
    requires Enabled(s, e)
  {
    match e
    case Step(t, a) => NextLocks(s, t, a)
    case Sweep(dead) => s.locks - dead
    case _ => s.locks
  }

  function PeersAfter(s: State, e: Event): B.Peers
    requires Enabled(s, e)
  {
    match e
    case Step(t, a) => NextPeers(s, t, a)
    case SnapshotFinish(cookies) => B.Collected(s.peers, s.snapshot.value.started, cookies)
    case _ => s.peers
  }

  function AvailableAfter(s: State, e: Event): nat
    requires Enabled(s, e)
  {
    match e
    case Step(_, a) => NextAvailable(s, a)
    case Finish(_) => s.available + 1
    case _ => s.available
  }

  function WaitingAfter(s: State, e: Event): I.Waiting
    requires Enabled(s, e)
  {
    match e
    case Step(t, a) => NextWaiting(s, t, a)
    case StopWaiting(r) => I.Dropped(s.waiting, s.relays[r].port, s.relays[r].fd)
    case Deliver(source) => I.Delivered(s.waiting, source, s.ingress, EndsOf(s))
    case _ => s.waiting
  }

  function ReceivedAfter(s: State, e: Event): set<nat>
    requires Enabled(s, e)
  {
    if e.Deliver? && Handed(s, e.source).Some? then s.received + {Handed(s, e.source).value} else s.received
  }

  function RelaysAfter(s: State, e: Event): map<nat, Relay>
    requires Enabled(s, e)
  {
    match e
    case Step(t, a) => NextRelays(s, t, a)
    case StopWaiting(r) => s.relays[r := s.relays[r].(waiting := false)]
    case Finish(r) => s.relays - {r}
    case _ => s.relays
  }

  function SocketsAfter(s: State, e: Event): map<u64, I.Ends>
    requires Enabled(s, e)
  {
    match e
    case Step(t, a) => NextSockets(s, t, a)
    case SocketChanges(c, ends) => if ends.Some? then s.sockets[c := ends.value] else s.sockets - {c}
    case _ => s.sockets
  }

  function SnapshotAfter(s: State, e: Event): Option<Snapshot> {
    match e
    case SnapshotStart => Some(Snapshot(s.now, s.sockets.Keys))
    case SnapshotFinish(_) => None
    case SnapshotFail => None
    case SocketChanges(c, None) =>
      if s.snapshot.None? then None
      else Some(s.snapshot.value.(throughout := s.snapshot.value.throughout - {c}))
    case _ => s.snapshot
  }

  function Apply(s: State, e: Event): State
    requires Enabled(s, e)
  {
    State(
      ingress := s.ingress, now := if e.Tick? then e.later else s.now,
      sockets := SocketsAfter(s, e), fds := FdsAfter(s, e),
      locks := LocksAfter(s, e),
      nextMutex := if e.Step? && e.action.Reference? then s.nextMutex + 1 else s.nextMutex,
      owner := if e.Step? then NextOwner(s, e.task, e.action) else s.owner,
      tasks := TasksAfter(s, e), nextTask := if e.Start? then s.nextTask + 1 else s.nextTask,
      relays := RelaysAfter(s, e), peers := PeersAfter(s, e), available := AvailableAfter(s, e),
      waiting := WaitingAfter(s, e), received := ReceivedAfter(s, e), snapshot := SnapshotAfter(s, e))
  }

  predicate Follows(s: State, e: Event, n: State) {
    Enabled(s, e) && n == Apply(s, e)
  }

  predicate StepAt(states: seq<State>, events: seq<Event>, k: nat)
    requires |states| == |events| + 1 && k < |events|
  {
    Follows(states[k], events[k], states[k + 1])
  }

  /** A run from an initial state: every event is enabled where it happens and leads to the next state. */
  predicate Run(states: seq<State>, events: seq<Event>) {
    && |states| == |events| + 1 && Initial(states[0])
    && forall k :: 0 <= k < |events| ==> StepAt(states, events, k)
  }
}
