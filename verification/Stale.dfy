/** A reachable state in which a stream is handed to the connect that was given up, not to the one that made it. */
module Stale {
  import opened Common
  import opened Protocol
  import I = Ingress

  /** Events lead from one state to another, each enabled where it happens. */
  ghost predicate Path(s: State, events: seq<Event>, n: State)
    decreases |events|
  {
    if events == [] then n == s else Enabled(s, events[0]) && Path(Apply(s, events[0]), events[1..], n)
  }

  lemma {:induction false} PathAppend(s: State, a: seq<Event>, m: State, b: seq<Event>, n: State)
    requires Path(s, a, m) && Path(m, b, n)
    ensures Path(s, a + b, n)
    decreases |a|
  {
    if a == [] {
      assert a + b == b;
    } else {
      assert (a + b)[0] == a[0] && (a + b)[1..] == a[1..] + b;
      PathAppend(Apply(s, a[0]), a[1..], m, b, n);
    }
  }

  /** Some run from one state to the other has these events among its own. */
  ghost predicate Reaches(s: State, n: State, via: set<Event>) {
    exists events :: PassesThrough(s, events, n, via)
  }

  ghost predicate PassesThrough(s: State, events: seq<Event>, n: State, via: set<Event>) {
    Path(s, events, n) && forall e :: e in via ==> e in events
  }

  lemma Stays(s: State)
    ensures Reaches(s, s, {})
  {
    assert PassesThrough(s, [], s, {});
  }

  lemma Then(s: State, m: State, via: set<Event>, e: Event)
    requires Reaches(s, m, via) && Enabled(m, e)
    ensures Reaches(s, Apply(m, e), via + {e})
    ensures Reaches(s, Apply(m, e), via)
  {
    var n := Apply(m, e);
    var events := Witness(s, m, via);
    assert [e][1..] == [];
    assert Path(n, [], n);
    PathAppend(s, events, m, [e], n);
    assert PassesThrough(s, events + [e], n, via + {e});
    assert PassesThrough(s, events + [e], n, via);
  }

  lemma Witness(s: State, n: State, via: set<Event>) returns (events: seq<Event>)
    requires Reaches(s, n, via)
    ensures Path(s, events, n) && forall e :: e in via ==> e in events
  {
    events :| PassesThrough(s, events, n, via);
  }

  ghost predicate Segment(states: seq<State>, events: seq<Event>) {
    |states| == |events| + 1 && forall k :: 0 <= k < |events| ==> StepAt(states, events, k)
  }

  lemma {:induction false} PathHasStates(s: State, events: seq<Event>, n: State) returns (states: seq<State>)
    requires Path(s, events, n)
    ensures Segment(states, events) && states[0] == s && states[|events|] == n
    decreases |events|
  {
    if events == [] {
      states := [s];
    } else {
      var rest := PathHasStates(Apply(s, events[0]), events[1..], n);
      states := [s] + rest;
      forall k | 0 <= k < |events|
        ensures StepAt(states, events, k)
      {
        if k > 0 {
          assert StepAt(rest, events[1..], k - 1);
        }
      }
    }
  }

  // ---- One connect, step by step ----

  /** The parts of a state that a connect only passes by. */
  predicate SameWorld(s: State, n: State) {
    n.sockets == s.sockets && n.ingress == s.ingress && n.fds == s.fds && n.nextTask == s.nextTask
  }

  predicate At(s: State, t: nat, task: Task) {
    t in s.tasks && s.tasks[t] == task
  }

  /** The next step of a request, with what it does to the tables of interest. */
  lemma Advance(start: State, s: State, via: set<Event>, t: nat, a: Action) returns (n: State)
    requires Reaches(start, s, via) && StepEnabled(s, t, a) && !a.Exit? && !a.Connect?
    ensures Reaches(start, n, via) && At(n, t, NextTask(s, t, a)) && SameWorld(s, n)
    ensures n.owner == NextOwner(s, t, a) && n.available == NextAvailable(s, a)
    ensures n.waiting == NextWaiting(s, t, a)
  {
    n := Apply(s, Step(t, a));
    Then(start, s, via, Step(t, a));
  }

  lemma Begins(start: State, s: State, via: set<Event>, c: u64, target: Endpoint, fd: nat) returns (n: State)
    requires Reaches(start, s, via) && fd !in s.fds
    ensures Reaches(start, n, via) && At(n, s.nextTask, Task(c, target, fd, 0, 0, Started))
    ensures n.owner == s.owner && n.fds == s.fds[fd := Descriptor(c, s.nextTask)] && n.nextTask == s.nextTask + 1
    ensures n.sockets == s.sockets && n.ingress == s.ingress && n.available == s.available && n.waiting == s.waiting
  {
    Then(start, s, via, Start(c, target, fd));
    n := Apply(s, Start(c, target, fd));
  }

  /** While no mutex is owned, a new request gets to own one and finds its socket closed. */
  lemma Enters(start: State, s: State, via: set<Event>, c: u64, target: Endpoint, fd: nat)
    returns (n: State, mutex: nat)
    requires Reaches(start, s, via) && s.owner == map[] && c !in s.sockets && fd !in s.fds
    ensures Reaches(start, n, via) && At(n, s.nextTask, Task(c, target, fd, 0, mutex, Closed))
    ensures n.owner == map[mutex := s.nextTask]
    ensures n.fds == s.fds[fd := Descriptor(c, s.nextTask)] && n.nextTask == s.nextTask + 1
    ensures n.sockets == s.sockets && n.ingress == s.ingress && n.available == s.available && n.waiting == s.waiting
  {
    var t := s.nextTask;
    n := Begins(start, s, via, c, target, fd);
    n := Advance(start, n, via, t, Reference);
    mutex := n.tasks[t].mutex;
    n := Advance(start, n, via, t, Acquire);
    n := Advance(start, n, via, t, Check);
  }

  lemma Opens(start: State, s: State, via: set<Event>, t: nat) returns (n: State)
    requires Reaches(start, s, via) && t in s.tasks && s.tasks[t].phase.Closed? && s.available > 0
    ensures Reaches(start, n, via) && At(n, t, s.tasks[t].(phase := Opened)) && SameWorld(s, n)
    ensures n.owner == s.owner && n.available == s.available - 1 && n.waiting == s.waiting
  {
    n := Advance(start, s, via, t, Clear);
    n := Advance(start, n, via, t, Permit);
    n := Advance(start, n, via, t, Open);
  }

  /** Up to the registration. */
  lemma Registers(start: State, s: State, via: set<Event>, t: nat, port: u16) returns (n: State)
    requires Reaches(start, s, via) && t in s.tasks && s.tasks[t].phase.Closed? && s.available > 0
    ensures Reaches(start, n, via) && At(n, t, s.tasks[t].(phase := Registered, port := port)) && SameWorld(s, n)
    ensures n.owner == s.owner && n.available == s.available - 1
    ensures n.waiting == I.Registered(s.waiting, port, s.tasks[t].fd, t)
  {
    n := Opens(start, s, via, t);
    n := Advance(start, n, via, t, Register(port));
  }

  /** The native call connects the closed socket to the ingress. */
  lemma Dials(start: State, s: State, via: set<Event>, t: nat, ends: I.Ends) returns (n: State)
    requires Reaches(start, s, via) && StepEnabled(s, t, Connect(ends)) && s.tasks[t].cookie !in s.sockets
    ensures Reaches(start, n, via + {Step(t, Connect(ends))}) && At(n, t, s.tasks[t].(phase := Connected))
    ensures n.sockets == s.sockets[s.tasks[t].cookie := ends] && n.ingress == s.ingress && n.nextTask == s.nextTask
    ensures n.fds == s.fds && n.owner == s.owner && n.available == s.available && n.waiting == s.waiting
  {
    n := Apply(s, Step(t, Connect(ends)));
    Then(start, s, via, Step(t, Connect(ends)));
  }

  lemma Commits(start: State, s: State, via: set<Event>, t: nat) returns (n: State)
    requires Reaches(start, s, via) && StepEnabled(s, t, Mark)
    ensures Reaches(start, n, via + {Step(t, Mark)}) && At(n, t, s.tasks[t].(phase := Marked)) && SameWorld(s, n)
    ensures n.owner == s.owner && n.available == s.available && n.waiting == s.waiting
  {
    n := Apply(s, Step(t, Mark));
    Then(start, s, via, Step(t, Mark));
  }

  /** After the commit: the relay takes over and the mutex is free again. */
  lemma HandsOver(start: State, s: State, via: set<Event>, t: nat) returns (n: State)
    requires Reaches(start, s, via) && t in s.tasks && s.tasks[t].phase.Marked?
    ensures Reaches(start, n, via) && SameWorld(s, n)
    ensures n.owner == s.owner - {s.tasks[t].mutex} && n.available == s.available && n.waiting == s.waiting
  {
    n := Advance(start, s, via, t, Spawn);
    n := Advance(start, n, via, t, Unlock);
  }

  /** The application disconnects its socket. */
  lemma Disconnects(start: State, s: State, via: set<Event>, c: u64) returns (n: State)
    requires Reaches(start, s, via)
    ensures Reaches(start, n, via + {SocketChanges(c, None)}) && n.sockets == s.sockets - {c}
    ensures n.ingress == s.ingress && n.nextTask == s.nextTask && n.fds == s.fds
    ensures n.owner == s.owner && n.available == s.available && n.waiting == s.waiting
  {
    Then(start, s, via, SocketChanges(c, None));
    n := Apply(s, SocketChanges(c, None));
  }

  /** A stream whose socket is gone when it is accepted finds no taker. */
  lemma StreamIsDropped(start: State, s: State, via: set<Event>, source: Endpoint) returns (n: State)
    requires Reaches(start, s, via) && forall d :: d in s.sockets ==> !s.sockets[d].Joins(source, s.ingress)
    ensures Reaches(start, n, via + {Deliver(source)}) && SameWorld(s, n)
    ensures n.owner == s.owner && n.available == s.available && n.waiting == s.waiting
  {
    assert I.Taken(s.waiting, source, s.ingress, EndsOf(s)).None?;
    Then(start, s, via, Deliver(source));
    n := Apply(s, Deliver(source));
  }

  // ---- The run ----

  /** A new request on a closed socket, up to its native connect. */
  lemma Dialled(start: State, s: State, via: set<Event>, c: u64, target: Endpoint, fd: nat, ends: I.Ends)
    returns (n: State)
    requires Reaches(start, s, via) && s.owner == map[] && s.available > 0 && c !in s.sockets && fd !in s.fds
    requires ends.Joins(ends.local, s.ingress) && FreePair(s, c, ends)
    ensures Reaches(start, n, via + {Step(s.nextTask, Connect(ends))})
    ensures s.nextTask in n.tasks && n.tasks[s.nextTask].phase.Connected? && n.tasks[s.nextTask].target == target
    ensures n.owner == map[n.tasks[s.nextTask].mutex := s.nextTask] && n.available == s.available - 1
    ensures n.sockets == s.sockets[c := ends] && n.ingress == s.ingress
    ensures n.fds == s.fds[fd := Descriptor(c, s.nextTask)] && n.nextTask == s.nextTask + 1
    ensures n.waiting == I.Registered(s.waiting, ends.local.port, fd, s.nextTask)
  {
    var mutex: nat;
    n, mutex := Enters(start, s, via, c, target, fd);
    n := Registers(start, n, via, s.nextTask, ends.local.port);
    n := Dials(start, n, via, s.nextTask, ends);
  }

  /** A whole connect, committed and handed over to its relay. */
  lemma Connects(s: State, c: u64, target: Endpoint, fd: nat, ends: I.Ends) returns (n: State)
    requires s.owner == map[] && s.available > 0 && c !in s.sockets && fd !in s.fds
    requires ends.Joins(ends.local, s.ingress) && FreePair(s, c, ends)
    ensures Reaches(s, n, {Step(s.nextTask, Connect(ends))} + {Step(s.nextTask, Mark)})
    ensures n.owner == map[] && n.available == s.available - 1
    ensures n.fds == s.fds[fd := Descriptor(c, s.nextTask)] && n.nextTask == s.nextTask + 1
    ensures n.sockets == s.sockets[c := ends] && n.ingress == s.ingress
    ensures n.waiting == I.Registered(s.waiting, ends.local.port, fd, s.nextTask)
  {
    var t := s.nextTask;
    Stays(s);
    n := Dialled(s, s, {}, c, target, fd, ends);
    assert {} + {Step(t, Connect(ends))} == {Step(t, Connect(ends))};
    n := Commits(s, n, {Step(t, Connect(ends))}, t);
    n := HandsOver(s, n, {Step(t, Connect(ends))} + {Step(t, Mark)}, t);
  }

  lemma NobodyJoins(s: State, c: u64, ends: I.Ends)
    requires c !in s.sockets && ends.Joins(ends.local, s.ingress) && FreePair(s, c, ends)
    ensures forall d :: d in s.sockets ==> !s.sockets[d].Joins(ends.local, s.ingress)
  {
  }

  /** A socket that joined the others is disconnected, and only then is its stream accepted. */
  lemma Abandons(start: State, s: State, via: set<Event>, others: map<u64, I.Ends>, c: u64, ends: I.Ends)
    returns (n: State)
    requires Reaches(start, s, via) && c !in others && s.sockets == others[c := ends]
    requires forall d :: d in others ==> !others[d].Joins(ends.local, s.ingress)
    ensures Reaches(start, n, via + {SocketChanges(c, None)} + {Deliver(ends.local)}) && n.sockets == others
    ensures n.ingress == s.ingress && n.nextTask == s.nextTask && n.fds == s.fds
    ensures n.owner == s.owner && n.available == s.available && n.waiting == s.waiting
  {
    n := Disconnects(start, s, via, c);
    assert n.sockets == others;
    n := StreamIsDropped(start, n, via + {SocketChanges(c, None)}, ends.local);
  }

  /** Afterwards the application disconnects, and only then is the stream accepted; the registration is left. */
  lemma ConnectIsGivenUp(s: State, c: u64, target: Endpoint, fd: nat, ends: I.Ends) returns (n: State)
    requires s.owner == map[] && s.available > 0 && c !in s.sockets && fd !in s.fds
    requires ends.Joins(ends.local, s.ingress) && FreePair(s, c, ends)
    ensures Reaches(s, n, FirstEvents(s.nextTask, c, ends))
    ensures n.owner == map[] && n.available == s.available - 1
    ensures n.fds == s.fds[fd := Descriptor(c, s.nextTask)] && n.nextTask == s.nextTask + 1
    ensures n.sockets == s.sockets && n.ingress == s.ingress
    ensures n.waiting == I.Registered(s.waiting, ends.local.port, fd, s.nextTask)
  {
    n := Connects(s, c, target, fd, ends);
    NobodyJoins(s, c, ends);
    n := Abandons(s, n, {Step(s.nextTask, Connect(ends))} + {Step(s.nextTask, Mark)}, s.sockets, c, ends);
  }

  /** The first connect's native call and commit, the disconnect, and the arrival of its stream. */
  function FirstEvents(t: nat, c: u64, ends: I.Ends): set<Event> {
    {Step(t, Connect(ends))} + {Step(t, Mark)} + {SocketChanges(c, None)} + {Deliver(ends.local)}
  }

  /** The first connect is given up; the second, on the same socket and address, has made its native call. */
  lemma BothConnect(s: State, c: u64, first: Endpoint, second: Endpoint, a: nat, b: nat, ends: I.Ends)
    returns (n: State)
    requires s.owner == map[] && s.available > 1 && s.waiting == map[]
    requires c !in s.sockets && a !in s.fds && b !in s.fds && a != b
    requires ends.Joins(ends.local, s.ingress) && FreePair(s, c, ends)
    ensures Reaches(s, n, FirstEvents(s.nextTask, c, ends) + {Step(s.nextTask + 1, Connect(ends))})
    ensures var t := s.nextTask + 1; t in n.tasks && n.tasks[t].phase.Connected? && n.tasks[t].target == second
    ensures c in n.sockets && n.sockets[c] == ends && n.ingress == s.ingress && a in n.fds && n.fds[a].cookie == c
    ensures var port := ends.local.port;
            n.waiting == I.Registered(I.Registered(map[], port, a, s.nextTask), port, b, s.nextTask + 1)
  {
    n := ConnectIsGivenUp(s, c, first, a, ends);
    n := Dialled(s, n, FirstEvents(s.nextTask, c, ends), c, second, b, ends);
  }

  /**
    * From every initial state: a socket connects for one target and is disconnected before its stream is accepted;
    * then it connects for another target. The stream of that connection is handed to the first registration.
    */
  lemma StaleConnectIsServed(s: State, c: u64, first: Endpoint, second: Endpoint, a: nat, b: nat, ends: I.Ends)
    returns (states: seq<State>, events: seq<Event>)
    requires Initial(s) && c !in s.sockets && a !in s.fds && b !in s.fds && a != b
    requires ends.Joins(ends.local, s.ingress) && FreePair(s, c, ends)
    ensures Run(states, events) && states[0] == s
    ensures forall e :: e in FirstEvents(s.nextTask, c, ends) ==> e in events
    ensures Step(s.nextTask + 1, Connect(ends)) in events
    ensures var n := states[|events|];
            && s.nextTask + 1 in n.tasks && n.tasks[s.nextTask + 1].phase.Connected?
            && n.tasks[s.nextTask + 1].target == second
            && c in n.sockets && n.sockets[c] == ends
            && Handed(n, ends.local) == Some(s.nextTask)
  {
    var n := BothConnect(s, c, first, second, a, b, ends);
    HandsToFirst(n, ends.local, a, b, s.nextTask);
    events := Witness(s, n, FirstEvents(s.nextTask, c, ends) + {Step(s.nextTask + 1, Connect(ends))});
    states := PathHasStates(s, events, n);
  }

  lemma HandsToFirst(n: State, source: Endpoint, a: nat, b: nat, t: nat)
    requires a in n.fds && n.fds[a].cookie in n.sockets && n.sockets[n.fds[a].cookie].Joins(source, n.ingress)
    requires n.waiting == I.Registered(I.Registered(map[], source.port, a, t), source.port, b, t + 1)
    ensures Handed(n, source) == Some(t)
  {
    assert n.waiting[source.port] == [I.Pending(a, Some(t)), I.Pending(b, Some(t + 1))];
  }
}
