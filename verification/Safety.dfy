/** What every run of the broker guarantees, whatever the interleaving. */
module Safety {
  import opened Common
  import opened Protocol
  import opened Locking
  import opened Registrations
  import opened Permits
  import opened PeerTable
  import B = Broker
  import I = Ingress

  ghost predicate Safe(s: State) {
    && LockInvariant(s) && FdInvariant(s) && WaitingInvariant(s) && ReceivedInvariant(s) && CoveredInvariant(s)
    && PermitInvariant(s) && PeerInvariant(s) && DistinctPairs(s)
  }

  lemma InitialIsSafe(s: State)
    requires Initial(s)
    ensures Safe(s)
  {
    assert Holders(s) == {};
  }

  lemma KeepsPairs(s: State, e: Event)
    requires Enabled(s, e) && DistinctPairs(s)
    ensures DistinctPairs(Apply(s, e))
  {
  }

  lemma TaskIdsAreOld(s: State)
    requires FdInvariant(s)
    ensures forall t :: t in s.tasks ==> t < s.nextTask
  {
    forall t | t in s.tasks
      ensures t < s.nextTask
    {
      assert TaskFd(s, t);
    }
  }

  lemma KeepsSafe(s: State, e: Event)
    requires Safe(s) && Enabled(s, e)
    ensures Safe(Apply(s, e))
  {
    KeepsLocks(s, e);
    KeepsFds(s, e);
    KeepsWaiting(s, e);
    KeepsReceived(s, e);
    KeepsCovered(s, e);
    KeepsPermits(s, e);
    TaskIdsAreOld(s);
    KeepsPeers(s, e);
    KeepsPairs(s, e);
  }

  lemma {:induction false} RunIsSafe(states: seq<State>, events: seq<Event>, k: nat)
    requires Run(states, events) && k <= |events|
    ensures Safe(states[k])
  {
    if k == 0 {
      InitialIsSafe(states[0]);
    } else {
      RunIsSafe(states, events, k - 1);
      assert StepAt(states, events, k - 1);
      KeepsSafe(states[k - 1], events[k - 1]);
    }
  }

  // ---- Connects ----

  /** Two requests on one socket use one mutex and are never both between lock and unlock. */
  lemma OneConnectPerSocket(states: seq<State>, events: seq<Event>, k: nat, t: nat, u: nat)
    requires Run(states, events) && k <= |events|
    requires t in states[k].tasks && u in states[k].tasks && states[k].tasks[t].cookie == states[k].tasks[u].cookie
    requires states[k].tasks[t].phase.HasReference() && states[k].tasks[u].phase.HasReference()
    ensures states[k].tasks[t].mutex == states[k].tasks[u].mutex
    ensures states[k].tasks[t].phase.HoldsMutex() && states[k].tasks[u].phase.HoldsMutex() ==> t == u
  {
    RunIsSafe(states, events, k);
    MutualExclusion(states[k], t, u);
  }

  predicate ConnectedFrom(states: seq<State>, c: u64, from: nat, to: nat) {
    forall k :: from <= k <= to && k < |states| ==> c in states[k].sockets
  }

  lemma {:induction false} SettledPeerIsKept(states: seq<State>, events: seq<Event>, c: u64, i: nat, j: nat)
    requires Run(states, events) && i <= j <= |events| && Settled(states[i], c) && ConnectedFrom(states, c, i, j)
    ensures Settled(states[j], c) && states[j].peers[c] == states[i].peers[c]
    decreases j
  {
    if i < j {
      SettledPeerIsKept(states, events, c, i, j - 1);
      var s, e := states[j - 1], events[j - 1];
      assert StepAt(states, events, j - 1) && c in s.sockets && c in states[j].sockets;
      StaysSettled(s, e, c);
    }
  }

  /** Committed at step `i` and connected ever since: the entry is exactly the committed one at `j`. */
  lemma CommittedPeerIsKept(states: seq<State>, events: seq<Event>, t: nat, i: nat, j: nat)
    requires Run(states, events) && i < j <= |events| && events[i] == Step(t, Mark)
    requires t in states[i].tasks && ConnectedFrom(states, states[i].tasks[t].cookie, i + 1, j)
    ensures var c := states[i].tasks[t].cookie;
            && c in states[j].peers
            && states[j].peers[c] == B.Peer(states[i].tasks[t].target, states[i].ingress, states[i].now, false)
  {
    RunIsSafe(states, events, i);
    assert StepAt(states, events, i);
    MarkSettles(states[i], t);
    SettledPeerIsKept(states, events, states[i].tasks[t].cookie, i + 1, j);
  }

  lemma {:induction false} IngressIsFixed(states: seq<State>, events: seq<Event>, i: nat, j: nat)
    requires Run(states, events) && i <= j <= |events|
    ensures states[j].ingress == states[i].ingress
    decreases j
  {
    if i < j {
      IngressIsFixed(states, events, i, j - 1);
      assert StepAt(states, events, j - 1);
    }
  }

  /** What the kernel answers for the peer of a socket that is not closed, through either interface. */
  function PeerAddress(s: State, c: u64, socketOption: bool): Result<Endpoint, int>
    requires c in s.sockets
  {
    var name := s.sockets[c].PeerName(socketOption);
    if name.Some? then Ok(name.value) else Err(B.ENOTCONN)
  }

  /**
    * A query may read the table at `a` and ask the kernel at `b`, with anything in between. It reports the target of
    * the last committed connect exactly when the kernel's peer is the ingress.
    */
  lemma TargetIsReported(states: seq<State>, events: seq<Event>, t: nat, i: nat, a: nat, b: nat, socketOption: bool)
    requires Run(states, events) && i < a <= b <= |events| && events[i] == Step(t, Mark)
    requires t in states[i].tasks && ConnectedFrom(states, states[i].tasks[t].cookie, i + 1, b)
    ensures var c := states[i].tasks[t].cookie;
            && c in states[a].peers && c in states[b].sockets
            && B.Target(Some(states[a].peers[c]), PeerAddress(states[b], c, socketOption)) ==
               Ok(if states[b].sockets[c].remote == Some(states[b].ingress) &&
                     (socketOption || !states[b].sockets[c].connecting)
                  then Some(states[i].tasks[t].target) else None)
  {
    CommittedPeerIsKept(states, events, t, i, a);
    IngressIsFixed(states, events, i, b);
  }

  predicate NotOpened(states: seq<State>, events: seq<Event>, c: u64, from: nat, to: nat) {
    forall k :: from <= k < to && k < |events| && k < |states| ==> !OpensFor(states[k], events[k], c)
  }

  lemma {:induction false} StampIsKept(states: seq<State>, events: seq<Event>, c: u64, created: nat, i: nat, j: nat)
    requires Run(states, events) && i <= j <= |events| && CommittedAt(states[i], c, created)
    requires NotOpened(states, events, c, i, j)
    ensures CommittedAt(states[j], c, created)
    decreases j
  {
    if i < j {
      StampIsKept(states, events, c, created, i, j - 1);
      assert StepAt(states, events, j - 1);
      StaysCommittedAt(states[j - 1], events[j - 1], c, created);
    }
  }

  /** The dump that is started at `i` is still running at `j`. */
  predicate SameDump(events: seq<Event>, i: nat, j: nat) {
    && i < j <= |events| && events[i].SnapshotStart?
    && forall k :: i < k < j ==> !events[k].SnapshotStart? && !events[k].SnapshotFinish? && !events[k].SnapshotFail?
  }

  lemma {:induction false} StartIsKept(states: seq<State>, events: seq<Event>, i: nat, j: nat)
    requires Run(states, events) && SameDump(events, i, j)
    ensures states[j].snapshot.Some? && states[j].snapshot.value.started == states[i].now
    decreases j
  {
    assert StepAt(states, events, j - 1);
    if j > i + 1 {
      StartIsKept(states, events, i, j - 1);
    }
  }

  /**
    * The collector does collect: an entry that was committed before a dump began, whose socket the dump does not list
    * and that no connect has opened again, is gone when the dump is finished.
    */
  lemma GonePeerIsCollected(states: seq<State>, events: seq<Event>, t: nat, h: nat, i: nat, j: nat)
    requires Run(states, events) && h < i < j < |events|
    requires events[h] == Step(t, Mark) && t in states[h].tasks && states[h].now < states[i].now
    requires SameDump(events, i, j) && events[j].SnapshotFinish?
    requires states[h].tasks[t].cookie !in events[j].cookies
    requires NotOpened(states, events, states[h].tasks[t].cookie, h + 1, j)
    ensures states[h].tasks[t].cookie !in states[j + 1].peers
  {
    var c := states[h].tasks[t].cookie;
    RunIsSafe(states, events, h);
    assert StepAt(states, events, h) && StepAt(states, events, j);
    MarkCommits(states[h], t);
    StampIsKept(states, events, c, states[h].now, h + 1, j);
    StartIsKept(states, events, i, j);
  }

  /** A pending entry always has a request that will commit or remove it, so none is left behind. */
  lemma PendingEntriesAreGuarded(states: seq<State>, events: seq<Event>, k: nat, c: u64)
    requires Run(states, events) && k <= |events| && c in states[k].peers && states[k].peers[c].pending
    ensures exists t :: t in states[k].tasks && states[k].tasks[t].cookie == c && states[k].tasks[t].phase.HasGuard()
  {
    RunIsSafe(states, events, k);
    assert PeerOk(states[k], c);
    var t := states[k].owner[states[k].locks[c]];
    assert t in states[k].tasks;
  }

  /** An event by which a request writes the entry of its socket. */
  predicate Writes(s: State, e: Event, c: u64) {
    && e.Step? && e.task in s.tasks && s.tasks[e.task].cookie == c
    && (e.action.Open? || e.action.Clear? || e.action.DropPeer?)
  }

  /** The request opened its entry at `i` and no request wrote to that entry again before `j`. */
  predicate LastOpened(states: seq<State>, events: seq<Event>, c: u64, i: nat, j: nat) {
    && i < j <= |events| < |states| && Writes(states[i], events[i], c) && events[i].action.Open?
    && forall k :: i < k < j ==> !Writes(states[k], events[k], c)
  }

  lemma EntryAfter(s: State, e: Event, c: u64)
    requires Enabled(s, e) && c in Apply(s, e).peers && !(Writes(s, e, c) && e.action.Open?)
    ensures !Writes(s, e, c) && c in s.peers && Apply(s, e).peers[c].target == s.peers[c].target
  {
  }

  /** Whatever the table holds for a socket is the target of the last connect that opened it, not cleared since. */
  lemma {:induction false} EntryIsOfLastConnect(states: seq<State>, events: seq<Event>, c: u64, j: nat) returns (i: nat)
    requires Run(states, events) && j <= |events| && c in states[j].peers
    ensures LastOpened(states, events, c, i, j)
    ensures states[j].peers[c].target == states[i].tasks[events[i].task].target
    decreases j
  {
    assert StepAt(states, events, j - 1);
    var s, e := states[j - 1], events[j - 1];
    if Writes(s, e, c) && e.action.Open? {
      i := j - 1;
    } else {
      EntryAfter(s, e, c);
      i := EntryIsOfLastConnect(states, events, c, j - 1);
    }
  }

  function EntryOf(s: State, c: u64): Option<B.Peer> {
    if c in s.peers then Some(s.peers[c]) else None
  }

  /** With an entry, an error of the kernel is passed on, except that an unconnected socket has no peer. */
  lemma KernelErrorsPass(peer: B.Peer, errno: int)
    ensures B.Target(Some(peer), Err(errno)) == if errno == 107 then Ok(None) else Err(errno)
  {
  }

  /** A connect that clears its entry and then goes native leaves none behind: then the kernel alone answers. */
  lemma ClearedStaysAbsent(states: seq<State>, events: seq<Event>, c: u64, i: nat, j: nat)
    requires Run(states, events) && i < j <= |events| && Writes(states[i], events[i], c) && !events[i].action.Open?
    requires forall k :: i < k < j ==> !(Writes(states[k], events[k], c) && events[k].action.Open?)
    ensures c !in states[j].peers
    ensures forall actual :: B.Target(EntryOf(states[j], c), actual) == Ok(None)
  {
    if c in states[j].peers {
      var k := EntryIsOfLastConnect(states, events, c, j);
    }
  }

  // ---- Streams ----

  /** The socket a live registration is for. */
  predicate RegisteredSocket(s: State, h: nat, c: u64) {
    || (h in s.tasks && s.tasks[h].phase.HasRegistration() &&
        s.tasks[h].fd in s.fds && s.fds[s.tasks[h].fd].cookie == c)
    || (h in s.relays && s.relays[h].waiting && s.relays[h].fd in s.fds && s.fds[s.relays[h].fd].cookie == c)
  }

  /** The kernel has this socket connected from the source of the stream to the ingress. */
  predicate IsOtherEnd(s: State, c: u64, source: Endpoint) {
    && c in s.sockets && s.sockets[c].local == source && s.sockets[c].remote == Some(s.ingress)
    && !s.sockets[c].connecting
  }

  /** A stream is dropped only if no unserved registration waits on the socket at its other end. */
  lemma StreamFindsATaker(states: seq<State>, events: seq<Event>, k: nat, source: Endpoint)
    requires Run(states, events) && k <= |events|
    ensures var s := states[k];
            Handed(s, source).Some? <==>
            && source.port in s.waiting
            && exists i :: 0 <= i < |s.waiting[source.port]| && Awaits(s, s.waiting[source.port][i], source)
  {
    var s := states[k];
    if source.port in s.waiting {
      var list := s.waiting[source.port];
      var first := I.FirstMatch(list, source, s.ingress, EndsOf(s));
      assert forall i :: 0 <= i < |list| ==>
          (I.Matches(list[i], source, s.ingress, EndsOf(s)) <==> Awaits(s, list[i], source));
    }
  }

  /** An entry that has not been served, on the socket at the other end. */
  predicate Awaits(s: State, p: I.Pending, source: Endpoint) {
    p.sender.Some? && p.fd in s.fds && IsOtherEnd(s, s.fds[p.fd].cookie, source)
  }

  /** A stream goes only to a live registration whose socket is, at that moment, the other end of the stream. */
  lemma StreamReachesItsSocket(states: seq<State>, events: seq<Event>, k: nat, source: Endpoint, h: nat)
    requires Run(states, events) && k < |events| && events[k] == Deliver(source)
    requires Handed(states[k], source) == Some(h)
    ensures exists c :: RegisteredSocket(states[k], h, c) && IsOtherEnd(states[k], c, source)
    ensures forall d :: IsOtherEnd(states[k], d, source) ==> RegisteredSocket(states[k], h, d)
    ensures h !in states[k].received && h in states[k + 1].received
  {
    var s := states[k];
    RunIsSafe(states, events, k);
    assert StepAt(states, events, k);
    TakenEntry(s, source);
    var p := s.waiting[source.port][I.Taken(s.waiting, source, s.ingress, EndsOf(s)).value.0];
    var c := s.fds[p.fd].cookie;
    assert RegisteredSocket(s, h, c);
    assert IsOtherEnd(s, c, source);
  }

  /**
    * Of several registrations on one socket, the oldest that is still unserved takes the stream: the entry at `i` is
    * served exactly if no earlier unserved entry of the list is on the same socket.
    */
  lemma ServedIffOldest(states: seq<State>, events: seq<Event>, k: nat, source: Endpoint, i: nat)
    requires Run(states, events) && k <= |events|
    requires source.port in states[k].waiting && i < |states[k].waiting[source.port]|
    requires I.Matches(states[k].waiting[source.port][i], source, states[k].ingress, EndsOf(states[k]))
    ensures var s, list := states[k], states[k].waiting[source.port];
            && (forall j :: 0 <= j < |list| ==> list[j].fd in s.fds)
            && (Handed(s, source) == list[i].sender <==>
                forall j :: 0 <= j < i ==> list[j].sender.None? || s.fds[list[j].fd].cookie != s.fds[list[i].fd].cookie)
  {
    RunIsSafe(states, events, k);
    var s, list := states[k], states[k].waiting[source.port];
    assert ListOk(s, source.port, list);
    assert forall j :: 0 <= j < |list| ==> EntryOk(s, source.port, list[j]);
    SameSocketMatches(s, source, list, i);
    ServedIffFirst(s, source, i);
  }

  /** A matching entry is served exactly if no earlier one matches: senders of different entries differ. */
  lemma ServedIffFirst(s: State, source: Endpoint, i: nat)
    requires FdInvariant(s) && WaitingInvariant(s) && source.port in s.waiting && i < |s.waiting[source.port]|
    requires I.Matches(s.waiting[source.port][i], source, s.ingress, EndsOf(s))
    ensures var list := s.waiting[source.port];
            Handed(s, source) == list[i].sender <==>
            forall j :: 0 <= j < i ==> !I.Matches(list[j], source, s.ingress, EndsOf(s))
  {
    var list := s.waiting[source.port];
    var first := I.FirstMatch(list, source, s.ingress, EndsOf(s));
    assert ListOk(s, source.port, list);
    assert EntryOk(s, source.port, list[i]) && EntryOk(s, source.port, list[first]);
    if first < i {
      HoldersDiffer(s, source.port, list[first], source.port, list[i]);
    }
  }

  /** An unserved entry can take the stream exactly if it is on the socket at the other end. */
  lemma SameSocketMatches(s: State, source: Endpoint, list: seq<I.Pending>, i: nat)
    requires DistinctPairs(s) && i < |list| && (forall j :: 0 <= j < |list| ==> list[j].fd in s.fds)
    requires I.Matches(list[i], source, s.ingress, EndsOf(s))
    ensures forall j :: 0 <= j < |list| ==>
              (I.Matches(list[j], source, s.ingress, EndsOf(s)) <==>
               list[j].sender.Some? && s.fds[list[j].fd].cookie == s.fds[list[i].fd].cookie)
  {
  }

  lemma {:induction false} ReceivedGrows(states: seq<State>, events: seq<Event>, i: nat, j: nat, h: nat)
    requires Run(states, events) && i <= j <= |events| && h in states[i].received
    ensures h in states[j].received
    decreases j
  {
    if i < j {
      ReceivedGrows(states, events, i, j - 1, h);
      assert StepAt(states, events, j - 1);
    }
  }

  /** No registration is handed two streams. */
  lemma OneStreamPerRegistration(states: seq<State>, events: seq<Event>, i: nat, j: nat,
                                 source: Endpoint, other: Endpoint)
    requires Run(states, events) && i < j < |events| && events[i] == Deliver(source) && events[j] == Deliver(other)
    requires Handed(states[i], source).Some? && Handed(states[j], other).Some?
    ensures Handed(states[i], source) != Handed(states[j], other)
  {
    var h, g := Handed(states[i], source).value, Handed(states[j], other).value;
    StreamReachesItsSocket(states, events, i, source, h);
    StreamReachesItsSocket(states, events, j, other, g);
    ReceivedGrows(states, events, i + 1, j, h);
  }

  /** Dropping a registration removes its own entry, leaves every other in place, and no empty list behind. */
  lemma DropRemovesOwnEntry(states: seq<State>, events: seq<Event>, k: nat)
    requires Run(states, events) && k < |events| && StepAt(states, events, k) && Drops(states[k], events[k]).Some?
    ensures var (fd, port) := DroppedFd(states[k], events[k]);
            var w := states[k].waiting;
            && port in w
            && exists i :: 0 <= i < |w[port]| && w[port][i].fd == fd &&
                           var rest := w[port][..i] + w[port][i + 1..];
                           states[k + 1].waiting == if rest == [] then w - {port} else w[port := rest]
  {
    var s, e := states[k], events[k];
    RunIsSafe(states, events, k);
    var fd, port := DroppedFd(s, e).0, DroppedFd(s, e).1;
    DropIsOwn(s, e);
    assert HasEntry(s, port, fd);
    var i :| 0 <= i < |s.waiting[port]| && s.waiting[port][i].fd == fd;
    assert ListOk(s, port, s.waiting[port]);
    I.WithoutRemovesOne(s.waiting[port], i);
  }

  /** Never more than 128 entries wait, and no candidate list is empty. */
  lemma WaitingStaysBounded(states: seq<State>, events: seq<Event>, k: nat)
    requires Run(states, events) && k <= |events|
    ensures |Places(states[k])| <= 128
    ensures forall port :: port in states[k].waiting ==> states[k].waiting[port] != []
  {
    RunIsSafe(states, events, k);
    WaitingIsBounded(states[k]);
    forall port | port in states[k].waiting
      ensures states[k].waiting[port] != []
    {
      assert ListOk(states[k], port, states[k].waiting[port]);
    }
  }

  /** When every request and relay is gone, all permits are back, nothing waits and nothing is pending. */
  lemma QuietMeansClean(states: seq<State>, events: seq<Event>, k: nat)
    requires Run(states, events) && k <= |events| && states[k].tasks == map[] && states[k].relays == map[]
    ensures states[k].available == 128 && states[k].waiting == map[]
    ensures forall c :: c in states[k].peers ==> !states[k].peers[c].pending
  {
    var s := states[k];
    RunIsSafe(states, events, k);
    assert Holders(s) == {};
    WaitingIsBounded(s);
    assert Places(s) == {};
    forall port | port in s.waiting
      ensures (port, 0) in Places(s)
    {
      assert ListOk(s, port, s.waiting[port]);
    }
    forall c | c in s.peers
      ensures !s.peers[c].pending
    {
      assert PeerOk(s, c);
    }
  }
}
