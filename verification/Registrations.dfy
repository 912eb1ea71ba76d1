/** Every waiting entry belongs to one live registration on its own open descriptor, and is served at most once. */
module Registrations {
  import opened Common
  import opened Protocol
  import I = Ingress

  // ---- Descriptors ----

  predicate TaskFd(s: State, t: nat)
    requires t in s.tasks
  {
    var task := s.tasks[t];
    t < s.nextTask && (task.phase.HasDescriptor() ==> task.fd in s.fds && s.fds[task.fd].holder == t)
  }

  predicate RelayFd(s: State, r: nat)
    requires r in s.relays
  {
    var relay := s.relays[r];
    && r < s.nextTask && (relay.waiting ==> relay.fd in s.fds && s.fds[relay.fd].holder == r)
    && (r in s.tasks ==> s.tasks[r].phase.Leaving? || s.tasks[r].phase.Unlocked?)
  }

  predicate FdInvariant(s: State) {
    && (forall t :: t in s.tasks ==> TaskFd(s, t))
    && (forall r :: r in s.relays ==> RelayFd(s, r))
    && (forall fd :: fd in s.fds ==> s.fds[fd].holder < s.nextTask)
  }

  lemma KeepsTaskFd(s: State, e: Event, t: nat)
    requires Enabled(s, e) && t in Apply(s, e).tasks && (t in s.tasks ==> TaskFd(s, t))
    ensures TaskFd(Apply(s, e), t)
  {
  }

  lemma KeepsRelayFd(s: State, e: Event, r: nat)
    requires Enabled(s, e) && r in Apply(s, e).relays
    requires (r in s.relays ==> RelayFd(s, r)) && (r in s.tasks ==> TaskFd(s, r))
    ensures RelayFd(Apply(s, e), r)
  {
  }

  lemma KeepsFds(s: State, e: Event)
    requires FdInvariant(s) && Enabled(s, e)
    ensures FdInvariant(Apply(s, e))
  {
    var n := Apply(s, e);
    forall t | t in n.tasks
      ensures TaskFd(n, t)
    {
      KeepsTaskFd(s, e, t);
    }
    forall r | r in n.relays
      ensures RelayFd(n, r)
    {
      KeepsRelayFd(s, e, r);
    }
  }

  // ---- Waiting entries ----

  /** A request or relay has a live registration for this port and descriptor. */
  predicate Owns(s: State, h: nat, port: u16, fd: nat) {
    || (h in s.tasks && s.tasks[h].phase.HasRegistration() && s.tasks[h].fd == fd && s.tasks[h].port == port)
    || (h in s.relays && s.relays[h].waiting && s.relays[h].fd == fd && s.relays[h].port == port)
  }

  /** An entry's descriptor is open, its holder is registered, and an unused sender leads to that holder. */
  predicate EntryOk(s: State, port: u16, p: I.Pending) {
    && p.fd in s.fds && Owns(s, s.fds[p.fd].holder, port, p.fd)
    && (p.sender.Some? ==> p.sender.value == s.fds[p.fd].holder && p.sender.value !in s.received)
  }

  predicate ListOk(s: State, port: u16, candidates: seq<I.Pending>) {
    && candidates != [] && I.DistinctFds(candidates)
    && forall p :: p in candidates ==> EntryOk(s, port, p)
  }

  predicate WaitingInvariant(s: State) {
    forall port :: port in s.waiting ==> ListOk(s, port, s.waiting[port])
  }

  /** A channel that was served belongs to a request that has registered. */
  predicate ReceivedOk(s: State, c: nat) {
    && c < s.nextTask
    && (c in s.tasks ==> s.tasks[c].phase.HasRegistration() || !s.tasks[c].phase.HasDescriptor())
  }

  predicate ReceivedInvariant(s: State) {
    forall c :: c in s.received ==> ReceivedOk(s, c)
  }

  /** The registration that an event drops, if any. */
  function Drops(s: State, e: Event): Option<nat>
    requires Enabled(s, e)
  {
    match e
    case Step(t, Leave) => if s.tasks[t].phase.HasRegistration() then Some(t) else None
    case StopWaiting(r) => Some(r)
    case _ => None
  }

  lemma RequestStaysRegistered(s: State, e: Event, t: nat)
    requires t in s.tasks && TaskFd(s, t) && Enabled(s, e) && s.tasks[t].phase.HasRegistration()
    requires Drops(s, e) != Some(t)
    ensures var n, fd := Apply(s, e), s.tasks[t].fd;
            Owns(n, t, s.tasks[t].port, fd) && fd in n.fds && n.fds[fd].holder == t
  {
  }

  lemma RelayStaysRegistered(s: State, e: Event, r: nat)
    requires r in s.relays && RelayFd(s, r) && Enabled(s, e) && s.relays[r].waiting
    requires Drops(s, e) != Some(r)
    ensures var n, fd := Apply(s, e), s.relays[r].fd;
            Owns(n, r, s.relays[r].port, fd) && fd in n.fds && n.fds[fd].holder == r
  {
  }

  /** A live registration survives every event except its own drop. */
  lemma RegistrationStays(s: State, e: Event, h: nat, port: u16, fd: nat)
    requires FdInvariant(s) && Enabled(s, e) && Owns(s, h, port, fd)
    requires Drops(s, e) != Some(h)
    ensures var n := Apply(s, e); Owns(n, h, port, fd) && fd in n.fds && n.fds[fd].holder == h
  {
    if h in s.tasks && s.tasks[h].phase.HasRegistration() && s.tasks[h].fd == fd && s.tasks[h].port == port {
      RequestStaysRegistered(s, e, h);
    } else {
      RelayStaysRegistered(s, e, h);
    }
  }

  /** One registration per holder: two entries with the same holder are on the same descriptor. */
  lemma OneRegistration(s: State, h: nat, port: u16, fd: nat, other: u16, fd': nat)
    requires FdInvariant(s) && Owns(s, h, port, fd) && Owns(s, h, other, fd')
    ensures fd == fd' && port == other && h < s.nextTask
    ensures fd in s.fds && s.fds[fd].holder == h
    ensures h in s.tasks ==> s.tasks[h].phase.HasRegistration() || !s.tasks[h].phase.HasDescriptor()
  {
    assert h in s.tasks ==> TaskFd(s, h);
    assert h in s.relays ==> RelayFd(s, h);
  }

  lemma EntryStays(s: State, e: Event, port: u16, p: I.Pending)
    requires FdInvariant(s) && Enabled(s, e) && EntryOk(s, port, p)
    requires Drops(s, e) != Some(s.fds[p.fd].holder)
    requires e.Deliver? && p.sender.Some? ==> Handed(s, e.source) != p.sender
    ensures EntryOk(Apply(s, e), port, p)
  {
    RegistrationStays(s, e, s.fds[p.fd].holder, port, p.fd);
  }

  /** Events that neither register, drop nor deliver leave every list valid. */
  lemma ListStays(s: State, e: Event, port: u16, candidates: seq<I.Pending>)
    requires FdInvariant(s) && Enabled(s, e) && ListOk(s, port, candidates) && Drops(s, e).None? && !e.Deliver?
    ensures ListOk(Apply(s, e), port, candidates)
  {
    var n := Apply(s, e);
    forall p | p in candidates
      ensures EntryOk(n, port, p)
    {
      EntryStays(s, e, port, p);
    }
  }

  lemma RegisterKeepsWaiting(s: State, t: nat, port: u16)
    requires FdInvariant(s) && WaitingInvariant(s) && ReceivedInvariant(s) && Enabled(s, Step(t, Register(port)))
    ensures WaitingInvariant(Apply(s, Step(t, Register(port))))
  {
    var e := Step(t, Register(port));
    var n, fd := Apply(s, e), s.tasks[t].fd;
    assert TaskFd(s, t);
    var before := if port in s.waiting then s.waiting[port] else [];
    assert EntryOk(n, port, I.Pending(fd, Some(t))) by {
      assert t in s.received ==> ReceivedOk(s, t);
    }
    forall q | q in n.waiting
      ensures ListOk(n, q, n.waiting[q])
    {
      if q in s.waiting {
        ListStays(s, e, q, s.waiting[q]);
      }
      if q == port {
        assert n.waiting[q] == before + [I.Pending(fd, Some(t))];
        OthersAreOnOtherFds(s, t, port);
      }
    }
  }

  lemma OthersAreOnOtherFds(s: State, t: nat, port: u16)
    requires FdInvariant(s) && WaitingInvariant(s) && t in s.tasks && s.tasks[t].phase.Opened?
    ensures port in s.waiting ==> forall p :: p in s.waiting[port] ==> p.fd != s.tasks[t].fd
  {
    if port in s.waiting {
      assert ListOk(s, port, s.waiting[port]);
      forall p | p in s.waiting[port]
        ensures p.fd != s.tasks[t].fd
      {
        assert EntryOk(s, port, p) && TaskFd(s, t);
        if p.fd == s.tasks[t].fd {
          OneRegistration(s, t, port, p.fd, port, p.fd);
        }
      }
    }
  }

  /** Two entries on different descriptors have different holders. */
  lemma HoldersDiffer(s: State, port: u16, p: I.Pending, other: u16, q: I.Pending)
    requires FdInvariant(s) && EntryOk(s, port, p) && EntryOk(s, other, q) && p.fd != q.fd
    ensures s.fds[p.fd].holder != s.fds[q.fd].holder
  {
  }

  /** What an event's dropped registration was. */
  function DroppedFd(s: State, e: Event): (nat, u16)
    requires Enabled(s, e) && Drops(s, e).Some?
  {
    if e.Step? then (s.tasks[e.task].fd, s.tasks[e.task].port) else (s.relays[e.relay].fd, s.relays[e.relay].port)
  }

  lemma DropIsOwn(s: State, e: Event)
    requires FdInvariant(s) && Enabled(s, e) && Drops(s, e).Some?
    ensures var (fd, port) := DroppedFd(s, e);
            Owns(s, Drops(s, e).value, port, fd) && Apply(s, e).waiting == I.Dropped(s.waiting, port, fd)
  {
  }

  lemma DropKeepsList(s: State, e: Event, q: u16)
    requires FdInvariant(s) && WaitingInvariant(s) && Enabled(s, e) && Drops(s, e).Some?
    requires q in Apply(s, e).waiting
    ensures ListOk(Apply(s, e), q, Apply(s, e).waiting[q])
  {
    var n, h, fd, port := Apply(s, e), Drops(s, e).value, DroppedFd(s, e).0, DroppedFd(s, e).1;
    DropIsOwn(s, e);
    assert ListOk(s, q, s.waiting[q]);
    if q == port {
      I.WithoutStaysDistinct(s.waiting[q], fd);
    }
    forall p | p in n.waiting[q]
      ensures EntryOk(n, q, p)
    {
      I.WithoutKeeps(s.waiting[q], fd, p);
      assert EntryOk(s, q, p);
      if s.fds[p.fd].holder == h {
        OneRegistration(s, h, q, p.fd, port, fd);
      }
      EntryStays(s, e, q, p);
    }
  }

  /** The entry that takes the stream of a delivery. */
  lemma TakenEntry(s: State, source: Endpoint)
    requires WaitingInvariant(s) && Handed(s, source).Some?
    ensures var taken := I.Taken(s.waiting, source, s.ingress, EndsOf(s));
            && taken.Some? && source.port in s.waiting && taken.value.0 < |s.waiting[source.port]|
            && var p := s.waiting[source.port][taken.value.0];
               I.Matches(p, source, s.ingress, EndsOf(s)) && p.sender == Handed(s, source) && EntryOk(s, source.port, p)
  {
    assert ListOk(s, source.port, s.waiting[source.port]);
  }

  lemma DeliverKeepsList(s: State, source: Endpoint, q: u16)
    requires FdInvariant(s) && WaitingInvariant(s) && q in s.waiting
    ensures var n := Apply(s, Deliver(source)); q in n.waiting && ListOk(n, q, n.waiting[q])
  {
    var e := Deliver(source);
    var n, before := Apply(s, e), s.waiting[q];
    assert ListOk(s, q, before);
    if Handed(s, source).None? {
      forall p | p in before
        ensures EntryOk(n, q, p)
      {
        EntryStays(s, e, q, p);
      }
    } else {
      TakenEntry(s, source);
      var i := I.Taken(s.waiting, source, s.ingress, EndsOf(s)).value.0;
      var winner := s.waiting[source.port][i];
      forall j | 0 <= j < |before|
        ensures EntryOk(n, q, n.waiting[q][j])
      {
        assert EntryOk(s, q, before[j]);
        if q == source.port && j == i {
          EntryStays(s, e, q, winner.(sender := None));
        } else {
          if before[j].fd == winner.fd {
            OneRegistration(s, s.fds[winner.fd].holder, q, winner.fd, source.port, winner.fd);
          }
          HoldersDiffer(s, q, before[j], source.port, winner);
          EntryStays(s, e, q, before[j]);
        }
      }
      assert |n.waiting[q]| == |before|;
    }
  }

  lemma KeepsWaiting(s: State, e: Event)
    requires FdInvariant(s) && WaitingInvariant(s) && ReceivedInvariant(s) && Enabled(s, e)
    ensures WaitingInvariant(Apply(s, e))
  {
    var n := Apply(s, e);
    if e.Step? && e.action.Register? {
      RegisterKeepsWaiting(s, e.task, e.action.reserved);
    } else {
      forall q | q in n.waiting
        ensures ListOk(n, q, n.waiting[q])
      {
        if Drops(s, e).Some? {
          DropKeepsList(s, e, q);
        } else if e.Deliver? {
          DeliverKeepsList(s, e.source, q);
        } else {
          assert n.waiting == s.waiting;
          ListStays(s, e, q, s.waiting[q]);
        }
      }
    }
  }

  lemma KeepsReceived(s: State, e: Event)
    requires FdInvariant(s) && WaitingInvariant(s) && ReceivedInvariant(s) && Enabled(s, e)
    ensures ReceivedInvariant(Apply(s, e))
  {
    var n := Apply(s, e);
    forall c | c in n.received
      ensures ReceivedOk(n, c)
    {
      if c in s.received {
        assert ReceivedOk(s, c);
      } else {
        TakenEntry(s, e.source);
        var p := s.waiting[e.source.port][I.Taken(s.waiting, e.source, s.ingress, EndsOf(s)).value.0];
        OneRegistration(s, c, e.source.port, p.fd, e.source.port, p.fd);
      }
    }
  }

  // ---- Conversely, every live registration has its entry ----

  ghost predicate HasEntry(s: State, port: u16, fd: nat) {
    port in s.waiting && exists i :: 0 <= i < |s.waiting[port]| && s.waiting[port][i].fd == fd
  }

  ghost predicate CoveredInvariant(s: State) {
    && (forall t :: t in s.tasks && s.tasks[t].phase.HasRegistration() ==> HasEntry(s, s.tasks[t].port, s.tasks[t].fd))
    && (forall r :: r in s.relays && s.relays[r].waiting ==> HasEntry(s, s.relays[r].port, s.relays[r].fd))
  }

  lemma DropLeavesOthers(w: I.Waiting, port: u16, fd: nat, q: u16, i: nat)
    requires q in w && i < |w[q]| && w[q][i].fd != fd
    ensures var n := I.Dropped(w, port, fd); q in n && exists j :: 0 <= j < |n[q]| && n[q][j].fd == w[q][i].fd
  {
    var p := w[q][i];
    if q == port {
      I.WithoutKeeps(w[q], fd, p);
      assert p in I.Without(w[q], fd);
    } else {
      assert I.Dropped(w, port, fd)[q][i] == p;
    }
  }

  lemma EntryRemains(s: State, e: Event, port: u16, fd: nat)
    requires Enabled(s, e) && HasEntry(s, port, fd) && (Drops(s, e).Some? ==> DroppedFd(s, e).0 != fd)
    ensures HasEntry(Apply(s, e), port, fd)
  {
    var n := Apply(s, e);
    var i :| 0 <= i < |s.waiting[port]| && s.waiting[port][i].fd == fd;
    if Drops(s, e).Some? {
      DropLeavesOthers(s.waiting, DroppedFd(s, e).1, DroppedFd(s, e).0, port, i);
    } else {
      assert n.waiting[port][i].fd == fd;
    }
  }

  lemma DropsAnother(s: State, e: Event, h: nat, fd: nat)
    requires FdInvariant(s) && Enabled(s, e) && Drops(s, e).Some? && Drops(s, e).value != h
    requires fd in s.fds && s.fds[fd].holder == h
    ensures DroppedFd(s, e).0 != fd
  {
    var dropped := DroppedFd(s, e);
    DropIsOwn(s, e);
    OneRegistration(s, Drops(s, e).value, dropped.1, dropped.0, dropped.1, dropped.0);
  }

  lemma RequestIsCovered(s: State, e: Event, t: nat)
    requires FdInvariant(s) && CoveredInvariant(s) && Enabled(s, e)
    requires t in s.tasks && s.tasks[t].phase.HasRegistration() && Drops(s, e) != Some(t)
    ensures HasEntry(Apply(s, e), s.tasks[t].port, s.tasks[t].fd)
  {
    assert TaskFd(s, t);
    if Drops(s, e).Some? {
      DropsAnother(s, e, t, s.tasks[t].fd);
    }
    EntryRemains(s, e, s.tasks[t].port, s.tasks[t].fd);
  }

  lemma RelayIsCovered(s: State, e: Event, r: nat)
    requires FdInvariant(s) && CoveredInvariant(s) && Enabled(s, e)
    requires r in s.relays && s.relays[r].waiting && Drops(s, e) != Some(r)
    ensures HasEntry(Apply(s, e), s.relays[r].port, s.relays[r].fd)
  {
    assert RelayFd(s, r);
    if Drops(s, e).Some? {
      DropsAnother(s, e, r, s.relays[r].fd);
    }
    EntryRemains(s, e, s.relays[r].port, s.relays[r].fd);
  }

  lemma RegisterIsCovered(s: State, t: nat, port: u16)
    requires Enabled(s, Step(t, Register(port)))
    ensures HasEntry(Apply(s, Step(t, Register(port))), port, s.tasks[t].fd)
  {
    var list := Apply(s, Step(t, Register(port))).waiting[port];
    assert list[|list| - 1].fd == s.tasks[t].fd;
  }

  lemma NextRequestIsCovered(s: State, e: Event, t: nat)
    requires FdInvariant(s) && CoveredInvariant(s) && Enabled(s, e)
    requires t in Apply(s, e).tasks && Apply(s, e).tasks[t].phase.HasRegistration()
    ensures var n := Apply(s, e); HasEntry(n, n.tasks[t].port, n.tasks[t].fd)
  {
    if e.Step? && e.task == t && e.action.Register? {
      RegisterIsCovered(s, t, e.action.reserved);
    } else {
      RequestIsCovered(s, e, t);
    }
  }

  lemma NextRelayIsCovered(s: State, e: Event, r: nat)
    requires FdInvariant(s) && CoveredInvariant(s) && Enabled(s, e)
    requires r in Apply(s, e).relays && Apply(s, e).relays[r].waiting
    ensures var n := Apply(s, e); HasEntry(n, n.relays[r].port, n.relays[r].fd)
  {
    if e == Step(r, Spawn) {
      RequestIsCovered(s, e, r);
    } else {
      RelayIsCovered(s, e, r);
    }
  }

  lemma KeepsCovered(s: State, e: Event)
    requires FdInvariant(s) && CoveredInvariant(s) && Enabled(s, e)
    ensures CoveredInvariant(Apply(s, e))
  {
    var n := Apply(s, e);
    forall t | t in n.tasks && n.tasks[t].phase.HasRegistration()
      ensures HasEntry(n, n.tasks[t].port, n.tasks[t].fd)
    {
      NextRequestIsCovered(s, e, t);
    }
    forall r | r in n.relays && n.relays[r].waiting
      ensures HasEntry(n, n.relays[r].port, n.relays[r].fd)
    {
      NextRelayIsCovered(s, e, r);
    }
  }
}
