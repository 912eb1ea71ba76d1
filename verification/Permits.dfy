/** The connection permits: every one is accounted for, and they bound the waiting registrations. */
module Permits {
  import opened Common
  import opened Protocol
  import opened Registrations
  import B = Broker

  predicate Holds(s: State, h: nat) {
    (h in s.tasks && s.tasks[h].phase.HasPermit()) || h in s.relays
  }

  function Holders(s: State): set<nat> {
    set h | h in s.tasks.Keys + s.relays.Keys && Holds(s, h)
  }

  predicate PermitInvariant(s: State) {
    s.available + |Holders(s)| == B.PERMITS
  }

  /** The request or relay that takes (true) or returns (false) a permit in an event. */
  function Transfer(s: State, e: Event): Option<(nat, bool)>
    requires Enabled(s, e)
  {
    match e
    case Step(t, Permit) => if s.available > 0 then Some((t, true)) else None
    case Step(t, DropPermit) => Some((t, false))
    case Finish(r) => Some((r, false))
    case _ => None
  }

  /** Only a transfer changes who holds a permit; moving it from a request to its relay does not. */
  lemma HolderAfter(s: State, e: Event, h: nat)
    requires Enabled(s, e) && (h in s.relays ==> RelayFd(s, h)) && (h in s.tasks ==> TaskFd(s, h))
    ensures var transfer := Transfer(s, e);
            Holds(Apply(s, e), h) <==>
            if transfer.Some? && transfer.value.0 == h then transfer.value.1 else Holds(s, h)
  {
  }

  lemma TransferIsReal(s: State, e: Event)
    requires FdInvariant(s) && Enabled(s, e) && Transfer(s, e).Some?
    ensures var transfer := Transfer(s, e).value; transfer.0 in Holders(s) <==> !transfer.1
  {
    var h := Transfer(s, e).value.0;
    assert h in s.relays ==> RelayFd(s, h);
  }

  lemma HoldersAfter(s: State, e: Event)
    requires FdInvariant(s) && Enabled(s, e)
    ensures Holders(Apply(s, e)) ==
            match Transfer(s, e)
            case None => Holders(s)
            case Some((h, takes)) => if takes then Holders(s) + {h} else Holders(s) - {h}
  {
    forall h
      ensures h in Holders(Apply(s, e)) <==> Holds(Apply(s, e), h)
      ensures h in Holders(s) <==> Holds(s, h)
      ensures Holds(Apply(s, e), h) <==>
              if Transfer(s, e).Some? && Transfer(s, e).value.0 == h then Transfer(s, e).value.1 else Holds(s, h)
    {
      HolderAfter(s, e, h);
    }
  }

  lemma CountAfter(s: State, e: Event)
    requires Enabled(s, e)
    ensures Apply(s, e).available ==
            match Transfer(s, e)
            case None => s.available
            case Some((_, takes)) => if takes then s.available - 1 else s.available + 1
  {
  }

  lemma KeepsPermits(s: State, e: Event)
    requires FdInvariant(s) && PermitInvariant(s) && Enabled(s, e)
    ensures PermitInvariant(Apply(s, e))
  {
    HoldersAfter(s, e);
    CountAfter(s, e);
    if Transfer(s, e).Some? {
      TransferIsReal(s, e);
    }
  }

  // ---- The bound on waiting entries ----

  /** The places of all waiting entries. */
  function Places(s: State): set<(u16, nat)> {
    set port, i | port in s.waiting && 0 <= i < |s.waiting[port]| :: (port, i)
  }

  lemma {:induction false} InjectionBounds<A, B>(a: set<A>, f: map<A, B>, b: set<B>)
    requires a <= f.Keys && (forall x :: x in a ==> f[x] in b)
    requires forall x, y :: x in a && y in a && x != y ==> f[x] != f[y]
    ensures |a| <= |b|
    decreases |a|
  {
    if a != {} {
      var x :| x in a;
      InjectionBounds(a - {x}, f, b - {f[x]});
    }
  }

  lemma EveryEntryHasAPermit(s: State, port: u16, i: nat)
    requires FdInvariant(s) && WaitingInvariant(s) && port in s.waiting && i < |s.waiting[port]|
    ensures s.waiting[port][i].fd in s.fds && s.fds[s.waiting[port][i].fd].holder in Holders(s)
  {
    assert ListOk(s, port, s.waiting[port]);
    assert EntryOk(s, port, s.waiting[port][i]);
  }

  lemma PlacesHaveDistinctHolders(s: State, port: u16, i: nat, other: u16, j: nat)
    requires FdInvariant(s) && WaitingInvariant(s)
    requires port in s.waiting && i < |s.waiting[port]| && other in s.waiting && j < |s.waiting[other]|
    requires (port, i) != (other, j)
    ensures var p, q := s.waiting[port][i], s.waiting[other][j];
            p.fd in s.fds && q.fd in s.fds && s.fds[p.fd].holder != s.fds[q.fd].holder
  {
    var p, q := s.waiting[port][i], s.waiting[other][j];
    assert ListOk(s, port, s.waiting[port]) && ListOk(s, other, s.waiting[other]);
    assert EntryOk(s, port, p) && EntryOk(s, other, q);
    if s.fds[p.fd].holder == s.fds[q.fd].holder {
      OneRegistration(s, s.fds[p.fd].holder, port, p.fd, other, q.fd);
    }
  }

  /** At most 128 entries wait, over all ports together. */
  lemma WaitingIsBounded(s: State)
    requires FdInvariant(s) && WaitingInvariant(s) && PermitInvariant(s)
    ensures |Places(s)| <= B.PERMITS - s.available
  {
    var holder: map<(u16, nat), nat> :=
      map x | x in Places(s) :: (EveryEntryHasAPermit(s, x.0, x.1); s.fds[s.waiting[x.0][x.1].fd].holder);
    forall x | x in Places(s)
      ensures holder[x] in Holders(s)
    {
      EveryEntryHasAPermit(s, x.0, x.1);
    }
    forall x, y | x in Places(s) && y in Places(s) && x != y
      ensures holder[x] != holder[y]
    {
      PlacesHaveDistinctHolders(s, x.0, x.1, y.0, y.1);
    }
    InjectionBounds(Places(s), holder, Holders(s));
  }
}
