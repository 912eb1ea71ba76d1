/** The loopback listener shared by all relayed connections: registrations, delivery and removal. */
module Ingress {
  import opened Common

  /** A registered descriptor and, until a stream is handed over, the sending half of its channel. */
  datatype Pending = Pending(fd: nat, sender: Option<nat>)

  type Waiting = map<u16, seq<Pending>>

  /** What the kernel knows of a socket that is not closed; a listener has no remote address. */
  datatype Ends = Ends(local: Endpoint, remote: Option<Endpoint>, connecting: bool) {
    /** getpeername answers only once connected; SO_PEERNAME also while still connecting. */
    function PeerName(socketOption: bool): Option<Endpoint> {
      if connecting && !socketOption then None else remote
    }

    /** Both endpoints as the ingress asks for them. */
    predicate Joins(source: Endpoint, ingress: Endpoint) {
      local == source && PeerName(false) == Some(ingress)
    }
  }

  predicate Matches(p: Pending, source: Endpoint, ingress: Endpoint, ends: map<nat, Ends>) {
    p.sender.Some? && p.fd in ends && ends[p.fd].Joins(source, ingress)
  }

  /** The same in the kernel's terms. */
  predicate IsFor(p: Pending, source: Endpoint, ingress: Endpoint, ends: map<nat, Ends>) {
    && p.sender.Some? && p.fd in ends
    && ends[p.fd].local == source && ends[p.fd].remote == Some(ingress) && !ends[p.fd].connecting
  }

  // ---- Specification of the three critical sections ----

  function Registered(w: Waiting, port: u16, fd: nat, channel: nat): Waiting {
    w[port := (if port in w then w[port] else []) + [Pending(fd, Some(channel))]]
  }

  /** The candidates other than one descriptor's. */
  function Without(candidates: seq<Pending>, fd: nat): seq<Pending> {
    if candidates == [] then []
    else (if candidates[0].fd == fd then [] else [candidates[0]]) + Without(candidates[1..], fd)
  }

  function Dropped(w: Waiting, port: u16, fd: nat): Waiting {
    if port !in w then w
    else
      var rest := Without(w[port], fd);
      if rest == [] then w - {port} else w[port := rest]
  }

  /** Index of the first candidate that may take the stream, or the length. */
  function FirstMatch(candidates: seq<Pending>, source: Endpoint, ingress: Endpoint, ends: map<nat, Ends>): (i: nat)
    ensures i <= |candidates|
    ensures i < |candidates| ==> Matches(candidates[i], source, ingress, ends)
    ensures forall j :: 0 <= j < i ==> !Matches(candidates[j], source, ingress, ends)
  {
    if candidates == [] || Matches(candidates[0], source, ingress, ends) then 0
    else 1 + FirstMatch(candidates[1..], source, ingress, ends)
  }

  function Taken(w: Waiting, source: Endpoint, ingress: Endpoint, ends: map<nat, Ends>): Option<(nat, nat)> {
    if source.port !in w then None
    else
      var i := FirstMatch(w[source.port], source, ingress, ends);
      if i < |w[source.port]| then Some((i, w[source.port][i].sender.value)) else None
  }

  function Delivered(w: Waiting, source: Endpoint, ingress: Endpoint, ends: map<nat, Ends>): Waiting {
    var taken := Taken(w, source, ingress, ends);
    if taken.None? then w
    else
      var candidates, i := w[source.port], taken.value.0;
      w[source.port := candidates[i := candidates[i].(sender := None)]]
  }

  class Ingress {
    const address: Endpoint
    var waiting: Waiting

    constructor (address: Endpoint)
      ensures this.address == address && waiting == map[]
    {
      this.address := address;
      waiting := map[];
    }

    /** The source port is reserved first; a failed reservation registers nothing. */
    method Register(reserved: Result<u16, int>, fd: nat, channel: nat) returns (r: Result<u16, int>)
      modifies this`waiting
      ensures r == reserved
      ensures waiting == if reserved.Ok? then Registered(old(waiting), reserved.value, fd, channel) else old(waiting)
    {
      if reserved.Ok? {
        var candidates := [];
        if reserved.value in waiting {
          candidates := waiting[reserved.value];
        }
        waiting := waiting[reserved.value := candidates + [Pending(fd, Some(channel))]];
      }
      r := reserved;
    }

    /** The first candidate for the source port with exactly these endpoints gives up its sender. */
    method Deliver(source: Endpoint, ends: map<nat, Ends>) returns (sender: Option<nat>)
      modifies this`waiting
      ensures waiting == Delivered(old(waiting), source, address, ends)
      ensures var taken := Taken(old(waiting), source, address, ends);
              sender == if taken.Some? then Some(taken.value.1) else None
      // Exactly if some candidate of the port is unserved and on a socket connected from the source to the ingress.
      ensures sender.Some? <==>
              && source.port in old(waiting)
              && exists i :: 0 <= i < |old(waiting)[source.port]| &&
                             IsFor(old(waiting)[source.port][i], source, address, ends)
    {
      sender := None;
      if source.port in waiting {
        var candidates := waiting[source.port];
        var i := 0;
        while i < |candidates|
          invariant 0 <= i <= |candidates|
          invariant forall j :: 0 <= j < i ==> !Matches(candidates[j], source, address, ends)
        {
          if Matches(candidates[i], source, address, ends) {
            sender := candidates[i].sender;
            waiting := waiting[source.port := candidates[i := candidates[i].(sender := None)]];
            return;
          }
          i := i + 1;
        }
      }
    }

    /** Dropping a registration: every candidate on its descriptor goes, and an empty list with it. */
    method Drop(port: u16, fd: nat)
      modifies this`waiting
      ensures waiting == Dropped(old(waiting), port, fd)
    {
      if port in waiting {
        var kept := Retain(waiting[port], fd);
        if kept == [] {
          waiting := waiting - {port};
        } else {
          waiting := waiting[port := kept];
        }
      }
    }
  }

  method Retain(candidates: seq<Pending>, fd: nat) returns (kept: seq<Pending>)
    ensures kept == Without(candidates, fd)
  {
    kept := [];
    var i := 0;
    assert candidates[0..] == candidates;
    while i < |candidates|
      invariant 0 <= i <= |candidates|
      invariant Without(candidates, fd) == kept + Without(candidates[i..], fd)
    {
      ghost var later := Without(candidates[i + 1..], fd);
      assert candidates[i..][1..] == candidates[i + 1..];
      if candidates[i].fd != fd {
        Associate(kept, [candidates[i]], later);
        kept := kept + [candidates[i]];
      } else {
        assert [] + later == later;
      }
      i := i + 1;
    }
    assert candidates[i..] == [] && kept + [] == kept;
  }

  // ---- What the specification means ----

  predicate DistinctFds(candidates: seq<Pending>) {
    forall i, j :: 0 <= i < j < |candidates| ==> candidates[i].fd != candidates[j].fd
  }

  /** Among distinct descriptors, exactly one entry goes and the others keep their order. */
  lemma {:induction false} WithoutRemovesOne(candidates: seq<Pending>, i: nat)
    requires DistinctFds(candidates) && i < |candidates|
    ensures Without(candidates, candidates[i].fd) == candidates[..i] + candidates[i + 1..]
  {
    var rest := candidates[1..];
    if i == 0 {
      WithoutNothing(rest, candidates[0].fd);
    } else {
      WithoutRemovesOne(rest, i - 1);
      assert candidates[..i] + candidates[i + 1..] == [candidates[0]] + (rest[..i - 1] + rest[i..]);
    }
  }

  lemma {:induction false} WithoutNothing(candidates: seq<Pending>, fd: nat)
    requires forall i :: 0 <= i < |candidates| ==> candidates[i].fd != fd
    ensures Without(candidates, fd) == candidates
  {
    if candidates != [] {
      WithoutNothing(candidates[1..], fd);
    }
  }

  /** Nothing is invented: what is left was there, and is on another descriptor. */
  lemma {:induction false} WithoutKeeps(candidates: seq<Pending>, fd: nat, p: Pending)
    ensures p in Without(candidates, fd) <==> p in candidates && p.fd != fd
  {
    if candidates != [] {
      WithoutKeeps(candidates[1..], fd, p);
      assert candidates == [candidates[0]] + candidates[1..];
    }
  }

  lemma {:induction false} WithoutStaysDistinct(candidates: seq<Pending>, fd: nat)
    requires DistinctFds(candidates)
    ensures DistinctFds(Without(candidates, fd))
  {
    if candidates != [] {
      var rest := Without(candidates[1..], fd);
      WithoutStaysDistinct(candidates[1..], fd);
      forall j | 0 <= j < |rest|
        ensures rest[j].fd != candidates[0].fd
      {
        WithoutKeeps(candidates[1..], fd, rest[j]);
      }
    }
  }

  /** Registering and dropping again at once restores every list. */
  lemma DropUndoesRegister(w: Waiting, port: u16, fd: nat, channel: nat)
    requires port in w ==> w[port] != [] && forall i :: 0 <= i < |w[port]| ==> w[port][i].fd != fd
    ensures Dropped(Registered(w, port, fd, channel), port, fd) == w
  {
    var before := if port in w then w[port] else [];
    var after := before + [Pending(fd, Some(channel))];
    WithoutAppend(before, [Pending(fd, Some(channel))], fd);
    WithoutNothing(before, fd);
    assert before + [] == before;
  }

  lemma {:induction false} WithoutAppend(a: seq<Pending>, b: seq<Pending>, fd: nat)
    ensures Without(a + b, fd) == Without(a, fd) + Without(b, fd)
  {
    if a == [] {
      assert a + b == b;
    } else {
      assert (a + b)[1..] == a[1..] + b;
      WithoutAppend(a[1..], b, fd);
    }
  }
}
