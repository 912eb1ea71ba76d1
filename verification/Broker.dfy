/** The tables that all connects share: peers, weak references to per-socket locks, and connection permits. */
module Broker {
  import opened Common

  /** `created` is the clock reading at the last change; a pending entry has no native connection yet. */
  datatype Peer = Peer(target: Endpoint, internal: Endpoint, created: nat, pending: bool)

  type Peers = map<u64, Peer>

  /** Weak references by cookie; a mutex is alive while some task owns a strong reference to it. */
  type Locks = map<u64, nat>

  const PERMITS: nat := 128
  const ENOTCONN: int := 107

  // ---- Specification of the critical sections ----

  function Opened(peers: Peers, cookie: u64, target: Endpoint, internal: Endpoint, now: nat): Peers {
    peers[cookie := Peer(target, internal, now, true)]
  }

  function Committed(peers: Peers, cookie: u64, now: nat): Peers {
    if cookie in peers then peers[cookie := peers[cookie].(pending := false, created := now)] else peers
  }

  predicate Survives(cookie: u64, peer: Peer, started: nat, cookies: set<u64>) {
    peer.pending || peer.created >= started || cookie in cookies
  }

  function Collected(peers: Peers, started: nat, cookies: set<u64>): Peers {
    map c | c in peers && Survives(c, peers[c], started, cookies) :: peers[c]
  }

  function LockFor(locks: Locks, alive: set<nat>, cookie: u64, spare: nat): nat {
    if cookie in locks && locks[cookie] in alive then locks[cookie] else spare
  }

  function Swept(locks: Locks, alive: set<nat>): Locks {
    map c | c in locks && locks[c] in alive :: locks[c]
  }

  /** The answer to "who is the peer": the requested target while the kernel peer is the ingress. */
  function Target(peer: Option<Peer>, actual: Result<Endpoint, int>): Result<Option<Endpoint>, int> {
    match peer
    case None => Ok(None)
    case Some(p) =>
      match actual
      case Ok(address) => Ok(if address == p.internal then Some(p.target) else None)
      case Err(errno) => if errno == ENOTCONN then Ok(None) else Err(errno)
  }

  class Broker {
    var peers: Peers
    var locks: Locks
    var available: nat

    constructor ()
      ensures peers == map[] && locks == map[] && available == PERMITS
    {
      peers, locks, available := map[], map[], PERMITS;
    }

    /** Upgrade the weak reference if its mutex is alive, else publish a new one. */
    method LookupLock(cookie: u64, alive: set<nat>, spare: nat) returns (mutex: nat)
      modifies this`locks
      ensures mutex == LockFor(old(locks), alive, cookie, spare)
      ensures locks == old(locks)[cookie := mutex]
    {
      if cookie in locks && locks[cookie] in alive {
        mutex := locks[cookie];
        assert locks == locks[cookie := mutex];
      } else {
        mutex := spare;
        locks := locks[cookie := mutex];
      }
    }

    /** The sweep visits the entries in any order and keeps the live ones. */
    method SweepLocks(alive: set<nat>)
      modifies this`locks
      ensures locks == Swept(old(locks), alive)
    {
      var rest := locks.Keys;
      while rest != {}
        invariant rest <= locks.Keys <= old(locks).Keys
        invariant forall c :: c in locks ==> locks[c] == old(locks)[c]
        invariant forall c :: c in old(locks) && c !in rest ==> (c in locks <==> old(locks)[c] in alive)
        decreases |rest|
      {
        var c :| c in rest;
        if locks[c] !in alive {
          locks := locks - {c};
        }
        rest := rest - {c};
      }
    }

    method RemovePeer(cookie: u64)
      modifies this`peers
      ensures peers == old(peers) - {cookie}
    {
      peers := peers - {cookie};
    }

    method OpenPeer(cookie: u64, target: Endpoint, internal: Endpoint, now: nat)
      modifies this`peers
      ensures peers == Opened(old(peers), cookie, target, internal, now)
    {
      peers := peers[cookie := Peer(target, internal, now, true)];
    }

    method CommitPeer(cookie: u64, now: nat)
      modifies this`peers
      ensures peers == Committed(old(peers), cookie, now)
    {
      if cookie in peers {
        var peer := peers[cookie];
        peer := peer.(pending := false);
        peer := peer.(created := now);
        peers := peers[cookie := peer];
      }
    }

    /** The collector's pass over the table after a snapshot, in any order. */
    method Collect(started: nat, cookies: set<u64>)
      modifies this`peers
      ensures peers == Collected(old(peers), started, cookies)
    {
      var rest := peers.Keys;
      while rest != {}
        invariant rest <= peers.Keys <= old(peers).Keys
        invariant forall c :: c in peers ==> peers[c] == old(peers)[c]
        invariant forall c :: c in old(peers) && c !in rest ==>
                    (c in peers <==> Survives(c, old(peers)[c], started, cookies))
        decreases |rest|
      {
        var c :| c in rest;
        if !Survives(c, peers[c], started, cookies) {
          peers := peers - {c};
        }
        rest := rest - {c};
      }
    }

    method TryAcquire() returns (ok: bool)
      modifies this`available
      ensures ok <==> old(available) > 0
      ensures available == if ok then old(available) - 1 else old(available)
    {
      ok := available > 0;
      if ok {
        available := available - 1;
      }
    }

    /** Dropping a permit. */
    method Release()
      modifies this`available
      ensures available == old(available) + 1
    {
      available := available + 1;
    }

    method TcpTarget(cookie: u64, actual: Result<Endpoint, int>) returns (r: Result<Option<Endpoint>, int>)
      ensures r == Target(if cookie in peers then Some(peers[cookie]) else None, actual)
    {
      if cookie !in peers {
        return Ok(None);
      }
      var peer := peers[cookie];
      if actual.Ok? {
        if actual.value == peer.internal {
          return Ok(Some(peer.target));
        }
        return Ok(None);
      }
      if actual.error == ENOTCONN {
        return Ok(None);
      }
      r := Err(actual.error);
    }
  }
}
