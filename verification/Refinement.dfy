/** The tables as objects follow the state machine: every event is the critical section that the program runs for it. */
module Refinement {
  import opened Common
  import opened Protocol
  import B = Broker
  import I = Ingress

  ghost predicate Represents(b: B.Broker, i: I.Ingress, s: State)
    reads b, i
  {
    && b.peers == s.peers && b.locks == s.locks && b.available == s.available
    && i.waiting == s.waiting && i.address == s.ingress
  }

  /** The sockets whose mutex nobody refers to any more. */
  function Dead(s: State): set<u64> {
    set c | c in s.locks && s.locks[c] !in Alive(s)
  }

  /** One pass over the lock table removes exactly the dead entries, which is one of the sweeps of the machine. */
  lemma SweepIsAnEvent(s: State)
    ensures Enabled(s, Sweep(Dead(s)))
    ensures B.Swept(s.locks, Alive(s)) == Apply(s, Sweep(Dead(s))).locks
    // Nothing dead is left behind, and nothing alive is lost.
    ensures forall c :: c in B.Swept(s.locks, Alive(s)) <==> c in s.locks && s.locks[c] in Alive(s)
  {
  }

  /** A request's step; what a critical section answers is what the machine goes on with. */
  method PerformStep(b: B.Broker, i: I.Ingress, s: State, t: nat, a: Action) returns (mutex: Option<nat>, granted: bool)
    requires Represents(b, i, s) && StepEnabled(s, t, a)
    modifies b, i
    ensures b.peers == NextPeers(s, t, a) && b.locks == NextLocks(s, t, a) && b.available == NextAvailable(s, a)
    ensures i.waiting == NextWaiting(s, t, a)
    ensures a.Reference? ==> mutex == Some(NextTask(s, t, a).mutex)
    ensures a.Permit? ==> (granted <==> NextTask(s, t, a).phase.Permitted?)
  {
    mutex, granted := None, false;
    var task := s.tasks[t];
    match a {
      case Reference =>
        var found := b.LookupLock(task.cookie, Alive(s), s.nextMutex);
        mutex := Some(found);
      case Clear =>
        b.RemovePeer(task.cookie);
      case Permit =>
        granted := b.TryAcquire();
      case Open =>
        b.OpenPeer(task.cookie, task.target, i.address, s.now);
      case Register(port) =>
        var registered := i.Register(Ok(port), task.fd, t);
      case Mark =>
        b.CommitPeer(task.cookie, s.now);
      case Leave =>
        if task.phase.HasRegistration() {
          i.Drop(task.port, task.fd);
        }
      case DropPeer =>
        b.RemovePeer(task.cookie);
      case DropPermit =>
        b.Release();
      case _ =>
    }
  }

  /** Any event, with the sweep as the program makes it: all dead entries at once. */
  method Perform(b: B.Broker, i: I.Ingress, s: State, e: Event) returns (handed: Option<nat>)
    requires Represents(b, i, s) && Enabled(s, e) && (e.Sweep? ==> e.dead == Dead(s))
    modifies b, i
    ensures Represents(b, i, Apply(s, e))
    ensures e.Deliver? ==> handed == Handed(s, e.source)
  {
    handed := None;
    match e {
      case Step(t, a) =>
        var mutex, granted := PerformStep(b, i, s, t, a);
      case StopWaiting(r) =>
        i.Drop(s.relays[r].port, s.relays[r].fd);
      case Finish(r) =>
        b.Release();
      case Deliver(source) =>
        handed := i.Deliver(source, EndsOf(s));
      case Sweep(dead) =>
        SweepIsAnEvent(s);
        b.SweepLocks(Alive(s));
      case SnapshotFinish(cookies) =>
        b.Collect(s.snapshot.value.started, cookies);
      case _ =>
    }
  }

  /** Over a whole run, new and empty tables end up as the machine's, so its results are results about them. */
  method Replay(states: seq<State>, events: seq<Event>) returns (b: B.Broker, i: I.Ingress)
    requires Run(states, events)
    requires forall k :: 0 <= k < |events| && events[k].Sweep? ==> events[k].dead == Dead(states[k])
    ensures fresh(b) && fresh(i) && Represents(b, i, states[|events|])
  {
    b := new B.Broker();
    i := new I.Ingress(states[0].ingress);
    var k := 0;
    while k < |events|
      invariant 0 <= k <= |events| && fresh(b) && fresh(i) && Represents(b, i, states[k])
    {
      assert StepAt(states, events, k);
      var handed := Perform(b, i, states[k], events[k]);
      k := k + 1;
    }
  }
}
