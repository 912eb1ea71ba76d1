/** A committed peer entry outlives every interleaving with other connects and the collector. */
module PeerTable {
  import opened Common
  import opened Protocol
  import opened Locking
  import B = Broker

  // ---- What holds of the table in every state ----

  /** While its guard is armed, a request's own entry is there and pending. */
  predicate GuardOk(s: State, t: nat)
    requires t in s.tasks
  {
    var task := s.tasks[t];
    task.phase.HasGuard() ==>
      task.cookie in s.peers && s.peers[task.cookie].target == task.target && s.peers[task.cookie].pending
  }

  /** A pending entry belongs to the request that owns the socket's mutex: it cannot leak. */
  predicate PendingOwned(s: State, c: u64) {
    && c in s.locks && s.locks[c] in s.owner && s.owner[s.locks[c]] in s.tasks
    && var task := s.tasks[s.owner[s.locks[c]]]; task.cookie == c && task.phase.HasGuard()
  }

  predicate PeerOk(s: State, c: u64)
    requires c in s.peers
  {
    s.peers[c].created <= s.now && s.peers[c].internal == s.ingress && (s.peers[c].pending ==> PendingOwned(s, c))
  }

  predicate SnapshotOk(s: State) {
    s.snapshot.Some? ==> s.snapshot.value.started <= s.now && s.snapshot.value.throughout <= s.sockets.Keys
  }

  predicate PeerInvariant(s: State) {
    && (forall t :: t in s.tasks ==> GuardOk(s, t))
    && (forall c :: c in s.peers ==> PeerOk(s, c))
    && SnapshotOk(s)
  }

  lemma KeepsGuard(s: State, e: Event, t: nat)
    requires LockInvariant(s) && Enabled(s, e) && t in Apply(s, e).tasks && (t in s.tasks ==> GuardOk(s, t))
    ensures GuardOk(Apply(s, e), t)
  {
    if e.Step? && e.task == t {
      OwnStepKeepsGuard(s, t, e.action);
    } else if t in s.tasks && s.tasks[t].phase.HasGuard() {
      OthersLeaveEntry(s, e, t);
    }
  }

  lemma OwnStepKeepsGuard(s: State, t: nat, a: Action)
    requires StepEnabled(s, t, a) && GuardOk(s, t) && t in Apply(s, Step(t, a)).tasks
    ensures GuardOk(Apply(s, Step(t, a)), t)
  {
  }

  /** Only the guard's own request and the collector write the entry, and the collector keeps pending ones. */
  lemma OthersLeaveEntry(s: State, e: Event, t: nat)
    requires LockInvariant(s) && Enabled(s, e) && t in s.tasks && s.tasks[t].phase.HasGuard() && GuardOk(s, t)
    requires !(e.Step? && e.task == t)
    ensures var c := s.tasks[t].cookie; c in Apply(s, e).peers && Apply(s, e).peers[c] == s.peers[c]
  {
    if e.Step? && s.tasks[e.task].phase.HasReference() && s.tasks[t].cookie == s.tasks[e.task].cookie {
      MutualExclusion(s, t, e.task);
    }
  }

  /** The owner of a pending entry stays its owner until the entry is committed or removed. */
  lemma KeepsOwned(s: State, e: Event, c: u64)
    requires Enabled(s, e) && LockInvariant(s) && LockInvariant(Apply(s, e)) && PendingOwned(s, c)
    requires var t := s.owner[s.locks[c]];
             t in Apply(s, e).tasks && Apply(s, e).tasks[t].cookie == c && Apply(s, e).tasks[t].phase.HasGuard()
    ensures PendingOwned(Apply(s, e), c)
  {
    var t := s.owner[s.locks[c]];
    assert TaskLock(Apply(s, e), t) && TaskLock(s, t);
  }

  /** Who stays guarded: everyone but the request that marks or removes its entry. */
  lemma GuardStays(s: State, e: Event, t: nat)
    requires Enabled(s, e) && t in s.tasks && s.tasks[t].phase.HasGuard()
    requires e != Step(t, Mark) && e != Step(t, DropPeer) && (e.Start? ==> t != s.nextTask)
    ensures var n := Apply(s, e); t in n.tasks && n.tasks[t].cookie == s.tasks[t].cookie && n.tasks[t].phase.HasGuard()
  {
  }

  lemma OpenIsOwned(s: State, t: nat)
    requires Enabled(s, Step(t, Open)) && LockInvariant(s) && LockInvariant(Apply(s, Step(t, Open)))
    ensures PendingOwned(Apply(s, Step(t, Open)), s.tasks[t].cookie)
  {
    assert TaskLock(Apply(s, Step(t, Open)), t);
  }

  lemma KeepsPeer(s: State, e: Event, c: u64)
    requires Enabled(s, e) && LockInvariant(s) && LockInvariant(Apply(s, e))
    requires (forall t :: t in s.tasks ==> t < s.nextTask) && c in Apply(s, e).peers && (c in s.peers ==> PeerOk(s, c))
    ensures PeerOk(Apply(s, e), c)
  {
    var n := Apply(s, e);
    if e.Step? && e.action.Open? && s.tasks[e.task].cookie == c {
      OpenIsOwned(s, e.task);
    } else if n.peers[c].pending {
      var t := s.owner[s.locks[c]];
      GuardStays(s, e, t);
      KeepsOwned(s, e, c);
    }
  }

  lemma KeepsPeers(s: State, e: Event)
    requires Enabled(s, e) && LockInvariant(s) && LockInvariant(Apply(s, e)) && PeerInvariant(s)
    requires forall t :: t in s.tasks ==> t < s.nextTask
    ensures PeerInvariant(Apply(s, e))
  {
    var n := Apply(s, e);
    forall t | t in n.tasks
      ensures GuardOk(n, t)
    {
      KeepsGuard(s, e, t);
    }
    forall c | c in n.peers
      ensures PeerOk(n, c)
    {
      KeepsPeer(s, e, c);
    }
  }

  // ---- Committed entries of connected sockets ----

  /** A request in one of these phases may still remove or replace the entry of its socket. */
  predicate MayTouch(phase: Phase) {
    phase.Closed? || phase.Cleared? || phase.Permitted? || phase.HasGuard()
  }

  /** Committed, out of reach of every request, and older snapshots cannot miss it. */
  predicate Settled(s: State, c: u64) {
    && c in s.peers && !s.peers[c].pending
    && (forall t :: t in s.tasks && s.tasks[t].cookie == c ==> !MayTouch(s.tasks[t].phase))
    && (s.snapshot.Some? ==> s.peers[c].created >= s.snapshot.value.started || c in s.snapshot.value.throughout)
  }

  lemma MarkSettles(s: State, t: nat)
    requires LockInvariant(s) && PeerInvariant(s) && Enabled(s, Step(t, Mark))
    ensures var n, c := Apply(s, Step(t, Mark)), s.tasks[t].cookie;
            Settled(n, c) && n.peers[c] == B.Peer(s.tasks[t].target, s.ingress, s.now, false)
  {
    var n, c := Apply(s, Step(t, Mark)), s.tasks[t].cookie;
    assert GuardOk(s, t) && PeerOk(s, c);
    forall u | u in n.tasks && n.tasks[u].cookie == c
      ensures !MayTouch(n.tasks[u].phase)
    {
      if u != t && s.tasks[u].phase.HasReference() {
        MutualExclusion(s, t, u);
      }
    }
  }

  // ---- Entries of sockets that are gone ----

  predicate OpensFor(s: State, e: Event, c: u64) {
    e.Step? && e.action.Open? && e.task in s.tasks && s.tasks[e.task].cookie == c
  }

  /** If there is an entry, it was committed at `created`, and no request is about to commit another. */
  predicate CommittedAt(s: State, c: u64, created: nat) {
    && (c in s.peers ==> !s.peers[c].pending && s.peers[c].created == created)
    && (forall t :: t in s.tasks && s.tasks[t].cookie == c ==> !s.tasks[t].phase.HasGuard())
  }

  lemma MarkCommits(s: State, t: nat)
    requires LockInvariant(s) && PeerInvariant(s) && Enabled(s, Step(t, Mark))
    ensures CommittedAt(Apply(s, Step(t, Mark)), s.tasks[t].cookie, s.now)
  {
    MarkSettles(s, t);
  }

  /** Only opening it again gives a committed entry another stamp. */
  lemma StaysCommittedAt(s: State, e: Event, c: u64, created: nat)
    requires Enabled(s, e) && CommittedAt(s, c, created) && !OpensFor(s, e, c)
    ensures CommittedAt(Apply(s, e), c, created)
  {
    var n := Apply(s, e);
    forall t | t in n.tasks && n.tasks[t].cookie == c
      ensures !n.tasks[t].phase.HasGuard()
    {
    }
  }

  /** No event moves a settled entry while the socket stays connected. */
  lemma StaysSettled(s: State, e: Event, c: u64)
    requires Enabled(s, e) && Settled(s, c) && c in s.sockets && c in Apply(s, e).sockets
    ensures Settled(Apply(s, e), c) && Apply(s, e).peers[c] == s.peers[c]
  {
    var n := Apply(s, e);
    forall t | t in n.tasks && n.tasks[t].cookie == c
      ensures !MayTouch(n.tasks[t].phase)
    {
    }
  }
}
