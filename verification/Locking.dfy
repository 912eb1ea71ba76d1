/** Per-socket mutual exclusion, although the mutexes are found through weak references that are swept. */
module Locking {
  import opened Common
  import opened Protocol
  import B = Broker

  /** A strong reference is to the published mutex of its socket, and a mutex has one owner. */
  predicate TaskLock(s: State, t: nat)
    requires t in s.tasks
  {
    var task := s.tasks[t];
    && (task.phase.HasReference() ==> task.cookie in s.locks && s.locks[task.cookie] == task.mutex)
    && (task.phase.HoldsMutex() ==> task.mutex in s.owner && s.owner[task.mutex] == t)
  }

  predicate LockInvariant(s: State) {
    forall t :: t in s.tasks ==> TaskLock(s, t)
  }

  lemma MutualExclusion(s: State, t: nat, u: nat)
    requires LockInvariant(s) && t in s.tasks && u in s.tasks && s.tasks[t].cookie == s.tasks[u].cookie
    requires s.tasks[t].phase.HasReference() && s.tasks[u].phase.HasReference()
    ensures s.tasks[t].mutex == s.tasks[u].mutex
    ensures s.tasks[t].phase.HoldsMutex() && s.tasks[u].phase.HoldsMutex() ==> t == u
  {
    assert TaskLock(s, t) && TaskLock(s, u);
  }

  /** Publishing a new mutex for a socket never replaces one that is still referenced. */
  lemma ReferencedMutexIsFound(s: State, t: nat, cookie: u64, spare: nat)
    requires LockInvariant(s) && t in s.tasks && s.tasks[t].phase.HasReference() && s.tasks[t].cookie == cookie
    ensures B.LockFor(s.locks, Alive(s), cookie, spare) == s.tasks[t].mutex == s.locks[cookie]
  {
    assert TaskLock(s, t);
    assert s.tasks[t].mutex in Alive(s);
  }

  /** Every event keeps it; sweeping dead entries is invisible to every request. */
  lemma KeepsLocks(s: State, e: Event)
    requires LockInvariant(s) && Enabled(s, e)
    ensures LockInvariant(Apply(s, e))
  {
    var n := Apply(s, e);
    forall u | u in n.tasks
      ensures TaskLock(n, u)
    {
      if u in s.tasks {
        assert TaskLock(s, u);
        var phase := s.tasks[u].phase;
        if e.Sweep? && phase.HasReference() {
          assert s.tasks[u].mutex in Alive(s);
        }
        if e.Step? {
          assert TaskLock(s, e.task);
          var cookie := s.tasks[e.task].cookie;
          if e.action.Reference? && u != e.task && phase.HasReference() && s.tasks[u].cookie == cookie {
            ReferencedMutexIsFound(s, u, cookie, s.nextMutex);
          }
        }
      }
    }
  }
}
