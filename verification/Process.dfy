/** Reaping the managed command tree and forwarding termination signals through it. */
module Process {
  import opened Common

  type Pid = int

  // ---- A snapshot of /proc ----

  datatype TaskEntry = TaskGone | TaskUnreadable | Children(pids: seq<Pid>)

  datatype Entry = Gone | Unreadable | Tasks(tasks: seq<TaskEntry>)

  type Snapshot = map<Pid, Entry>

  function EntryOf(s: Snapshot, p: Pid): Entry {
    if p in s then s[p] else Gone
  }

  /** The children listed by the readable tasks, in order. */
  function TaskKids(tasks: seq<TaskEntry>): seq<Pid> {
    if tasks == [] then []
    else TaskKids(tasks[..|tasks| - 1]) + (if tasks[|tasks| - 1].Children? then tasks[|tasks| - 1].pids else [])
  }

  function EntryKids(e: Entry): seq<Pid> {
    if e.Tasks? then TaskKids(e.tasks) else []
  }

  predicate EntryFails(e: Entry) {
    e.Unreadable? || (e.Tasks? && TaskUnreadable in e.tasks)
  }

  /** The child relation of a snapshot, and the processes that could not be read. */
  datatype Tree = Tree(kids: map<Pid, seq<Pid>>, failing: set<Pid>)

  function TreeOf(s: Snapshot): Tree {
    Tree(map p | p in s :: EntryKids(s[p]), set p | p in s && EntryFails(s[p]))
  }

  function Kids(t: Tree, p: Pid): seq<Pid> {
    if p in t.kids then t.kids[p] else []
  }

  predicate IsParent(t: Tree, p: Pid, c: Pid) {
    c in Kids(t, p)
  }

  predicate Fails(t: Tree, p: Pid) {
    p in t.failing
  }

  // ---- Reachability ----

  ghost predicate IsPath(t: Tree, path: seq<Pid>) {
    path != [] && forall i :: 0 < i < |path| ==> path[i] in Kids(t, path[i - 1])
  }

  ghost predicate Reaches(t: Tree, root: Pid, p: Pid) {
    exists path :: IsPath(t, path) && path[0] == root && path[|path| - 1] == p
  }

  lemma ReachesSelf(t: Tree, root: Pid)
    ensures Reaches(t, root, root)
  {
    assert IsPath(t, [root]) && [root][0] == root;
  }

  lemma ReachesKid(t: Tree, root: Pid, p: Pid, c: Pid)
    requires Reaches(t, root, p) && c in Kids(t, p)
    ensures Reaches(t, root, c)
  {
    var path :| IsPath(t, path) && path[0] == root && path[|path| - 1] == p;
    var longer := path + [c];
    assert IsPath(t, longer) && longer[0] == root && longer[|longer| - 1] == c;
  }

  /** A set closed under children holds everything reachable from its members. */
  lemma {:induction false} ClosedHoldsPath(t: Tree, closed: set<Pid>, path: seq<Pid>)
    requires IsPath(t, path) && path[0] in closed
    requires forall p, c :: p in closed && c in Kids(t, p) ==> c in closed
    ensures path[|path| - 1] in closed
  {
    if |path| > 1 {
      var shorter := path[..|path| - 1];
      assert IsPath(t, shorter);
      ClosedHoldsPath(t, closed, shorter);
    }
  }

  // ---- The worklist ----

  datatype Work = Work(pending: seq<Pid>, descendants: seq<Pid>, seen: set<Pid>)

  ghost predicate Distinct(xs: seq<Pid>) {
    forall i, j :: 0 <= i < j < |xs| ==> xs[i] != xs[j]
  }

  function Universe(t: Tree, root: Pid): set<Pid> {
    {root} + set p, c | p in t.kids.Keys && c in Kids(t, p) :: c
  }

  /** A parent of entry `k` is the root or stands earlier in the list. */
  ghost predicate HasEarlierParent(t: Tree, root: Pid, xs: seq<Pid>, k: nat)
    requires k < |xs|
  {
    IsParent(t, root, xs[k]) || exists j :: 0 <= j < k && IsParent(t, xs[j], xs[k])
  }

  /** What holds of the lists at every moment of the traversal. */
  ghost predicate Sound(t: Tree, root: Pid, w: Work) {
    && Distinct(w.descendants) && root !in w.descendants
    && w.seen == {root} + (set p | p in w.descendants)
    && w.seen <= Universe(t, root)
    && (forall p :: p in w.pending ==> p in w.seen)
    && (forall p :: p in w.seen ==> Reaches(t, root, p))
    && (forall k :: 0 <= k < |w.descendants| ==> HasEarlierParent(t, root, w.descendants, k))
  }

  /** Everything seen is still pending or has all its children seen. */
  ghost predicate Expanded(t: Tree, w: Work) {
    forall p :: p in w.seen ==> p in w.pending || (!Fails(t, p) && forall c :: c in Kids(t, p) ==> c in w.seen)
  }

  /** A child not seen before becomes pending and a descendant. */
  function Discover(w: Work, child: Pid): Work {
    if child in w.seen then w
    else Work(w.pending + [child], w.descendants + [child], w.seen + {child})
  }

  function DiscoverAll(w: Work, children: seq<Pid>): Work {
    if children == [] then w else Discover(DiscoverAll(w, children[..|children| - 1]), children[|children| - 1])
  }

  lemma DiscoverKeepsSound(t: Tree, root: Pid, w: Work, parent: Pid, child: Pid)
    requires Sound(t, root, w) && parent in w.seen && child in Kids(t, parent)
    ensures Sound(t, root, Discover(w, child))
    ensures w.descendants <= Discover(w, child).descendants && w.pending <= Discover(w, child).pending
    ensures w.seen <= Discover(w, child).seen && child in Discover(w, child).seen
  {
    if child !in w.seen {
      var next := Discover(w, child);
      ReachesKid(t, root, parent, child);
      assert parent in t.kids.Keys;
      forall k | 0 <= k < |next.descendants| ensures HasEarlierParent(t, root, next.descendants, k) {
        if k < |w.descendants| {
          assert HasEarlierParent(t, root, w.descendants, k);
          if !IsParent(t, root, next.descendants[k]) {
            var j :| 0 <= j < k && IsParent(t, w.descendants[j], w.descendants[k]);
            assert IsParent(t, next.descendants[j], next.descendants[k]);
          }
        } else if parent != root {
          var j :| 0 <= j < |w.descendants| && w.descendants[j] == parent;
          assert IsParent(t, next.descendants[j], next.descendants[k]);
        }
      }
    }
  }

  lemma {:induction false} DiscoverAllKeepsSound(t: Tree, root: Pid, w: Work, parent: Pid, children: seq<Pid>)
    requires Sound(t, root, w) && parent in w.seen && forall c :: c in children ==> c in Kids(t, parent)
    ensures var next := DiscoverAll(w, children);
            && Sound(t, root, next) && w.pending <= next.pending && w.seen <= next.seen
            && (forall c :: c in children ==> c in next.seen)
            && (forall p :: p in next.seen ==> p in w.seen || p in next.pending)
            && (next.seen == w.seen ==> next.pending == w.pending)
  {
    if children != [] {
      var init, last := children[..|children| - 1], children[|children| - 1];
      DiscoverAllKeepsSound(t, root, w, parent, init);
      DiscoverKeepsSound(t, root, DiscoverAll(w, init), parent, last);
    }
  }

  // ---- The traversal ----

  /** The body of the traversal for one process; fails on an unreadable task. */
  method Visit(s: Snapshot, p: Pid, w: Work) returns (ok: bool, next: Work)
    ensures ok <==> !Fails(TreeOf(s), p)
    ensures ok ==> next == DiscoverAll(w, Kids(TreeOf(s), p))
  {
    next := w;
    match EntryOf(s, p) {
      case Gone => ok := true;
      case Unreadable => ok := false;
      case Tasks(tasks) =>
        var i := 0;
        while i < |tasks|
          invariant 0 <= i <= |tasks| && TaskUnreadable !in tasks[..i]
          invariant next == DiscoverAll(w, TaskKids(tasks[..i]))
        {
          assert tasks[..i + 1][..i] == tasks[..i];
          if tasks[i].TaskUnreadable? {
            return false, next;
          }
          if tasks[i].Children? {
            next := AddChildren(next, tasks[i].pids, w, TaskKids(tasks[..i]));
          } else {
            assert TaskKids(tasks[..i]) + [] == TaskKids(tasks[..i]);
          }
          i := i + 1;
        }
        assert tasks[..i] == tasks;
        ok := true;
    }
  }

  method AddChildren(w: Work, children: seq<Pid>, ghost start: Work, ghost before: seq<Pid>) returns (next: Work)
    requires w == DiscoverAll(start, before)
    ensures next == DiscoverAll(start, before + children)
  {
    next := w;
    var i := 0;
    assert before + [] == before;
    while i < |children|
      invariant 0 <= i <= |children|
      invariant next == DiscoverAll(start, before + children[..i])
    {
      assert (before + children[..i + 1])[..|before| + i] == before + children[..i];
      next := Discover(next, children[i]);
      i := i + 1;
    }
    assert children[..i] == children;
  }

  /** The traversal ends for every finite snapshot and finds exactly the processes below the root. */
  method Descendants(s: Snapshot, root: Pid, ghost t: Tree) returns (r: Option<seq<Pid>>)
    requires t == TreeOf(s)
    ensures r.None? <==> exists p :: Reaches(t, root, p) && Fails(t, p)
    ensures r.Some? ==> Distinct(r.value) && root !in r.value
    ensures r.Some? ==> forall p :: Reaches(t, root, p) <==> p == root || p in r.value
    ensures r.Some? ==> forall k :: 0 <= k < |r.value| ==> HasEarlierParent(t, root, r.value, k)
  {
    var w := Work([root], [], {root});
    ReachesSelf(t, root);
    while w.pending != []
      invariant Sound(t, root, w) && Expanded(t, w)
      decreases Universe(t, root) - w.seen, |w.pending|
    {
      var p := w.pending[|w.pending| - 1];
      ghost var before := w;
      w := w.(pending := w.pending[..|w.pending| - 1]);
      ghost var popped := w;
      var ok;
      ok, w := Visit(s, p, w);
      if !ok {
        return None;
      }
      DiscoverAllKeepsSound(t, root, popped, p, Kids(t, p));
      StillExpanded(t, before, popped, w, p);
      assert w.seen == popped.seen || Universe(t, root) - w.seen < Universe(t, root) - popped.seen;
    }
    forall p | Reaches(t, root, p) ensures p in w.seen && !Fails(t, p) {
      var path :| IsPath(t, path) && path[0] == root && path[|path| - 1] == p;
      ClosedHoldsPath(t, w.seen, path);
    }
    r := Some(w.descendants);
  }

  lemma StillExpanded(t: Tree, before: Work, popped: Work, after: Work, p: Pid)
    requires Expanded(t, before) && before.pending != [] && p == before.pending[|before.pending| - 1]
    requires popped == before.(pending := before.pending[..|before.pending| - 1])
    requires !Fails(t, p) && forall c :: c in Kids(t, p) ==> c in after.seen
    requires popped.pending <= after.pending && popped.seen <= after.seen
    requires forall q :: q in after.seen ==> q in popped.seen || q in after.pending
    ensures Expanded(t, after)
  {
    forall q | q in after.seen
      ensures q in after.pending || (!Fails(t, q) && forall c :: c in Kids(t, q) ==> c in after.seen)
    {
      if q !in after.pending && q != p {
        assert q !in before.pending by {
          assert forall k :: 0 <= k < |popped.pending| ==> popped.pending[k] == after.pending[k];
        }
      }
    }
  }

  // ---- Signalling ----

  datatype KillOutcome = Delivered | NoSuchProcess | KillFailed

  function Reversed(xs: seq<Pid>): (r: seq<Pid>)
    ensures |r| == |xs| && forall i :: 0 <= i < |xs| ==> r[i] == xs[|xs| - 1 - i]
  {
    if xs == [] then [] else [xs[|xs| - 1]] + Reversed(xs[..|xs| - 1])
  }

  /** Signals in the given order and stops at the first failure. */
  method SendAll(order: seq<Pid>, kill: Pid -> KillOutcome) returns (ok: bool, signalled: seq<Pid>)
    ensures signalled <= order
    ensures ok ==> signalled == order && forall p :: p in order ==> !kill(p).KillFailed?
    ensures !ok ==> signalled != [] && kill(signalled[|signalled| - 1]).KillFailed?
  {
    signalled := [];
    var i := 0;
    while i < |order|
      invariant 0 <= i <= |order| && signalled == order[..i]
      invariant forall k :: 0 <= k < i ==> !kill(order[k]).KillFailed?
    {
      signalled := signalled + [order[i]];
      if kill(order[i]).KillFailed? {
        return false, signalled;
      }
      i := i + 1;
    }
    ok := true;
  }

  /** Signals in reverse order of discovery; an unreadable process anywhere below the root means no signal at all. */
  method SignalDescendants(s: Snapshot, root: Pid, kill: Pid -> KillOutcome, ghost parents: map<Pid, Pid>)
    returns (ok: bool, signalled: seq<Pid>)
    ensures (exists p :: Reaches(TreeOf(s), root, p) && Fails(TreeOf(s), p)) ==> !ok && signalled == []
    ensures Distinct(signalled) && root !in signalled
    ensures forall p :: p in signalled ==> Reaches(TreeOf(s), root, p)
    ensures ok ==> forall p :: Reaches(TreeOf(s), root, p) && p != root ==> p in signalled
    // It succeeds exactly if every process can be read and every one below the root can be signalled.
    ensures ok <==>
            forall p :: Reaches(TreeOf(s), root, p) ==> !Fails(TreeOf(s), p) && (p != root ==> !kill(p).KillFailed?)
    ensures OneParent(TreeOf(s), parents) ==> ChildrenFirst(TreeOf(s), signalled)
  {
    var found := Descendants(s, root, TreeOf(s));
    if found.None? {
      return false, [];
    }
    var order := Reversed(found.value);
    ReversedKeeps(found.value);
    if OneParent(TreeOf(s), parents) {
      ReversedIsChildrenFirst(TreeOf(s), root, found.value, parents);
    }
    ok, signalled := SendAll(order, kill);
    PrefixKeeps(TreeOf(s), order, signalled);
  }

  /** Every listed child has one parent, recorded in `parents`. */
  ghost predicate OneParent(t: Tree, parents: map<Pid, Pid>) {
    forall p, c :: IsParent(t, p, c) ==> c in parents && parents[c] == p
  }

  /** No process comes before one of its own children. */
  ghost predicate ChildrenFirst(t: Tree, order: seq<Pid>) {
    forall i, j :: 0 <= i < j < |order| ==> !IsParent(t, order[i], order[j])
  }

  lemma ReversedKeeps(xs: seq<Pid>)
    requires Distinct(xs)
    ensures Distinct(Reversed(xs))
    ensures forall p :: p in Reversed(xs) <==> p in xs
  {
    forall p ensures p in Reversed(xs) <==> p in xs {
      if p in xs {
        var i :| 0 <= i < |xs| && xs[i] == p;
        assert Reversed(xs)[|xs| - 1 - i] == p;
      }
    }
  }

  lemma PrefixKeeps(t: Tree, order: seq<Pid>, prefix: seq<Pid>)
    requires prefix <= order && Distinct(order)
    ensures Distinct(prefix) && forall p :: p in prefix ==> p in order
    ensures ChildrenFirst(t, order) ==> ChildrenFirst(t, prefix)
  {
  }

  /** With one parent each, discovery puts every parent before its children. */
  lemma ParentIsEarlier(t: Tree, root: Pid, xs: seq<Pid>, child: nat, parent: nat, parents: map<Pid, Pid>)
    requires OneParent(t, parents) && Distinct(xs) && root !in xs
    requires child < parent < |xs| && HasEarlierParent(t, root, xs, child)
    ensures !IsParent(t, xs[parent], xs[child])
  {
    if IsParent(t, root, xs[child]) {
      assert parents[xs[child]] == root != xs[parent];
    } else {
      var k :| 0 <= k < child && IsParent(t, xs[k], xs[child]);
      assert parents[xs[child]] == xs[k] != xs[parent];
    }
  }

  lemma {:induction false} ReversedIsChildrenFirst(t: Tree, root: Pid, xs: seq<Pid>, parents: map<Pid, Pid>)
    requires OneParent(t, parents) && Distinct(xs) && root !in xs
    requires forall k :: 0 <= k < |xs| ==> HasEarlierParent(t, root, xs, k)
    ensures ChildrenFirst(t, Reversed(xs))
  {
    var order := Reversed(xs);
    forall i, j | 0 <= i < j < |order| ensures !IsParent(t, order[i], order[j]) {
      assert order[i] == xs[|xs| - 1 - i] && order[j] == xs[|xs| - 1 - j];
      ParentIsEarlier(t, root, xs, |xs| - 1 - j, |xs| - 1 - i, parents);
    }
  }

  // ---- Waiting for the tree ----

  const TERMINATION_GRACE: nat := 2_000_000_000 // nanoseconds
  const SIGKILL: int := 9

  datatype Reaped = ExitedWith(pid: Pid, code: int) | KilledBy(pid: Pid, signal: int) | OtherStatus

  datatype ReapEnd = StillAlive | NoChildren | ReapError

  datatype Received = Nothing | ChildExit | Terminate(signal: int, at: nat) | WaitError

  /** One turn: statuses collected, why collecting stopped, the time, whether signalling works, and what came. */
  datatype Round = Round(reaped: seq<Reaped>, end: ReapEnd, now: nat, signalled: bool, received: Received)

  datatype WaitOutcome = Waiting | Finished(code: int) | NoStatus | WaitFailed

  function StatusOf(event: Reaped, command: Pid): Option<int> {
    match event
    case ExitedWith(pid, code) => if pid == command then Some(code) else None
    case KilledBy(pid, signal) => if pid == command then Some(128 + signal) else None
    case OtherStatus => None
  }

  /** The last status reported for the command. */
  function LastStatus(events: seq<Reaped>, command: Pid, before: Option<int>): Option<int> {
    if events == [] then before
    else
      var last := StatusOf(events[|events| - 1], command);
      if last.Some? then last else LastStatus(events[..|events| - 1], command, before)
  }

  // The history of a schedule, over its first `n` turns.

  function StatusAfter(rounds: seq<Round>, command: Pid, n: nat): Option<int>
    requires n <= |rounds|
  {
    if n == 0 then None else LastStatus(rounds[n - 1].reaped, command, StatusAfter(rounds, command, n - 1))
  }

  /** When the first termination signal came. */
  function FirstTermination(rounds: seq<Round>, n: nat): Option<nat>
    requires n <= |rounds|
  {
    if n == 0 then None
    else
      var earlier := FirstTermination(rounds, n - 1);
      if earlier.Some? then earlier
      else if rounds[n - 1].received.Terminate? then Some(rounds[n - 1].received.at)
      else None
  }

  /** Which termination signal came last. */
  function LastTermination(rounds: seq<Round>, n: nat): Option<int>
    requires n <= |rounds|
  {
    if n == 0 then None
    else if rounds[n - 1].received.Terminate? then Some(rounds[n - 1].received.signal)
    else LastTermination(rounds, n - 1)
  }

  /** What is forwarded in turn `n`, as the whole history before it determines it. */
  function Forwarded(rounds: seq<Round>, n: nat): Option<int>
    requires n < |rounds|
  {
    match (FirstTermination(rounds, n), LastTermination(rounds, n))
    case (Some(first), Some(signal)) => Some(if rounds[n].now >= first + TERMINATION_GRACE then SIGKILL else signal)
    case _ => None
  }

  /** A system call the loop depends on fails in turn `n`. */
  predicate Breaks(rounds: seq<Round>, n: nat)
    requires n < |rounds|
  {
    rounds[n].end.ReapError? || rounds[n].received.WaitError? || (Forwarded(rounds, n).Some? && !rounds[n].signalled)
  }

  method Reap(events: seq<Reaped>, command: Pid, before: Option<int>) returns (status: Option<int>)
    ensures status == LastStatus(events, command, before)
  {
    status := before;
    var i := 0;
    while i < |events|
      invariant 0 <= i <= |events| && status == LastStatus(events[..i], command, before)
    {
      assert events[..i + 1][..i] == events[..i];
      match events[i] {
        case ExitedWith(pid, code) => if pid == command { status := Some(code); }
        case KilledBy(pid, signal) => if pid == command { status := Some(128 + signal); }
        case OtherStatus =>
      }
      i := i + 1;
    }
    assert events[..i] == events;
  }

  /** The loop over any finite schedule; `forwarded` holds the signal sent to the descendants in each turn. */
  method WaitForCommandTree(command: Pid, rounds: seq<Round>)
    returns (outcome: WaitOutcome, forwarded: seq<Option<int>>)
    ensures AllForwarded(rounds, forwarded)
    // It ends only when no child is left, with the command's last status, or when a call fails.
    ensures outcome.Finished? || outcome.NoStatus? ==>
              && |forwarded| < |rounds| && GoesOn(rounds, |forwarded|) && rounds[|forwarded|].end.NoChildren?
              && StatusAfter(rounds, command, |forwarded| + 1) == if outcome.Finished? then Some(outcome.code) else None
    ensures outcome.WaitFailed? ==>
              exists k: nat ::
                |forwarded| - 1 <= k <= |forwarded| && k < |rounds| && GoesOn(rounds, k) && Breaks(rounds, k)
    ensures outcome.Waiting? ==> |forwarded| == |rounds| && GoesOn(rounds, |rounds|)
  {
    var status: Option<int> := None;
    var termination: Option<(int, nat)> := None;
    forwarded := [];
    var i := 0;
    while i < |rounds|
      invariant 0 <= i <= |rounds| && |forwarded| == i && status == StatusAfter(rounds, command, i)
      invariant GoesOn(rounds, i) && AllForwarded(rounds, forwarded)
      invariant Remembers(rounds, i, termination)
    {
      var sent;
      outcome, status, termination, sent := WaitTurn(command, rounds, i, status, termination);
      if sent.Some? {
        OneMoreForwarded(rounds, forwarded, sent.value);
        forwarded := forwarded + [sent.value];
      }
      if !outcome.Waiting? {
        assert outcome.WaitFailed? ==> GoesOn(rounds, i) && Breaks(rounds, i);
        return;
      }
      OneMore(rounds, i);
      i := i + 1;
    }
    outcome := Waiting;
  }

  lemma OneMore(rounds: seq<Round>, n: nat)
    requires n < |rounds| && GoesOn(rounds, n) && rounds[n].end.StillAlive? && !Breaks(rounds, n)
    ensures GoesOn(rounds, n + 1)
  {
  }

  /** What was forwarded, turn by turn, is what the history of each turn determines. */
  predicate AllForwarded(rounds: seq<Round>, forwarded: seq<Option<int>>) {
    |forwarded| <= |rounds| && forall k :: 0 <= k < |forwarded| ==> forwarded[k] == Forwarded(rounds, k)
  }

  lemma OneMoreForwarded(rounds: seq<Round>, forwarded: seq<Option<int>>, signal: Option<int>)
    requires AllForwarded(rounds, forwarded) && |forwarded| < |rounds| && signal == Forwarded(rounds, |forwarded|)
    ensures AllForwarded(rounds, forwarded + [signal])
  {
  }

  /** One turn: reap, forward a signal if one is due, and wait; `sent` is what was forwarded, if it came to that. */
  method WaitTurn(command: Pid, rounds: seq<Round>, i: nat, before: Option<int>, kept: Option<(int, nat)>)
    returns (outcome: WaitOutcome, status: Option<int>, termination: Option<(int, nat)>, sent: Option<Option<int>>)
    requires i < |rounds| && before == StatusAfter(rounds, command, i) && Remembers(rounds, i, kept)
    ensures sent.Some? ==> sent.value == Forwarded(rounds, i)
    ensures outcome.Waiting? ==>
              && sent.Some? && rounds[i].end.StillAlive? && !Breaks(rounds, i)
              && status == StatusAfter(rounds, command, i + 1) && Remembers(rounds, i + 1, termination)
    ensures outcome.Finished? || outcome.NoStatus? ==>
              && sent.None? && rounds[i].end.NoChildren?
              && StatusAfter(rounds, command, i + 1) == if outcome.Finished? then Some(outcome.code) else None
    ensures outcome.WaitFailed? ==> Breaks(rounds, i)
  {
    var round := rounds[i];
    outcome, termination, sent := WaitFailed, kept, None;
    status := Reap(round.reaped, command, before);
    if round.end.NoChildren? {
      outcome := if status.Some? then Finished(status.value) else NoStatus;
      return;
    }
    if round.end.ReapError? {
      return;
    }
    var signal := SignalNow(rounds, i, kept);
    sent := Some(signal);
    if (signal.Some? && !round.signalled) || round.received.WaitError? {
      return;
    }
    outcome := Waiting;
    termination := Record(rounds, i, kept);
  }

  /** Nothing ends the loop in its first `n` turns. */
  predicate GoesOn(rounds: seq<Round>, n: nat)
    requires n <= |rounds|
  {
    forall k :: 0 <= k < n ==> rounds[k].end.StillAlive? && !Breaks(rounds, k)
  }

  /** The pair kept by the loop: the last signal and the first deadline. */
  predicate Remembers(rounds: seq<Round>, n: nat, termination: Option<(int, nat)>)
    requires n <= |rounds|
  {
    && LastTermination(rounds, n) == (if termination.Some? then Some(termination.value.0) else None)
    && FirstTermination(rounds, n).Some? == termination.Some?
    && (termination.Some? ==> termination.value.1 == FirstTermination(rounds, n).value + TERMINATION_GRACE)
  }

  method SignalNow(rounds: seq<Round>, n: nat, termination: Option<(int, nat)>) returns (sent: Option<int>)
    requires n < |rounds| && Remembers(rounds, n, termination)
    ensures sent == Forwarded(rounds, n)
  {
    sent := None;
    if termination.Some? {
      var (signal, deadline) := termination.value;
      sent := Some(if deadline <= rounds[n].now then SIGKILL else signal);
    }
  }

  /** The first deadline is preserved, the signal is the one just received. */
  method Record(rounds: seq<Round>, n: nat, termination: Option<(int, nat)>) returns (next: Option<(int, nat)>)
    requires n < |rounds| && Remembers(rounds, n, termination)
    ensures Remembers(rounds, n + 1, next)
  {
    next := termination;
    var received := rounds[n].received;
    if received.Terminate? {
      var deadline := if termination.Some? then termination.value.1 else received.at + TERMINATION_GRACE;
      next := Some((received.signal, deadline));
    }
  }

  ghost predicate Monotone(rounds: seq<Round>) {
    forall i, j :: 0 <= i < j < |rounds| ==> rounds[i].now <= rounds[j].now
  }

  lemma {:induction false} FirstTerminationIsKept(rounds: seq<Round>, i: nat, j: nat)
    requires i <= j <= |rounds| && FirstTermination(rounds, i).Some?
    ensures FirstTermination(rounds, j) == FirstTermination(rounds, i)
    ensures LastTermination(rounds, j).Some?
    decreases j
  {
    if i < j {
      FirstTerminationIsKept(rounds, i, j - 1);
    } else {
      TerminationsAgree(rounds, i);
    }
  }

  lemma {:induction false} TerminationsAgree(rounds: seq<Round>, n: nat)
    requires n <= |rounds|
    ensures FirstTermination(rounds, n).Some? <==> LastTermination(rounds, n).Some?
  {
    if n > 0 {
      TerminationsAgree(rounds, n - 1);
    }
  }

  /** Later signals never postpone the deadline: from the first kill on, every turn kills. */
  lemma KillIsFinal(rounds: seq<Round>, i: nat, j: nat)
    requires Monotone(rounds) && i <= j < |rounds| && FirstTermination(rounds, i).Some?
    requires FirstTermination(rounds, i).value + TERMINATION_GRACE <= rounds[i].now
    ensures Forwarded(rounds, j) == Some(SIGKILL)
  {
    FirstTerminationIsKept(rounds, i, j);
    assert rounds[i].now <= rounds[j].now;
  }

  // ---- The history, said of its events ----

  predicate About(event: Reaped, command: Pid) {
    (event.ExitedWith? || event.KilledBy?) && event.pid == command
  }

  /** The exit code of the command, or 128 and the signal that killed it. */
  function CodeOf(event: Reaped): int
    requires !event.OtherStatus?
  {
    if event.ExitedWith? then event.code else 128 + event.signal
  }

  predicate Silent(events: seq<Reaped>, command: Pid) {
    forall i :: 0 <= i < |events| ==> !About(events[i], command)
  }

  lemma {:induction false} SilenceKeepsStatus(events: seq<Reaped>, command: Pid, before: Option<int>)
    requires Silent(events, command)
    ensures LastStatus(events, command, before) == before
  {
    if events != [] {
      SilenceKeepsStatus(events[..|events| - 1], command, before);
    }
  }

  lemma {:induction false} LastReportIsStatus(events: seq<Reaped>, command: Pid, before: Option<int>, k: nat)
    requires k < |events| && About(events[k], command) && Silent(events[k + 1..], command)
    ensures LastStatus(events, command, before) == Some(CodeOf(events[k]))
  {
    var init := events[..|events| - 1];
    if k < |init| {
      assert events[|events| - 1] == events[k + 1..][|events| - k - 2];
      assert init[k + 1..] == events[k + 1..][..|init| - k - 1];
      LastReportIsStatus(init, command, before, k);
    }
  }

  /** The status is that of the last report about the command, in whatever turn it came; without one there is none. */
  lemma {:induction false} LastReportCounts(rounds: seq<Round>, command: Pid, n: nat, i: nat, k: nat)
    requires i < n <= |rounds| && k < |rounds[i].reaped|
    requires About(rounds[i].reaped[k], command) && Silent(rounds[i].reaped[k + 1..], command)
    requires forall j :: i < j < n ==> Silent(rounds[j].reaped, command)
    ensures StatusAfter(rounds, command, n) == Some(CodeOf(rounds[i].reaped[k]))
  {
    var before := StatusAfter(rounds, command, n - 1);
    if i == n - 1 {
      LastReportIsStatus(rounds[i].reaped, command, before, k);
    } else {
      LastReportCounts(rounds, command, n - 1, i, k);
      SilenceKeepsStatus(rounds[n - 1].reaped, command, before);
    }
  }

  lemma {:induction false} NoReportNoStatus(rounds: seq<Round>, command: Pid, n: nat)
    requires n <= |rounds| && forall j :: 0 <= j < n ==> Silent(rounds[j].reaped, command)
    ensures StatusAfter(rounds, command, n) == None
  {
    if n > 0 {
      NoReportNoStatus(rounds, command, n - 1);
      SilenceKeepsStatus(rounds[n - 1].reaped, command, None);
    }
  }

  /** The first termination signal came in turn `f`, the last before turn `n` in turn `l`. */
  predicate Between(rounds: seq<Round>, f: nat, l: nat, n: nat) {
    && f <= l < n <= |rounds| && rounds[f].received.Terminate? && rounds[l].received.Terminate?
    && (forall i :: 0 <= i < f ==> !rounds[i].received.Terminate?)
    && (forall i :: l < i < n ==> !rounds[i].received.Terminate?)
  }

  lemma {:induction false} FirstIs(rounds: seq<Round>, f: nat, n: nat)
    requires f < n <= |rounds| && rounds[f].received.Terminate?
    requires forall i :: 0 <= i < f ==> !rounds[i].received.Terminate?
    ensures FirstTermination(rounds, n) == Some(rounds[f].received.at)
  {
    if f < n - 1 {
      FirstIs(rounds, f, n - 1);
    } else {
      NoneYet(rounds, f);
    }
  }

  lemma {:induction false} NoneYet(rounds: seq<Round>, n: nat)
    requires n <= |rounds| && forall i :: 0 <= i < n ==> !rounds[i].received.Terminate?
    ensures FirstTermination(rounds, n) == None && LastTermination(rounds, n) == None
  {
    if n > 0 {
      NoneYet(rounds, n - 1);
    }
  }

  lemma {:induction false} LastIs(rounds: seq<Round>, l: nat, n: nat)
    requires l < n <= |rounds| && rounds[l].received.Terminate?
    requires forall i :: l < i < n ==> !rounds[i].received.Terminate?
    ensures LastTermination(rounds, n) == Some(rounds[l].received.signal)
  {
    if l < n - 1 {
      LastIs(rounds, l, n - 1);
    }
  }

  /** The last signal is forwarded until two seconds after the first, SIGKILL from then on, nothing before any came. */
  lemma ForwardedIs(rounds: seq<Round>, f: nat, l: nat, n: nat)
    requires n < |rounds| && Between(rounds, f, l, n)
    ensures Forwarded(rounds, n) ==
            Some(if rounds[n].now >= rounds[f].received.at + 2_000_000_000 then 9 else rounds[l].received.signal)
  {
    FirstIs(rounds, f, n);
    LastIs(rounds, l, n);
  }

  lemma NothingForwarded(rounds: seq<Round>, n: nat)
    requires n < |rounds| && forall i :: 0 <= i < n ==> !rounds[i].received.Terminate?
    ensures Forwarded(rounds, n) == None
  {
    NoneYet(rounds, n);
  }


  // ---- The tree, said of the directory entries ----

  lemma {:induction false} ListedByATask(tasks: seq<TaskEntry>, c: Pid)
    ensures c in TaskKids(tasks) <==> exists i :: 0 <= i < |tasks| && tasks[i].Children? && c in tasks[i].pids
  {
    if tasks != [] {
      var last := |tasks| - 1;
      ListedByATask(tasks[..last], c);
      assert forall i :: 0 <= i < last ==> tasks[..last][i] == tasks[i];
    }
  }

  /** A child is what some readable task lists; a process fails if it, or one of its tasks, exists but is unreadable. */
  lemma TreeIsTheSnapshot(s: Snapshot, p: Pid, c: Pid)
    ensures IsParent(TreeOf(s), p, c) <==>
            && p in s && s[p].Tasks?
            && exists i :: 0 <= i < |s[p].tasks| && s[p].tasks[i].Children? && c in s[p].tasks[i].pids
    ensures Fails(TreeOf(s), p) <==>
            && p in s
            && (s[p].Unreadable? ||
                (s[p].Tasks? && exists i :: 0 <= i < |s[p].tasks| && s[p].tasks[i].TaskUnreadable?))
  {
    if p in s && s[p].Tasks? {
      ListedByATask(s[p].tasks, c);
      var tasks := s[p].tasks;
      assert TaskUnreadable in tasks <==> exists i :: 0 <= i < |tasks| && tasks[i] == TaskUnreadable;
    }
  }
}
