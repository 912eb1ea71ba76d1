/** Bounded forwarding between an application and its upstream, closing both sides after a drain. */
module Relay {
  import opened Common
  import opened Tunnel

  const BUFFER: nat := 65536

  /** What the network does between two system calls. */
  datatype Moment = Moment(bytes: seq<byte>, fin: bool, acknowledged: nat)

  /** The relay's socket to the application, as the kernel keeps it. */
  class Application {
    var queue: seq<byte> // received and unread
    var finished: bool // end of stream received
    var written: seq<byte>
    var acknowledged: nat
    ghost var arrived: seq<byte> // everything the application has sent so far

    ghost predicate Valid()
      reads this
    {
      && acknowledged <= |written|
      && |queue| <= |arrived| && arrived[|arrived| - |queue|..] == queue
    }

    ghost function Taken(): seq<byte>
      requires Valid()
      reads this
    {
      arrived[..|arrived| - |queue|]
    }

    constructor ()
      ensures Valid() && arrived == [] && queue == [] && written == [] && acknowledged == 0 && !finished
    {
      queue, finished, written, acknowledged, arrived := [], false, [], 0, [];
    }

    /** More bytes may arrive until the end of stream, and written bytes may be acknowledged. */
    method Advance(m: Moment)
      requires Valid()
      modifies this
      ensures Valid() && Taken() == old(Taken()) && written == old(written)
      ensures old(finished) ==> finished && queue == old(queue) && arrived == old(arrived)
      ensures acknowledged == Min(old(acknowledged) + m.acknowledged, |written|)
      ensures m.bytes == [] ==> queue == old(queue)
    {
      if !finished {
        queue := queue + m.bytes;
        arrived := arrived + m.bytes;
        finished := m.fin;
        assert arrived[..|arrived| - |queue|] == old(Taken());
      }
      acknowledged := Min(acknowledged + m.acknowledged, |written|);
    }

    method TryRead(size: nat, ready: Readiness) returns (r: ReadOutcome)
      requires Valid() && size > 0
      modifies this`queue
      ensures Valid()
      ensures r.Data? ==> Taken() == old(Taken()) + r.bytes && |r.bytes| <= size
      ensures r.Data? && r.bytes == [] ==> finished && queue == []
      ensures !r.Data? ==> queue == old(queue)
      ensures finished && old(queue) == [] ==> queue == []
      ensures ready.Ready? ==> r.Data? || (r.ReadWouldBlock? && old(queue) == [] && !finished)
      ensures ready.Ready? && old(queue) != [] ==> r.bytes != []
      ensures ready.NotReady? ==> r.ReadWouldBlock?
      ensures ready.Broken? ==> r == ReadFailed(ready.errno)
    {
      match ready
      case NotReady => r := ReadWouldBlock;
      case Broken(errno) => r := ReadFailed(errno);
      case Ready(limit) =>
        if queue == [] && !finished {
          r := ReadWouldBlock;
        } else {
          var count := Min(size, Min(limit + 1, |queue|));
          r := Data(queue[..count]);
          ghost var before := Taken();
          queue := queue[count..];
          assert Taken() == before + r.bytes;
        }
    }

    method TryWrite(data: seq<byte>, ready: Readiness) returns (w: WriteOutcome)
      requires Valid()
      modifies this`written
      ensures Valid()
      ensures w.Wrote? ==> w.count <= |data| && written == old(written) + data[..w.count]
      ensures !w.Wrote? ==> written == old(written)
      ensures ready.Ready? ==> w == Wrote(Min(ready.limit, |data|))
      ensures !ready.Broken? ==> !w.WriteFailed?
      ensures ready.NotReady? ==> w.WriteWouldBlock?
      ensures ready.Broken? ==> w == WriteFailed(ready.errno)
    {
      match ready
      case NotReady => w := WriteWouldBlock;
      case Broken(errno) => w := WriteFailed(errno);
      case Ready(limit) =>
        var count := Min(limit, |data|);
        written := written + data[..count];
        w := Wrote(count);
    }

    /** FIONREAD. */
    function Unread(): nat
      reads this
    {
      |queue|
    }

    /** TIOCOUTQ. */
    function Unacknowledged(): nat
      requires Valid()
      reads this
    {
      |written| - acknowledged
    }
  }

  /** Everything one turn of the loop can meet: readiness of four calls, five pauses, four ways to fail. */
  datatype Round = Round(
    hostRead: Readiness, applicationWrite: Readiness, applicationRead: Readiness, hostWrite: Readiness,
    pause0: Moment, pause1: Moment, pause2: Moment, pause3: Moment, pause4: Moment,
    queuedFails: Option<int>, resets: Option<int>, outputFails: Option<int>, inputFails: Option<int>)

  predicate Quiet(m: Moment) {
    m.bytes == [] && m.acknowledged > 0
  }

  /** A turn in which nothing fails, every call can make progress and no new data arrives. */
  predicate Healthy(r: Round) {
    && r.hostRead.Ready? && r.applicationRead.Ready?
    && r.applicationWrite.Ready? && r.applicationWrite.limit > 0
    && r.hostWrite.Ready? && r.hostWrite.limit > 0
    && Quiet(r.pause0) && Quiet(r.pause1) && Quiet(r.pause2) && Quiet(r.pause3) && Quiet(r.pause4)
    && r.queuedFails.None? && r.resets.None? && r.outputFails.None? && r.inputFails.None?
  }

  /** The application is read while not closing, or while bytes are queued, and there is room. */
  predicate Wanted(closing: bool, queued: nat, pending: nat) {
    (!closing || queued > 0) && pending < BUFFER
  }

  /** A write that fails, or that is accepted and takes nothing; one that would block is neither. */
  predicate BadWrite(w: Readiness) {
    w.Broken? || (w.Ready? && w.limit == 0)
  }

  /** Something in the turn fails: a call, or one of the four queries about the application's socket. */
  predicate Faulty(r: Round) {
    || r.hostRead.Broken? || r.applicationRead.Broken? || BadWrite(r.applicationWrite) || BadWrite(r.hostWrite)
    || r.queuedFails.Some? || r.resets.Some? || r.outputFails.Some? || r.inputFails.Some?
  }

  datatype Outcome = Running | Closed | Failed(errno: int)

  const WRITE_ZERO: int := -1

  class Relay {
    const application: Application
    const host: ProxyStream
    var toApplication: seq<byte>
    var toHost: seq<byte>
    var closeAfterDrain: bool
    // Everything the upstream will ever send, and what was written to it before the relay began.
    ghost const stream: seq<byte>
    ghost const preamble: seq<byte>

    ghost predicate Valid()
      reads this, application, host, host.inner
    {
      && application.Valid() && host.Valid()
      // Downstream: written, then pending, then not yet read.
      && stream == application.written + toApplication + host.Remaining()
      // Upstream: written and pending are what was taken from the application.
      && preamble <= host.inner.outgoing && preamble + application.Taken() == host.inner.outgoing + toHost
      && |toApplication| <= BUFFER && |toHost| <= BUFFER
      && (closeAfterDrain ==> host.Remaining() == [] || (application.finished && application.queue == []))
    }

    /** How far the relay is from being drained: every byte counts for each hop it has left. */
    ghost function Work(): nat
      requires Valid()
      reads this, application, host, host.inner
    {
      (if closeAfterDrain then 0 else 3 * |host.Remaining()| + 1)
      + 2 * |toApplication| + application.Unacknowledged()
      + 2 * |application.queue| + |toHost|
    }

    constructor (application: Application, host: ProxyStream)
      requires application.Valid() && host.Valid() && application.written == [] && application.Taken() == []
      ensures Valid() && this.application == application && this.host == host
      ensures toApplication == [] && toHost == [] && !closeAfterDrain
      ensures stream == host.Remaining() && preamble == host.inner.outgoing
    {
      this.application, this.host := application, host;
      toApplication, toHost, closeAfterDrain := [], [], false;
      stream, preamble := host.Remaining(), host.inner.outgoing;
      new;
      assert [] + [] + host.Remaining() == host.Remaining();
    }

    method Pause(m: Moment)
      requires Valid()
      modifies application
      ensures Valid() && application.written == old(application.written)
      ensures application.acknowledged == Min(old(application.acknowledged) + m.acknowledged, |application.written|)
      ensures m.bytes == [] ==> application.queue == old(application.queue) && Work() <= old(Work())
      ensures Quiet(m) && old(application.Unacknowledged()) > 0 ==> Work() < old(Work())
    {
      application.Advance(m);
    }

    method ReadHost(ready: Readiness) returns (result: Result<bool, int>)
      requires Valid()
      modifies this`toApplication, this`closeAfterDrain, host, host.inner`incoming
      ensures Valid() && Work() <= old(Work())
      ensures result.Err? ==> ready.Broken?
      ensures ready.Broken? && !old(closeAfterDrain) && |old(toApplication)| < BUFFER ==>
                old(host.HasBufferedData()) || result == Err(ready.errno)
      ensures result.Ok? ==>
                (result.value <==> |toApplication| != |old(toApplication)| || closeAfterDrain != old(closeAfterDrain))
      ensures ready.Ready? && !old(closeAfterDrain) && |old(toApplication)| < BUFFER ==> Work() < old(Work())
      ensures old(closeAfterDrain) || |old(toApplication)| == BUFFER ==>
                toApplication == old(toApplication) && closeAfterDrain == old(closeAfterDrain)
    {
      if closeAfterDrain || |toApplication| >= BUFFER {
        return Ok(false);
      }
      var space := BUFFER - |toApplication|;
      var r := host.TryRead(space, ready);
      match r
      case ReadWouldBlock =>
        result := Ok(false);
      case ReadFailed(errno) =>
        result := Err(errno);
      case Data(bytes) =>
        if bytes == [] {
          closeAfterDrain := true;
        } else {
          Associate(application.written + toApplication, bytes, host.Remaining());
          Associate(application.written, toApplication, bytes);
          toApplication := toApplication + bytes;
        }
        result := Ok(true);
    }

    method ReadApplication(queued: nat, ready: Readiness) returns (result: Result<bool, int>)
      requires Valid()
      modifies this`toHost, this`closeAfterDrain, application`queue
      ensures Valid() && Work() <= old(Work())
      ensures result.Err? <==> Wanted(old(closeAfterDrain), queued, |old(toHost)|) && ready.Broken?
      ensures result.Err? ==> result.error == ready.errno
      ensures result.Ok? ==>
                (result.value <==> && Wanted(old(closeAfterDrain), queued, |old(toHost)|) && ready.Ready?
                                   && (old(application.queue) != [] || application.finished))
      // The application's end of stream starts the drain, however much the host may still send.
      ensures Wanted(old(closeAfterDrain), queued, |old(toHost)|) && ready.Ready? ==>
                (application.finished && old(application.queue) == [] ==> closeAfterDrain)
      ensures ready.Ready? && old(application.queue) != [] && queued > 0 && |old(toHost)| < BUFFER ==>
                Work() < old(Work())
      ensures old(closeAfterDrain) ==> closeAfterDrain
      ensures |old(toHost)| == BUFFER ==> toHost == old(toHost)
    {
      if (closeAfterDrain && queued == 0) || |toHost| >= BUFFER {
        return Ok(false);
      }
      var space := BUFFER - |toHost|;
      ghost var taken := application.Taken();
      var r := application.TryRead(space, ready);
      match r
      case ReadWouldBlock =>
        result := Ok(false);
      case ReadFailed(errno) =>
        result := Err(errno);
      case Data(bytes) =>
        Associate(preamble, taken, bytes);
        Associate(host.inner.outgoing, toHost, bytes);
        if bytes == [] {
          closeAfterDrain := true;
        } else {
          toHost := toHost + bytes;
        }
        result := Ok(true);
    }

    method FlushToApplication(ready: Readiness) returns (result: Result<bool, int>)
      requires Valid()
      modifies this`toApplication, application`written
      ensures Valid() && Work() <= old(Work())
      ensures result.Err? <==> old(toApplication) != [] && BadWrite(ready)
      ensures result.Err? && ready.Broken? ==> result.error == ready.errno
      ensures result.Ok? ==> (result.value <==> old(toApplication) != [] && ready.Ready?)
      ensures ready.Ready? && ready.limit > 0 && old(toApplication) != [] ==> Work() < old(Work())
      ensures old(toApplication) == [] ==> toApplication == [] && application.written == old(application.written)
    {
      if toApplication == [] {
        return Ok(false);
      }
      var w := application.TryWrite(toApplication, ready);
      match w
      case WriteWouldBlock =>
        result := Ok(false);
      case WriteFailed(errno) =>
        result := Err(errno);
      case Wrote(count) =>
        if count == 0 {
          assert application.written == old(application.written);
          return Err(WRITE_ZERO);
        }
        assert toApplication == toApplication[..count] + toApplication[count..];
        Associate(old(application.written), toApplication[..count], toApplication[count..]);
        toApplication := toApplication[count..];
        result := Ok(true);
    }

    method FlushToHost(ready: Readiness) returns (result: Result<bool, int>)
      requires Valid()
      modifies this`toHost, host.inner`outgoing
      ensures Valid() && Work() <= old(Work())
      ensures result.Err? <==> old(toHost) != [] && BadWrite(ready)
      ensures result.Err? && ready.Broken? ==> result.error == ready.errno
      ensures result.Ok? ==> (result.value <==> old(toHost) != [] && ready.Ready?)
      ensures ready.Ready? && ready.limit > 0 && old(toHost) != [] ==> Work() < old(Work())
      ensures old(toHost) == [] ==> toHost == []
    {
      if toHost == [] {
        return Ok(false);
      }
      var w := host.inner.TryWrite(toHost, ready);
      match w
      case WriteWouldBlock =>
        result := Ok(false);
      case WriteFailed(errno) =>
        result := Err(errno);
      case Wrote(count) =>
        if count == 0 {
          assert host.inner.outgoing == old(host.inner.outgoing);
          return Err(WRITE_ZERO);
        }
        assert toHost == toHost[..count] + toHost[count..];
        Associate(old(host.inner.outgoing), toHost[..count], toHost[count..]);
        toHost := toHost[count..];
        result := Ok(true);
    }

    /** The end of a turn: an error, or nothing pending, unacknowledged or unread. */
    method TryClose(round: Round) returns (outcome: Outcome)
      requires Valid()
      modifies application
      ensures Valid()
      ensures outcome.Closed? ==> Drained()
      ensures outcome.Failed? ==> Faulty(round)
      ensures closeAfterDrain && round.resets.Some? ==> outcome == Failed(round.resets.value)
      ensures Healthy(round) ==> !outcome.Failed? && Work() <= old(Work())
      ensures Healthy(round) && old(Settled() && toHost == [] && application.queue == []) ==> outcome.Closed?
    {
      if closeAfterDrain && round.resets.Some? {
        return Failed(round.resets.value);
      }
      if !closeAfterDrain || toApplication != [] || toHost != [] {
        return Running;
      }
      if round.outputFails.Some? {
        return Failed(round.outputFails.value);
      }
      if application.Unacknowledged() != 0 {
        return Running;
      }
      Pause(round.pause4);
      if round.inputFails.Some? {
        return Failed(round.inputFails.value);
      }
      outcome := if application.Unread() == 0 then Closed else Running;
      assert outcome.Closed? ==>
          application.Taken() == application.arrived && host.inner.outgoing + toHost == host.inner.outgoing;
    }

    /** Closing, with everything for the application written and acknowledged. */
    ghost predicate Settled()
      requires Valid()
      reads this, application, host, host.inner
    {
      closeAfterDrain && toApplication == [] && application.Unacknowledged() == 0
    }

    /** What a normal return promises, in terms of the two peers only. */
    ghost predicate Drained()
      reads this, application, host, host.inner
    {
      && application.Valid() && host.Valid()
      && closeAfterDrain && toApplication == [] && toHost == []
      && application.acknowledged == |application.written|
      && stream == application.written + host.Remaining()
      && host.inner.outgoing == preamble + application.arrived
      && (application.written == stream || application.finished)
    }

    /** The first half of a turn: from the upstream to the application. */
    method Downstream(round: Round) returns (errno: Option<int>)
      requires Valid()
      modifies this`toApplication, this`closeAfterDrain, application, host, host.inner`incoming
      ensures Valid()
      ensures errno.Some? ==> Faulty(round)
      ensures Healthy(round) ==> errno.None? && Work() <= old(Work())
      ensures Healthy(round) ==> Work() < old(Work()) || (Settled() && application.queue == old(application.queue))
    {
      var result := ReadHost(round.hostRead);
      if result.Err? {
        return Some(result.error);
      }
      Pause(round.pause0);
      result := FlushToApplication(round.applicationWrite);
      if result.Err? {
        return Some(result.error);
      }
      Pause(round.pause1);
      errno := None;
    }

    /** The second half: from the application to the upstream. */
    method Upstream(round: Round) returns (errno: Option<int>)
      requires Valid()
      modifies this`toHost, this`closeAfterDrain, application, host.inner`outgoing
      ensures Valid()
      ensures errno.Some? ==> Faulty(round)
      ensures round.queuedFails.Some? ==> errno.Some?
      ensures Healthy(round) ==> errno.None? && Work() <= old(Work())
      ensures Healthy(round) && old(Settled()) ==>
                Work() < old(Work()) || (Settled() && toHost == [] && application.queue == [])
    {
      if round.queuedFails.Some? {
        return round.queuedFails;
      }
      var queued := application.Unread();
      Pause(round.pause2);
      var result := ReadApplication(queued, round.applicationRead);
      if result.Err? {
        return Some(result.error);
      }
      result := FlushToHost(round.hostWrite);
      if result.Err? {
        return Some(result.error);
      }
      Pause(round.pause3);
      errno := None;
    }

    /** One turn of the loop. */
    method Turn(round: Round) returns (outcome: Outcome)
      requires Valid()
      modifies this, application, host, host.inner
      ensures Valid()
      ensures outcome.Closed? ==> Drained()
      // It fails only if a call does; calls that would block leave it running.
      ensures outcome.Failed? ==> Faulty(round)
      // A reset of the application is not missed while draining, nor a queue that cannot be asked for.
      ensures closeAfterDrain && round.resets.Some? ==> outcome.Failed?
      ensures round.queuedFails.Some? ==> outcome.Failed?
      ensures Healthy(round) ==> !outcome.Failed? && (outcome.Closed? || Work() < old(Work()))
    {
      var errno := Downstream(round);
      if errno.None? {
        errno := Upstream(round);
      }
      if errno.Some? {
        return Failed(errno.value);
      }
      outcome := TryClose(round);
    }

    /** The loop, over any finite schedule of what its turns meet. */
    method Run(schedule: seq<Round>) returns (outcome: Outcome)
      requires Valid()
      modifies this, application, host, host.inner
      ensures Valid()
      ensures outcome.Closed? ==> Drained()
      ensures |toApplication| <= 65536 && |toHost| <= 65536
      // However long calls would block, it fails only if one does fail.
      ensures outcome.Failed? ==> exists r :: r in schedule && Faulty(r)
      // Once no more data arrives and nothing fails, the relay does close.
      ensures (forall r :: r in schedule ==> Healthy(r)) && |schedule| > old(Work()) ==> outcome.Closed?
    {
      outcome := Running;
      var i := 0;
      while i < |schedule| && outcome.Running?
        invariant 0 <= i <= |schedule|
        invariant Valid() && (outcome.Closed? ==> Drained())
        invariant outcome.Failed? ==> exists r :: r in schedule && Faulty(r)
        invariant (forall r :: r in schedule ==> Healthy(r)) ==>
                    outcome.Closed? || (outcome.Running? && Work() + i <= old(Work()))
      {
        outcome := Turn(schedule[i]);
        assert schedule[i] in schedule;
        i := i + 1;
      }
    }
  }
}
