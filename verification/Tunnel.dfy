/** The connection to a proxy server, and the stream handed over once a handshake is done. */
module Tunnel {
  import opened Common

  /** What the kernel lets a nonblocking call do at one moment. */
  datatype Readiness = NotReady | Ready(limit: nat) | Broken(errno: int)

  /** A read of no bytes into a nonempty buffer is end of stream. */
  datatype ReadOutcome = Data(bytes: seq<byte>) | ReadWouldBlock | ReadFailed(errno: int)

  datatype WriteOutcome = Wrote(count: nat) | WriteWouldBlock | WriteFailed(errno: int)

  /** A TCP connection: everything the peer will still send, and everything written to it. */
  class Wire {
    var incoming: seq<byte>
    var outgoing: seq<byte>

    constructor (incoming: seq<byte>)
      ensures this.incoming == incoming && outgoing == []
    {
      this.incoming, outgoing := incoming, [];
    }

    /** Any schedule of arrivals: each call may see nothing yet, or any nonempty part of what is to come. */
    method TryRead(size: nat, ready: Readiness) returns (r: ReadOutcome)
      modifies this`incoming
      ensures r.Data? <==> ready.Ready?
      ensures r.Data? ==> old(incoming) == r.bytes + incoming && |r.bytes| <= size
      ensures r.Data? && r.bytes == [] && size > 0 ==> incoming == []
      ensures !r.Data? ==> incoming == old(incoming)
      ensures !ready.Broken? ==> !r.ReadFailed?
      ensures ready.Broken? ==> r == ReadFailed(ready.errno)
    {
      match ready
      case NotReady => r := ReadWouldBlock;
      case Broken(errno) => r := ReadFailed(errno);
      case Ready(limit) =>
        var count := Min(size, Min(limit + 1, |incoming|));
        r := Data(incoming[..count]);
        incoming := incoming[count..];
    }

    /** Reads exactly `size` bytes however they arrive; `None` if the stream ends before that. */
    method ReadExact(size: nat, chunks: seq<nat>) returns (r: Option<seq<byte>>)
      modifies this`incoming
      ensures r.Some? <==> size <= old(|incoming|)
      ensures r.Some? ==> r.value == old(incoming)[..size] && incoming == old(incoming)[size..]
    {
      var bytes: seq<byte> := [];
      ghost var all := incoming;
      var i := 0;
      while |bytes| < size
        invariant |bytes| <= size && all == bytes + incoming
      {
        var part := TryRead(size - |bytes|, Ready(if i < |chunks| then chunks[i] else size));
        i := i + 1;
        if part.bytes == [] {
          return None;
        }
        Associate(bytes, part.bytes, incoming);
        bytes := bytes + part.bytes;
      }
      r := Some(bytes);
    }

    method WriteAll(data: seq<byte>)
      modifies this`outgoing
      ensures outgoing == old(outgoing) + data
    {
      outgoing := outgoing + data;
    }

    method TryWrite(data: seq<byte>, ready: Readiness) returns (w: WriteOutcome)
      modifies this`outgoing
      ensures w.Wrote? ==> w.count <= |data| && outgoing == old(outgoing) + data[..w.count]
      ensures !w.Wrote? ==> outgoing == old(outgoing)
      ensures ready.Ready? ==> w == Wrote(Min(ready.limit, |data|))
      ensures !ready.Broken? ==> !w.WriteFailed?
      ensures ready.NotReady? ==> w.WriteWouldBlock?
      ensures ready.Broken? ==> w == WriteFailed(ready.errno)
    {
      match ready
      case NotReady => w := WriteWouldBlock;
      case Broken(errno) => w := WriteFailed(errno);
      case Ready(limit) =>
        var count := Min(limit, |data|);
        outgoing := outgoing + data[..count];
        w := Wrote(count);
    }
  }

  class ProxyStream {
    const inner: Wire
    const buffered: seq<byte>
    var position: nat

    ghost predicate Valid()
      reads this
    {
      position <= |buffered|
    }

    /** Everything a reader of this stream is still to receive. */
    ghost function Remaining(): seq<byte>
      requires Valid()
      reads this, inner
    {
      buffered[position..] + inner.incoming
    }

    constructor (inner: Wire, buffered: seq<byte>)
      ensures Valid() && this.inner == inner && this.buffered == buffered
      ensures Remaining() == buffered + inner.incoming
    {
      this.inner, this.buffered, position := inner, buffered, 0;
    }

    predicate HasBufferedData()
      reads this
    {
      position < |buffered|
    }

    /** Used by both read interfaces: prefetched bytes come first, the connection after them. */
    method TryRead(size: nat, ready: Readiness) returns (r: ReadOutcome)
      requires Valid()
      modifies this, inner`incoming
      ensures Valid()
      ensures r.Data? ==> old(Remaining()) == r.bytes + Remaining() && |r.bytes| <= size
      ensures r.Data? && r.bytes == [] && size > 0 ==> Remaining() == []
      ensures !r.Data? ==> Remaining() == old(Remaining())
      // Prefetched bytes are never hidden behind a connection that is not ready.
      ensures old(HasBufferedData()) && size > 0 ==> r.Data? && r.bytes != []
      ensures ready.Ready? ==> r.Data?
      ensures !ready.Broken? ==> !r.ReadFailed?
      ensures ready.Broken? && !old(HasBufferedData()) ==> r == ReadFailed(ready.errno)
    {
      if HasBufferedData() {
        var count := Min(size, |buffered| - position);
        r := Data(buffered[position..position + count]);
        position := position + count;
        assert old(buffered[position..]) == r.bytes + buffered[position..];
      } else {
        r := inner.TryRead(size, ready);
      }
    }
  }
}
