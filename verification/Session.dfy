/** A relayed connection from end to end: the proxy's reply, then the tunnel. */
module Session {
  import opened Common
  import opened Tunnel
  import Http
  import Relay
  import Socks5

  /** The tunnel carries a prefix of `down` to the application, and a prefix of its bytes after what was sent before. */
  ghost predicate Carries(a: Relay.Application, down: seq<byte>, before: seq<byte>, outgoing: seq<byte>)
    reads a
  {
    a.written <= down && exists n :: 0 <= n <= |a.arrived| && outgoing == before + a.arrived[..n]
  }

  /** A normal end: nothing the application sent is missing, all that was written is acknowledged, one side is over. */
  ghost predicate Complete(a: Relay.Application, down: seq<byte>, before: seq<byte>, outgoing: seq<byte>)
    reads a
  {
    && outgoing == before + a.arrived && a.acknowledged == |a.written|
    && (a.written == down || a.finished)
  }

  method Forward(host: ProxyStream, a: Relay.Application, schedule: seq<Relay.Round>) returns (outcome: Relay.Outcome)
    requires host.Valid() && a.Valid() && a.written == [] && a.Taken() == []
    modifies host, host.inner, a
    ensures Carries(a, old(host.Remaining()), old(host.inner.outgoing), host.inner.outgoing)
    ensures outcome.Closed? ==> Complete(a, old(host.Remaining()), old(host.inner.outgoing), host.inner.outgoing)
  {
    var relay := new Relay.Relay(a, host);
    outcome := relay.Run(schedule);
    UpstreamPrefix(relay);
  }

  lemma UpstreamPrefix(relay: Relay.Relay)
    requires relay.Valid()
    ensures Carries(relay.application, relay.stream, relay.preamble, relay.host.inner.outgoing)
  {
    var a, sent := relay.application, relay.host.inner.outgoing;
    var n := |sent| - |relay.preamble|;
    assert relay.stream == a.written + (relay.toApplication + relay.host.Remaining());
    SentIsTaken(relay.preamble, a.Taken(), sent, relay.toHost);
    assert a.Taken()[..n] == a.arrived[..n];
  }

  lemma SentIsTaken(before: seq<byte>, taken: seq<byte>, sent: seq<byte>, pending: seq<byte>)
    requires before <= sent && before + taken == sent + pending
    ensures |before| <= |sent| <= |before| + |taken| && sent == before + taken[..|sent| - |before|]
  {
    assert |before| + |taken| == |sent| + |pending|;
    assert sent == (sent + pending)[..|sent|];
    assert (before + taken)[..|sent|] == before + taken[..|sent| - |before|];
  }

  /** The application never sees a byte of the proxy's reply, and never misses one of the tunnel. */
  method OverHttp(wire: Wire, a: Relay.Application, chunks: seq<seq<nat>>, schedule: seq<Relay.Round>)
    returns (outcome: Option<Relay.Outcome>)
    requires a.Valid() && a.written == [] && a.Taken() == []
    modifies wire, a
    ensures outcome.Some? <==> Http.Handshake(old(wire.incoming)).Ok?
    ensures outcome.Some? ==>
              Carries(a, Http.Handshake(old(wire.incoming)).value, old(wire.outgoing), wire.outgoing)
    ensures outcome == Some(Relay.Closed) ==>
              Complete(a, Http.Handshake(old(wire.incoming)).value, old(wire.outgoing), wire.outgoing)
    ensures outcome.None? ==> wire.outgoing == old(wire.outgoing) && a.written == [] && a.arrived == old(a.arrived)
  {
    var host := Http.DoConnect(wire, chunks);
    if host.Err? {
      return None;
    }
    var ended := Forward(host.value, a, schedule);
    outcome := Some(ended);
  }

  method OverSocks5(wire: Wire, auth: Option<(Socks5.Text, Socks5.Text)>, target: Socks5.Target, a: Relay.Application,
                    chunks: seq<nat>, schedule: seq<Relay.Round>) returns (outcome: Option<Relay.Outcome>)
    requires target.Valid() && wire.outgoing == [] && a.Valid() && a.written == [] && a.Taken() == []
    modifies wire, a
    ensures var e := Socks5.Handshake(old(wire.incoming), auth, target);
            && (outcome.Some? <==> e.result.Ok?)
            && (outcome.Some? ==> Carries(a, e.result.value, e.sent, wire.outgoing))
            && (outcome == Some(Relay.Closed) ==> Complete(a, e.result.value, e.sent, wire.outgoing))
            && (outcome.None? ==> wire.outgoing == e.sent && a.written == [] && a.arrived == old(a.arrived))
  {
    var host := Socks5.Connect(wire, auth, target, chunks);
    if host.Err? {
      return None;
    }
    var ended := Forward(host.value, a, schedule);
    outcome := Some(ended);
  }
}
