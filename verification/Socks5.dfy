/** The SOCKS5 handshake (RFC 1928) with username and password authentication (RFC 1929). */
module Socks5 {
  import opened Common
  import opened Tunnel

  const VERSION: byte := 5
  const NO_AUTH: byte := 0
  const USER_PASS: byte := 2
  const ATYP_IPV4: byte := 1
  const ATYP_DOMAIN: byte := 3
  const ATYP_IPV6: byte := 4

  type Text = seq<byte>

  datatype Target =
    | Ipv4(octets: seq<byte>, port: u16)
    | Ipv6(octets: seq<byte>, port: u16)
    | Domain(host: Text, port: u16)
  {
    predicate Valid() {
      (Ipv4? ==> |octets| == 4) && (Ipv6? ==> |octets| == 16)
    }
  }

  datatype Error =
    | Truncated
    | BadVersion(version: byte)
    | NoCredentials
    | NoAcceptableMethod
    | UnknownMethod(m: byte)
    | CredentialsTooLong
    | AuthenticationFailed(status: byte)
    | HostTooLong
    | Rejected(reply: byte)
    | UnknownAddressType(atyp: byte)

  // ---- What the client sends ----

  function Greeting(hasAuth: bool): seq<byte> {
    if hasAuth then [VERSION, 2, NO_AUTH, USER_PASS] else [VERSION, 1, NO_AUTH]
  }

  function Credentials(user: Text, pass: Text): seq<byte>
    requires |user| <= 255 && |pass| <= 255
  {
    [1, |user|] + user + [|pass|] + pass
  }

  function Request(target: Target): seq<byte>
    requires target.Valid() && (target.Domain? ==> |target.host| <= 255)
  {
    [VERSION, 1, 0] +
    match target
    case Ipv4(octets, port) => [ATYP_IPV4] + octets + Be16(port)
    case Ipv6(octets, port) => [ATYP_IPV6] + octets + Be16(port)
    case Domain(host, port) => [ATYP_DOMAIN, |host|] + host + Be16(port)
  }

  // ---- What the replies mean ----

  /** Section 3 of RFC 1928. */
  function MethodReply(s: seq<byte>, hasAuth: bool): (r: Result<(byte, seq<byte>), Error>)
    ensures r.Ok? ==> r.value.0 == NO_AUTH || (r.value.0 == USER_PASS && hasAuth)
  {
    if |s| < 2 then Err(Truncated)
    else if s[0] != VERSION then Err(BadVersion(s[0]))
    else if s[1] == NO_AUTH then Ok((NO_AUTH, s[2..]))
    else if s[1] == USER_PASS then (if hasAuth then Ok((USER_PASS, s[2..])) else Err(NoCredentials))
    else if s[1] == 255 then Err(NoAcceptableMethod)
    else Err(UnknownMethod(s[1]))
  }

  /** Section 2 of RFC 1929; the version byte of this reply is not looked at. */
  function AuthReply(s: seq<byte>): Result<seq<byte>, Error> {
    if |s| < 2 then Err(Truncated)
    else if s[1] != 0 then Err(AuthenticationFailed(s[1]))
    else Ok(s[2..])
  }

  /** The bound address and port, which are dropped. */
  function BoundAddress(s: seq<byte>, atyp: byte): Result<seq<byte>, Error> {
    if atyp == ATYP_IPV4 then (if |s| < 6 then Err(Truncated) else Ok(s[6..]))
    else if atyp == ATYP_IPV6 then (if |s| < 18 then Err(Truncated) else Ok(s[18..]))
    else if atyp == ATYP_DOMAIN then
      if |s| < 1 || |s| < 1 + s[0] as int + 2 then Err(Truncated) else Ok(s[1 + s[0] as int + 2..])
    else Err(UnknownAddressType(atyp))
  }

  /** Section 6 of RFC 1928. */
  function ConnectReply(s: seq<byte>): Result<seq<byte>, Error> {
    if |s| < 4 then Err(Truncated)
    else if s[0] != VERSION then Err(BadVersion(s[0]))
    else if s[1] != 0 then Err(Rejected(s[1]))
    else BoundAddress(s[4..], s[3])
  }

  datatype Exchange = Exchange(sent: seq<byte>, result: Result<seq<byte>, Error>)

  function RequestPhase(sent: seq<byte>, s: seq<byte>, target: Target): Exchange
    requires target.Valid()
  {
    if target.Domain? && |target.host| > 255 then Exchange(sent, Err(HostTooLong))
    else Exchange(sent + Request(target), ConnectReply(s))
  }

  function AuthPhase(sent: seq<byte>, s: seq<byte>, chosen: byte, auth: Option<(Text, Text)>): Exchange
    requires chosen == NO_AUTH || auth.Some?
  {
    if chosen == NO_AUTH then Exchange(sent, Ok(s))
    else if |auth.value.0| > 255 || |auth.value.1| > 255 then Exchange(sent, Err(CredentialsTooLong))
    else Exchange(sent + Credentials(auth.value.0, auth.value.1), AuthReply(s))
  }

  /** The whole handshake: the bytes written, and the tunnel bytes left or the failure. */
  function Handshake(s: seq<byte>, auth: Option<(Text, Text)>, target: Target): Exchange
    requires target.Valid()
  {
    var hello := Greeting(auth.Some?);
    match MethodReply(s, auth.Some?)
    case Err(e) => Exchange(hello, Err(e))
    case Ok((chosen, rest)) =>
      var authenticated := AuthPhase(hello, rest, chosen, auth);
      if authenticated.result.Err? then authenticated
      else RequestPhase(authenticated.sent, authenticated.result.value, target)
  }

  // ---- The connector ----

  method NegotiateMethod(wire: Wire, hasAuth: bool, chunks: seq<nat>) returns (r: Result<byte, Error>)
    modifies wire
    ensures wire.outgoing == old(wire.outgoing) + Greeting(hasAuth)
    ensures MethodReply(old(wire.incoming), hasAuth) ==
            if r.Ok? then Ok((r.value, wire.incoming)) else Err(r.error)
  {
    var methods: seq<byte> := if hasAuth then [NO_AUTH, USER_PASS] else [NO_AUTH];
    var greeting: seq<byte> := [VERSION, |methods|];
    greeting := greeting + methods;
    wire.WriteAll(greeting);
    var resp := wire.ReadExact(2, chunks);
    if resp.None? {
      return Err(Truncated);
    }
    if resp.value[0] != VERSION {
      return Err(BadVersion(resp.value[0]));
    }
    if resp.value[1] == NO_AUTH {
    } else if resp.value[1] == USER_PASS {
      if !hasAuth {
        return Err(NoCredentials);
      }
    } else if resp.value[1] == 0xFF {
      return Err(NoAcceptableMethod);
    } else {
      return Err(UnknownMethod(resp.value[1]));
    }
    r := Ok(resp.value[1]);
  }

  method Authenticate(wire: Wire, chosen: byte, auth: Option<(Text, Text)>, chunks: seq<nat>)
    returns (r: Result<(), Error>)
    requires chosen == NO_AUTH || auth.Some?
    modifies wire
    ensures AuthPhase(old(wire.outgoing), old(wire.incoming), chosen, auth) ==
            Exchange(wire.outgoing, if r.Ok? then Ok(wire.incoming) else Err(r.error))
  {
    if chosen == NO_AUTH {
      return Ok(());
    }
    var (user, pass) := auth.value;
    if |user| > 255 {
      return Err(CredentialsTooLong);
    }
    if |pass| > 255 {
      return Err(CredentialsTooLong);
    }
    var request: seq<byte> := [1];
    request := request + [|user|];
    request := request + user;
    request := request + [|pass|];
    request := request + pass;
    assert request == Credentials(user, pass);
    wire.WriteAll(request);
    var resp := wire.ReadExact(2, chunks);
    if resp.None? {
      return Err(Truncated);
    }
    if resp.value[1] != 0 {
      return Err(AuthenticationFailed(resp.value[1]));
    }
    r := Ok(());
  }

  method SkipAddress(wire: Wire, atyp: byte, chunks: seq<nat>) returns (r: Result<(), Error>)
    modifies wire`incoming
    ensures BoundAddress(old(wire.incoming), atyp) == if r.Ok? then Ok(wire.incoming) else Err(r.error)
  {
    var buffer;
    if atyp == ATYP_IPV4 {
      buffer := wire.ReadExact(6, chunks);
    } else if atyp == ATYP_IPV6 {
      buffer := wire.ReadExact(18, chunks);
    } else if atyp == ATYP_DOMAIN {
      var length := wire.ReadExact(1, chunks);
      if length.None? {
        return Err(Truncated);
      }
      var total := length.value[0] as int + 2;
      buffer := wire.ReadExact(total, chunks);
    } else {
      return Err(UnknownAddressType(atyp));
    }
    r := if buffer.Some? then Ok(()) else Err(Truncated);
  }

  method SendConnectRequest(wire: Wire, target: Target, chunks: seq<nat>) returns (r: Result<(), Error>)
    requires target.Valid()
    modifies wire
    ensures RequestPhase(old(wire.outgoing), old(wire.incoming), target) ==
            Exchange(wire.outgoing, if r.Ok? then Ok(wire.incoming) else Err(r.error))
  {
    var request: seq<byte> := [VERSION, 1, 0];
    match target {
      case Ipv4(octets, port) =>
        request := request + ([ATYP_IPV4] + octets + Be16(port));
      case Ipv6(octets, port) =>
        request := request + ([ATYP_IPV6] + octets + Be16(port));
      case Domain(host, port) =>
        if |host| > 255 {
          return Err(HostTooLong);
        }
        request := request + ([ATYP_DOMAIN, |host|] + host + Be16(port));
    }
    wire.WriteAll(request);
    var header := wire.ReadExact(4, chunks);
    if header.None? {
      return Err(Truncated);
    }
    if header.value[0] != VERSION {
      return Err(BadVersion(header.value[0]));
    }
    if header.value[1] != 0 {
      return Err(Rejected(header.value[1]));
    }
    r := SkipAddress(wire, header.value[3], chunks);
  }

  /** The connector, on a connection nothing has been written to yet. */
  method Connect(wire: Wire, auth: Option<(Text, Text)>, target: Target, chunks: seq<nat>)
    returns (r: Result<ProxyStream, Error>)
    requires target.Valid() && wire.outgoing == []
    modifies wire
    ensures r.Ok? ==> fresh(r.value) && r.value.Valid() && r.value.inner == wire
    ensures Handshake(old(wire.incoming), auth, target) ==
            Exchange(wire.outgoing, if r.Ok? then Ok(r.value.Remaining()) else Err(r.error))
  {
    var negotiated := NegotiateMethod(wire, auth.Some?, chunks);
    assert wire.outgoing == Greeting(auth.Some?);
    if negotiated.Err? {
      return Err(negotiated.error);
    }
    var authenticated := Authenticate(wire, negotiated.value, auth, chunks);
    if authenticated.Err? {
      return Err(authenticated.error);
    }
    var connected := SendConnectRequest(wire, target, chunks);
    if connected.Err? {
      return Err(connected.error);
    }
    var stream := new ProxyStream(wire, []);
    assert stream.Remaining() == wire.incoming;
    r := Ok(stream);
  }

  // ---- Exactly the replies of the two documents are consumed ----

  datatype Bound = BoundIpv4(octets: seq<byte>) | BoundIpv6(octets: seq<byte>) | BoundDomain(name: Text) {
    predicate Valid() {
      match this
      case BoundIpv4(octets) => |octets| == 4
      case BoundIpv6(octets) => |octets| == 16
      case BoundDomain(name) => |name| <= 255
    }
  }

  function BoundType(b: Bound): byte {
    match b
    case BoundIpv4(_) => ATYP_IPV4
    case BoundIpv6(_) => ATYP_IPV6
    case BoundDomain(_) => ATYP_DOMAIN
  }

  function BoundBytes(b: Bound): seq<byte>
    requires b.Valid()
  {
    if b.BoundDomain? then [|b.name|] + b.name else b.octets
  }

  /** A success reply as section 6 of RFC 1928 lays it out. */
  function SuccessReply(reserved: byte, bound: Bound, port: u16): seq<byte>
    requires bound.Valid()
  {
    [5, 0, reserved, BoundType(bound)] + (BoundBytes(bound) + Be16(port))
  }

  /** The server's side of a handshake the client accepts, before the final reply. */
  datatype Script = Anonymous | Authenticated(version: byte)

  function Opening(script: Script): seq<byte> {
    match script
    case Anonymous => [5, 0]
    case Authenticated(version) => [5, 2, version, 0]
  }

  lemma BoundIsConsumed(bound: Bound, port: seq<byte>, rest: seq<byte>)
    requires bound.Valid() && |port| == 2
    ensures BoundAddress(BoundBytes(bound) + port + rest, BoundType(bound)) == Ok(rest)
  {
    var front := BoundBytes(bound) + port;
    assert (front + rest)[|front|..] == rest;
  }

  lemma SuccessReplyIsConsumed(reserved: byte, bound: Bound, port: u16, rest: seq<byte>)
    requires bound.Valid()
    ensures ConnectReply(SuccessReply(reserved, bound, port) + rest) == Ok(rest)
  {
    var head, tail := [VERSION, 0, reserved, BoundType(bound)], BoundBytes(bound) + Be16(port);
    Associate(head, tail, rest);
    assert (head + (tail + rest))[4..] == tail + rest;
    BoundIsConsumed(bound, Be16(port), rest);
  }

  lemma ConsumedBound(t: seq<byte>, atyp: byte) returns (bound: Bound, port: u16)
    requires BoundAddress(t, atyp).Ok?
    ensures bound.Valid() && BoundType(bound) == atyp
    ensures t == BoundBytes(bound) + Be16(port) + BoundAddress(t, atyp).value
  {
    var n := if atyp == ATYP_DOMAIN then 1 + t[0] as int else if atyp == ATYP_IPV4 then 4 else 16;
    bound :=
      if atyp == ATYP_DOMAIN then BoundDomain(t[1..n])
      else if atyp == ATYP_IPV4 then BoundIpv4(t[..n])
      else BoundIpv6(t[..n]);
    port := FromBe16(t[n], t[n + 1]);
    assert t[..n] == BoundBytes(bound);
    PortFollows(t, n);
  }

  lemma PortFollows(t: seq<byte>, n: nat)
    requires n + 2 <= |t|
    ensures t == t[..n] + Be16(FromBe16(t[n], t[n + 1])) + t[n + 2..]
  {
    assert Be16(FromBe16(t[n], t[n + 1])) == t[n..n + 2];
  }

  /** Which reply a success has consumed. */
  lemma ConsumedReplyIsSuccess(s: seq<byte>) returns (reserved: byte, bound: Bound, port: u16)
    requires ConnectReply(s).Ok?
    ensures bound.Valid() && s == SuccessReply(reserved, bound, port) + ConnectReply(s).value
  {
    reserved := s[2];
    bound, port := ConsumedBound(s[4..], s[3]);
    var head := [VERSION, 0, reserved, BoundType(bound)];
    assert s == head + s[4..];
    Associate(head, BoundBytes(bound) + Be16(port), ConnectReply(s).value);
  }

  lemma OpeningIsConsumed(script: Script, rest: seq<byte>, auth: Option<(Text, Text)>)
    requires script.Authenticated? ==> auth.Some? && |auth.value.0| <= 255 && |auth.value.1| <= 255
    ensures var m := MethodReply(Opening(script) + rest, auth.Some?);
            && m.Ok?
            && AuthPhase(Greeting(auth.Some?), m.value.1, m.value.0, auth).result == Ok(rest)
  {
    var s := Opening(script) + rest;
    match script {
      case Anonymous =>
        assert s[2..] == rest;
      case Authenticated(version) =>
        assert s[2..] == [version, 0] + rest;
        assert s[2..][2..] == rest;
    }
  }

  /** Every conforming server script is accepted and exactly its bytes are consumed. */
  lemma ConformingServerIsAccepted(script: Script, reserved: byte, bound: Bound, port: u16, rest: seq<byte>,
                                   auth: Option<(Text, Text)>, target: Target)
    requires bound.Valid() && target.Valid() && (target.Domain? ==> |target.host| <= 255)
    requires script.Authenticated? ==> auth.Some? && |auth.value.0| <= 255 && |auth.value.1| <= 255
    ensures Handshake(Opening(script) + (SuccessReply(reserved, bound, port) + rest), auth, target).result == Ok(rest)
  {
    OpeningIsConsumed(script, SuccessReply(reserved, bound, port) + rest, auth);
    SuccessReplyIsConsumed(reserved, bound, port, rest);
  }

  lemma ConsumedOpening(s: seq<byte>, auth: Option<(Text, Text)>) returns (script: Script)
    requires MethodReply(s, auth.Some?).Ok?
    requires var m := MethodReply(s, auth.Some?).value; AuthPhase(Greeting(auth.Some?), m.1, m.0, auth).result.Ok?
    ensures script.Authenticated? ==> auth.Some?
    ensures var m := MethodReply(s, auth.Some?).value;
            s == Opening(script) + AuthPhase(Greeting(auth.Some?), m.1, m.0, auth).result.value
  {
    if s[1] == NO_AUTH {
      script := Anonymous;
      assert s == [VERSION, NO_AUTH] + s[2..];
    } else {
      script := Authenticated(s[2]);
      assert s == [VERSION, USER_PASS, s[2], 0] + s[2..][2..];
    }
  }

  /** Conversely, whatever a successful handshake consumed was such a script. */
  lemma AcceptedServerConforms(s: seq<byte>, auth: Option<(Text, Text)>, target: Target)
    returns (script: Script, reserved: byte, bound: Bound, port: u16)
    requires target.Valid() && Handshake(s, auth, target).result.Ok?
    ensures bound.Valid() && (script.Authenticated? ==> auth.Some?)
    ensures s == Opening(script) + (SuccessReply(reserved, bound, port) + Handshake(s, auth, target).result.value)
  {
    script := ConsumedOpening(s, auth);
    var m := MethodReply(s, auth.Some?).value;
    reserved, bound, port := ConsumedReplyIsSuccess(AuthPhase(Greeting(auth.Some?), m.1, m.0, auth).result.value);
  }

  // ---- The request can be read back ----

  /** Reference reader for section 4 of RFC 1928. */
  function ReadRequest(s: seq<byte>): Option<Target> {
    if |s| < 5 || s[0] != 5 || s[1] != 1 || s[2] != 0 then None
    else if s[3] == 1 then (if |s| != 10 then None else Some(Ipv4(s[4..8], FromBe16(s[8], s[9]))))
    else if s[3] == 4 then (if |s| != 22 then None else Some(Ipv6(s[4..20], FromBe16(s[20], s[21]))))
    else if s[3] == 3 then
      var end := 5 + s[4] as int;
      if |s| != end + 2 then None else Some(Domain(s[5..end], FromBe16(s[end], s[end + 1])))
    else None
  }

  lemma RequestIsReadBack(target: Target)
    requires target.Valid() && (target.Domain? ==> |target.host| <= 255)
    ensures ReadRequest(Request(target)) == Some(target)
  {
    var s := Request(target);
    match target {
      case Ipv4(octets, port) =>
        assert s[4..8] == octets && s[8..10] == Be16(port);
      case Ipv6(octets, port) =>
        assert s[4..20] == octets && s[20..22] == Be16(port);
      case Domain(host, port) =>
        assert s[5..5 + |host|] == host && s[5 + |host|..] == Be16(port);
    }
  }

  // ---- A server understands the whole conversation ----

  /** Reference reader for section 3 of RFC 1928: the methods offered, and what follows. */
  function ReadMethods(s: seq<byte>): Option<(seq<byte>, seq<byte>)> {
    if |s| < 2 || s[0] != 5 || |s| - 2 < s[1] then None else Some((s[2..2 + s[1] as int], s[2 + s[1] as int..]))
  }

  /** Reference reader for section 2 of RFC 1929: user name, password, and what follows. */
  function ReadCredentials(s: seq<byte>): Option<(Text, Text, seq<byte>)> {
    if |s| < 2 || s[0] != 1 then None
    else
      var p := 2 + s[1] as int;
      if |s| <= p || |s| - p - 1 < s[p] then None
      else Some((s[2..p], s[p + 1..p + 1 + s[p] as int], s[p + 1 + s[p] as int..]))
  }

  lemma GreetingIsReadBack(hasAuth: bool, rest: seq<byte>)
    ensures ReadMethods(Greeting(hasAuth) + rest) == Some((if hasAuth then [0, 2] else [0], rest))
  {
    var s, n := Greeting(hasAuth) + rest, if hasAuth then 2 else 1;
    assert s[0] == 5 && s[1] == n && s[2..2 + n] == Greeting(hasAuth)[2..] && s[2 + n..] == rest;
  }

  lemma CredentialsAreReadBack(user: Text, pass: Text, rest: seq<byte>)
    requires |user| <= 255 && |pass| <= 255
    ensures ReadCredentials(Credentials(user, pass) + rest) == Some((user, pass, rest))
  {
    var s, p := Credentials(user, pass) + rest, 2 + |user|;
    var tail := [|pass|] + pass + rest;
    assert s == [1, |user|] + user + tail by {
      Associate([1, |user|] + user, [|pass|], pass);
      Associate([1, |user|] + user, [|pass|] + pass, rest);
    }
    assert s[0] == 1 && s[1] == |user| && s[2..p] == user && s[p..] == tail;
    assert s[p] == tail[0] == |pass|;
    assert s[p + 1..p + 1 + |pass|] == tail[1..1 + |pass|] == pass;
    assert s[p + 1 + |pass|..] == tail[1 + |pass|..] == rest;
  }

  /** On success the server was offered the right methods, got the credentials if it asked, and the target. */
  lemma ServerUnderstands(s: seq<byte>, auth: Option<(Text, Text)>, target: Target)
    requires target.Valid() && Handshake(s, auth, target).result.Ok?
    ensures var sent, asked := Handshake(s, auth, target).sent, s[1] == 2;
            var methods := ReadMethods(sent);
            && methods.Some? && methods.value.0 == (if auth.Some? then [0, 2] else [0])
            && if !asked then ReadRequest(methods.value.1) == Some(target)
               else
                 var credentials := ReadCredentials(methods.value.1);
                 && auth.Some? && credentials.Some?
                 && (credentials.value.0, credentials.value.1) == auth.value
                 && ReadRequest(credentials.value.2) == Some(target)
  {
    var hello, request := Greeting(auth.Some?), Request(target);
    RequestIsReadBack(target);
    if s[1] == 2 {
      var credentials := Credentials(auth.value.0, auth.value.1);
      Associate(hello, credentials, request);
      GreetingIsReadBack(true, credentials + request);
      CredentialsAreReadBack(auth.value.0, auth.value.1, request);
    } else {
      GreetingIsReadBack(auth.Some?, request);
    }
  }


  /** Every refusal of the server, or of the client itself, is reported as what it is. */
  lemma RefusalsAreNamed(s: seq<byte>, auth: Option<(Text, Text)>, target: Target)
    requires target.Valid() && |s| >= 6
    ensures var e := Handshake(s, auth, target).result;
            && (s[0] != 5 ==> e == Err(BadVersion(s[0])))
            && (s[0] == 5 && s[1] == 255 ==> e == Err(NoAcceptableMethod))
            && (s[0] == 5 && s[1] == 2 && auth.None? ==> e == Err(NoCredentials))
            && (s[0] == 5 && s[1] !in {0, 2, 255} ==> e == Err(UnknownMethod(s[1])))
            && (s[0] == 5 && s[1] == 2 && auth.Some? && (|auth.value.0| > 255 || |auth.value.1| > 255) ==>
                e == Err(CredentialsTooLong))
            && (s[0] == 5 && s[1] == 2 && auth.Some? && |auth.value.0| <= 255 && |auth.value.1| <= 255 && s[3] != 0 ==>
                e == Err(AuthenticationFailed(s[3])))
            && (s[0] == 5 && s[1] == 0 && target.Domain? && |target.host| > 255 ==> e == Err(HostTooLong))
            && (s[0] == 5 && s[1] == 0 && !(target.Domain? && |target.host| > 255) ==>
                (s[2] != 5 ==> e == Err(BadVersion(s[2]))) && (s[2] == 5 && s[3] != 0 ==> e == Err(Rejected(s[3]))))
  {
    assert s[2..][0] == s[2] && s[2..][1] == s[3];
  }
}
