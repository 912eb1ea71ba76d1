/** Answering DNS queries from the mapping, and turning synthetic addresses back into domains. */
module Resolver {
  import opened Common
  import opened FakeDns
  import opened DnsWire
  import opened Tunnel

  const TYPE_A: u16 := 1
  const ENETUNREACH: int := 101

  datatype Destination = Host(name: Name, port: u16) | Numeric(address: Endpoint)

  function TargetOf(m: Mapping, address: Endpoint): Result<Destination, int> {
    if !IsFakeIp(address.ip) then Ok(Numeric(address))
    else if address.ip in m.ipToDomain then Ok(Host(m.ipToDomain[address.ip], address.port))
    else Err(ENETUNREACH)
  }

  /** The domain a packet makes the resolver allocate for, if any. */
  function Asked(query: seq<byte>): Option<Name> {
    match Parse(query)
    case Some(q) => if q.qtype == TYPE_A then Some(q.domain) else None
    case None => None
  }

  /** The reply to a packet; `None` for packets that are dropped. */
  function Reply(m: Mapping, query: seq<byte>): Option<seq<byte>>
    requires m.nextOffset < POOL_SIZE
  {
    match Parse(query)
    case None => None
    case Some(q) =>
      if q.qtype == TYPE_A then
        Some(ResponseHeader(q.id, 1) + Question(q.domain, 1) + AnswerRecord(AddressOf(m, q.domain)))
      else Some(ResponseHeader(q.id, 0) + Question(q.domain, q.qtype))
  }

  datatype Served = Replied(reply: seq<byte>) | EndOfStream | Truncated | Invalid | TooLarge

  datatype Frame = Framed(query: seq<byte>, rest: seq<byte>) | Ended | Cut

  /** The first frame of a byte stream: a big-endian length and that many bytes. */
  function FrameOf(s: seq<byte>): Frame {
    if |s| < 2 then Ended
    else
      var length: int := FromBe16(s[0], s[1]);
      if |s| - 2 < length then Cut else Framed(s[2..2 + length], s[2 + length..])
  }

  method ReadFrame(wire: Wire, chunks: seq<nat>) returns (frame: Frame)
    modifies wire`incoming
    ensures frame == FrameOf(old(wire.incoming))
    ensures frame.Framed? ==> wire.incoming == frame.rest
  {
    ghost var s := wire.incoming;
    var prefix := wire.ReadExact(2, chunks);
    if prefix.None? {
      return Ended;
    }
    assert prefix.value[0] == s[0] && prefix.value[1] == s[1];
    var length: int := FromBe16(prefix.value[0], prefix.value[1]);
    var query := wire.ReadExact(length, chunks);
    if query.None? {
      return Cut;
    }
    assert query.value == s[2..2 + length] && wire.incoming == s[2 + length..];
    frame := Framed(query.value, wire.incoming);
  }

  class Service {
    const mapping: FakeDns
    ghost var history: seq<Name>

    ghost predicate Valid()
      reads this, mapping
    {
      Window(mapping.View(), history)
    }

    constructor ()
      ensures Valid() && history == [] && mapping.View() == EMPTY && fresh(mapping)
    {
      mapping := new FakeDns();
      history := [];
    }

    method Answer(query: seq<byte>) returns (response: Option<seq<byte>>)
      requires Valid()
      modifies this, mapping
      ensures Valid()
      ensures response == Reply(old(mapping.View()), query)
      ensures Run(mapping.View(), history) == ResolveAll(Run(old(mapping.View()), old(history)), Names([query]))
      // A reply always fits the 16-bit length that precedes it on TCP.
      ensures response.Some? ==> |response.value| <= 287
    {
      var parsed := ParseQuery(query);
      if parsed.None? {
        return None;
      }
      var q := parsed.value;
      var packet;
      if q.qtype == 1 {
        AcceptedDomainsFit(query, AddressOf(mapping.View(), q.domain));
        ResolveSlidesWindow(mapping.View(), history, q.domain);
        ghost var fresh_ := q.domain !in mapping.domainToIp;
        var ip := mapping.Resolve(q.domain);
        if fresh_ {
          history := history + [q.domain];
        }
        packet := BuildAResponse(q.id, q.domain, ip);
        assert Names([query]) == [q.domain];
        assert Names([query])[1..] == [];
      } else {
        AcceptedDomainsFit(query, 0);
        packet := BuildEmptyResponse(q.id, q.domain, q.qtype);
      }
      response := Some(packet);
    }

    /** One exchange on a TCP connection: a 16-bit length and a query in, a length and the reply out. */
    method ServeOne(wire: Wire, chunks: seq<nat>) returns (outcome: Served)
      requires Valid()
      modifies this, mapping, wire
      ensures Valid()
      // The reply always fits its length field, so `TooLarge` never happens.
      ensures !outcome.TooLarge? && (outcome.Replied? ==> |outcome.reply| <= 287)
      ensures match FrameOf(old(wire.incoming))
              case Framed(query, rest) =>
                && Reply(old(mapping.View()), query) == (if outcome.Replied? then Some(outcome.reply) else None)
                && wire.incoming == rest && (outcome.Replied? || outcome.Invalid?)
                && Run(mapping.View(), history) == ResolveAll(Run(old(mapping.View()), old(history)), Names([query]))
              case Ended => outcome.EndOfStream? && mapping.View() == old(mapping.View()) && history == old(history)
              case Cut => outcome.Truncated? && mapping.View() == old(mapping.View()) && history == old(history)
      ensures wire.outgoing ==
              old(wire.outgoing) + if outcome.Replied? then Be16(|outcome.reply|) + outcome.reply else []
    {
      var frame := ReadFrame(wire, chunks);
      match frame {
        case Ended => outcome := EndOfStream;
        case Cut => outcome := Truncated;
        case Framed(query, _) =>
          var response := Answer(query);
          if response.None? {
            return Invalid;
          }
          if |response.value| > 0xffff {
            return TooLarge;
          }
          Associate(wire.outgoing, Be16(|response.value|), response.value);
          wire.WriteAll(Be16(|response.value|));
          wire.WriteAll(response.value);
          outcome := Replied(response.value);
      }
    }

    method Target(address: Endpoint) returns (target: Result<Destination, int>)
      requires Valid()
      ensures target == TargetOf(mapping.View(), address)
    {
      if IsFakeIp(address.ip) {
        var domain := mapping.Lookup(address.ip);
        if domain.None? {
          return Err(ENETUNREACH);
        }
        target := Ok(Host(domain.value, address.port));
      } else {
        target := Ok(Numeric(address));
      }
    }
  }

  /** The domains allocated for by a sequence of packets. */
  function Names(queries: seq<seq<byte>>): seq<Name> {
    if queries == [] then []
    else
      (match Asked(queries[0]) case Some(domain) => [domain] case None => []) + Names(queries[1..])
  }

  lemma {:induction false} ResolveAllAppend(start: Run, first: seq<Name>, second: seq<Name>)
    requires start.mapping.nextOffset < POOL_SIZE
    ensures ResolveAll(start, first + second) == ResolveAll(ResolveAll(start, first), second)
    decreases |first|
  {
    if first == [] {
      assert first + second == second;
    } else {
      assert (first + second)[1..] == first[1..] + second;
      var m := start.mapping;
      var history := if first[0] in m.domainToIp then start.history else start.history + [first[0]];
      ResolveAllAppend(Run(Resolved(m, first[0]), history), first[1..], second);
    }
  }

  /** Where the address in an answer comes from: an allocation still inside the window. */
  lemma AnswerIsLive(start: Run, domain: Name) returns (i: nat)
    requires Window(start.mapping, start.history)
    ensures var after := ResolveAll(start, [domain]);
            && Window(after.mapping, after.history)
            && Live(after.history, i) && after.history[i] == domain
            && Address(i) == AddressOf(start.mapping, domain)
            && (domain !in start.mapping.domainToIp ==> i == |start.history|)
  {
    var m, history := start.mapping, start.history;
    ResolveSlidesWindow(m, history, domain);
    assert [domain][1..] == [];
    if domain in m.domainToIp {
      i :| Live(history, i) && history[i] == domain;
    } else {
      i := |history|;
    }
  }

  /**
   * The address answered for a domain leads back to that domain, whatever is asked in between,
   * until POOL_SIZE newer domains have been allocated.
   */
  lemma AnswerLeadsBack(start: Run, domain: Name, later: seq<seq<byte>>, port: u16) returns (i: nat)
    requires Window(start.mapping, start.history)
    ensures var end := ResolveAll(start, [domain] + Names(later));
            var address := Endpoint(AddressOf(start.mapping, domain), port);
            && (domain !in start.mapping.domainToIp ==> i == |start.history|)
            && |start.history| - POOL_SIZE <= i <= |start.history|
            && (|end.history| - i <= POOL_SIZE ==> TargetOf(end.mapping, address) == Ok(Host(domain, port)))
  {
    i := AnswerIsLive(start, domain);
    var after := ResolveAll(start, [domain]);
    ResolveAllAppend(start, [domain], Names(later));
    AddressIsStable(after, Names(later), i);
  }

  /**
   * From packet to packet: the address that a client reads out of the reply to a type A query leads back to the
   * domain it asked for, under the same condition. Only a domain with an empty piece, from a dot at an end or next to
   * another, makes a reply in which the name stops early.
   */
  lemma QueryLeadsBack(start: Run, query: seq<byte>, later: seq<seq<byte>>, port: u16) returns (i: nat)
    requires Window(start.mapping, start.history)
    requires Asked(query).Some? && NoEmptyPiece(Asked(query).value)
    ensures Reply(start.mapping, query).Some? && ReadAnswer(Reply(start.mapping, query).value).Some?
    ensures var end := ResolveAll(start, Names([query] + later));
            var address := Endpoint(ReadAnswer(Reply(start.mapping, query).value).value, port);
            && (Asked(query).value !in start.mapping.domainToIp ==> i == |start.history|)
            && |start.history| - POOL_SIZE <= i <= |start.history|
            && (|end.history| - i <= POOL_SIZE ==> TargetOf(end.mapping, address) == Ok(Host(Asked(query).value, port)))
  {
    var domain := Asked(query).value;
    AnswerIsRead(query, AddressOf(start.mapping, domain));
    i := AnswerLeadsBack(start, domain, later, port);
    assert ([query] + later)[1..] == later;
    assert Names([query] + later) == [domain] + Names(later);
  }

  /** The reserved resolver address and unallocated pool addresses are never routed. */
  lemma UnknownFakeAddressesFail(start: Run, address: Endpoint)
    requires Window(start.mapping, start.history) && IsFakeIp(address.ip)
    ensures TargetOf(start.mapping, address) == Err(101) <==>
            forall i :: Live(start.history, i) ==> Address(i) != address.ip
    ensures address.ip == DNS_ADDR ==> TargetOf(start.mapping, address) == Err(101)
  {
    if address.ip in start.mapping.ipToDomain {
      var i :| Live(start.history, i) && Address(i) == address.ip;
    }
  }

  predicate Short(names: seq<Name>) {
    forall i :: 0 <= i < |names| ==> |names[i]| <= MAX_DOMAIN
  }

  lemma {:induction false} NamesAreShort(queries: seq<seq<byte>>)
    ensures Short(Names(queries))
  {
    if queries != [] {
      NamesAreShort(queries[1..]);
    }
  }

  lemma {:induction false} HistoryIsShort(start: Run, domains: seq<Name>)
    requires start.mapping.nextOffset < POOL_SIZE && Short(start.history) && Short(domains)
    ensures Short(ResolveAll(start, domains).history)
    decreases |domains|
  {
    if domains != [] {
      var m := start.mapping;
      var history := if domains[0] in m.domainToIp then start.history else start.history + [domains[0]];
      HistoryIsShort(Run(Resolved(m, domains[0]), history), domains[1..]);
    }
  }

  /** Every host recovered from an address was once accepted from a packet, so it keeps the parser's limit. */
  lemma HostsAreShort(queries: seq<seq<byte>>, address: Endpoint)
    ensures var target := TargetOf(ResolveAll(Run(EMPTY, []), Names(queries)).mapping, address);
            target.Ok? && target.value.Host? ==> |target.value.name| <= MAX_DOMAIN
  {
    var end := ResolveAll(Run(EMPTY, []), Names(queries));
    NamesAreShort(queries);
    HistoryIsShort(Run(EMPTY, []), Names(queries));
    WindowIsKept(Run(EMPTY, []), Names(queries));
    if address.ip in end.mapping.ipToDomain {
      var i :| Live(end.history, i) && Address(i) == address.ip;
    }
  }

  /** The reply carries the query's identifier, one question, and one answer for type A or none for any other. */
  lemma ReplyMatchesQuery(m: Mapping, query: seq<byte>)
    requires m.nextOffset < POOL_SIZE && Parse(query).Some?
    ensures var reply, isA := Reply(m, query).value, Parse(query).value.qtype == 1;
            && |reply| >= 12 && reply[..2] == query[..2]
            && reply[2..12] == [0x81, 0x80, 0, 1, 0, if isA then 1 else 0, 0, 0, 0, 0]
            && (isA ==> |reply| >= 28 && reply[|reply| - 16..] == AnswerRecord(AddressOf(m, Parse(query).value.domain)))
  {
    var q := Parse(query).value;
    var answers := if q.qtype == 1 then 1 else 0;
    var header, question := ResponseHeader(q.id, answers), Question(q.domain, q.qtype);
    IdIsEchoed(query, answers);
    if q.qtype == 1 {
      var record := AnswerRecord(AddressOf(m, q.domain));
      var reply := header + question + record;
      assert reply[|reply| - 16..] == record;
      assert reply[..12] == header;
      assert reply[..2] == reply[..12][..2] && reply[2..12] == reply[..12][2..];
    } else {
      var reply := header + question;
      assert reply[..12] == header;
      assert reply[..2] == reply[..12][..2] && reply[2..12] == reply[..12][2..];
    }
  }

  lemma IdIsEchoed(query: seq<byte>, answers: byte)
    requires Parse(query).Some?
    ensures var header := ResponseHeader(Parse(query).value.id, answers);
            header[..2] == query[..2] && header[2..] == [0x81, 0x80, 0, 1, 0, answers, 0, 0, 0, 0]
  {
    ParsedId(query);
  }

  /** Addresses outside 198.18.0.1 to 198.19.255.254 are passed on as they are, and only those. */
  lemma NumericPasses(m: Mapping, address: Endpoint)
    ensures TargetOf(m, address) == Ok(Numeric(address)) <==> address.ip < 0xC612_0001 || address.ip > 0xC613_FFFE
  {
  }
}
