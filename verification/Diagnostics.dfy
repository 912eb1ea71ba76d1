/** Walking a netlink socket dump: messages packed into datagrams, cookies collected into a set. */
module Diagnostics {
  import opened Common

  const HEADER: nat := 16
  const KIND_ERROR: u16 := 2
  const KIND_DONE: u16 := 3
  const KIND_SOCKET: u16 := 20
  const BUFFER: nat := 65536

  // ---- Native (little-endian) integers ----

  function Le16(n: u16): (s: seq<byte>)
    ensures |s| == 2 && FromLe16(s) == n
  {
    [n % 256, n / 256]
  }

  function FromLe16(s: seq<byte>): u16
    requires |s| == 2
  {
    var low: int, high: int := s[0], s[1];
    high * 256 + low
  }

  function Le32(n: u32): (s: seq<byte>)
    ensures |s| == 4 && FromLe32(s) == n
  {
    var low, high := Le16(n % 0x1_0000), Le16(n / 0x1_0000);
    assert (low + high)[..2] == low && (low + high)[2..] == high;
    low + high
  }

  function FromLe32(s: seq<byte>): u32
    requires |s| == 4
  {
    var low: int, high: int := FromLe16(s[..2]), FromLe16(s[2..]);
    high * 0x1_0000 + low
  }

  // ---- What one message asks for ----

  datatype Message = Message(kind: u16, flags: u16, payload: seq<byte>)

  /** `Errno` keeps the code as found on the wire, before its sign is turned round. */
  datatype Problem = Truncated | Malformed | Interrupted | Errno(raw: u32)

  /** `More`: the dump goes on; `Done`: it is complete. */
  datatype Walk = More(cookies: set<u64>) | Done(cookies: set<u64>) | Fail(problem: Problem)

  function Cookie(payload: seq<byte>): u64
    requires |payload| >= 72
  {
    var low: int, high: int := FromLe32(payload[44..48]), FromLe32(payload[48..52]);
    high * 0x1_0000_0000 + low
  }

  /** The dump was interrupted and is inconsistent. */
  predicate Flagged(m: Message) {
    m.flags / 16 % 2 == 1
  }

  /** An error message that is no acknowledgement. */
  predicate IsError(m: Message) {
    m.kind == KIND_ERROR && (|m.payload| < 4 || FromLe32(m.payload[..4]) != 0)
  }

  predicate IsSocket(m: Message) {
    m.kind == KIND_SOCKET && |m.payload| >= 72
  }

  function Handle(m: Message, cookies: set<u64>): Walk {
    if Flagged(m) then Fail(Interrupted)
    else if m.kind == KIND_DONE then Done(cookies)
    else if IsError(m) then Fail(if |m.payload| < 4 then Malformed else Errno(FromLe32(m.payload[..4])))
    else if IsSocket(m) then More(cookies + {Cookie(m.payload)})
    else More(cookies)
  }

  function HandleAll(messages: seq<Message>, cookies: set<u64>): Walk {
    if messages == [] then More(cookies)
    else
      match Handle(messages[0], cookies)
      case More(more) => HandleAll(messages[1..], more)
      case stop => stop
  }

  // ---- The walk over a datagram ----

  function Align(length: nat): (n: nat)
    ensures length <= n < length + 4 && n % 4 == 0
  {
    (length + 3) / 4 * 4
  }

  function First(s: seq<byte>): Message
    requires |s| >= HEADER && HEADER <= FromLe32(s[0..4]) <= |s|
  {
    Message(FromLe16(s[4..6]), FromLe16(s[6..8]), s[HEADER..FromLe32(s[0..4])])
  }

  function WalkDatagram(s: seq<byte>, cookies: set<u64>): Walk {
    if |s| < HEADER then More(cookies)
    else
      var length := FromLe32(s[0..4]);
      if length < HEADER || length > |s| then Fail(Malformed)
      else
        match Handle(First(s), cookies)
        case More(more) => if Align(length) <= |s| then WalkDatagram(s[Align(length)..], more) else More(more)
        case stop => stop
  }

  /** The header fields of the message at an offset are those of the remaining bytes. */
  lemma SameSlices(buffer: seq<byte>, offset: nat, from: nat, to: nat)
    requires offset + to <= |buffer| && from <= to
    ensures buffer[offset + from..offset + to] == buffer[offset..][from..to]
  {
  }

  lemma TailOfTail(buffer: seq<byte>, offset: nat, step: nat)
    requires offset + step <= |buffer|
    ensures buffer[offset..][step..] == buffer[offset + step..]
  {
  }

  /** The message at an offset, read field by field. */
  method ReadMessage(buffer: seq<byte>, offset: nat) returns (length: u32, m: Option<Message>)
    requires offset + HEADER <= |buffer|
    ensures length == FromLe32(buffer[offset..][0..4])
    ensures m.Some? <==> HEADER <= length && offset + length <= |buffer|
    ensures m.Some? ==> m.value == First(buffer[offset..])
  {
    SameSlices(buffer, offset, 0, 4);
    length := FromLe32(buffer[offset + 0..offset + 4]);
    if length < HEADER || offset + length > |buffer| {
      return length, None;
    }
    SameSlices(buffer, offset, 4, 6);
    SameSlices(buffer, offset, 6, 8);
    SameSlices(buffer, offset, HEADER, length);
    var kind, flags := FromLe16(buffer[offset + 4..offset + 6]), FromLe16(buffer[offset + 6..offset + 8]);
    m := Some(Message(kind, flags, buffer[offset + HEADER..offset + length]));
  }

  /** The inner loop, by offset into the buffer; it always moves forward and stays inside. */
  method WalkBuffer(buffer: seq<byte>, before: set<u64>) returns (r: Walk)
    ensures r == WalkDatagram(buffer, before)
  {
    var offset: nat := 0;
    var cookies := before;
    assert buffer[0..] == buffer;
    while offset + HEADER <= |buffer|
      invariant WalkDatagram(buffer, before) ==
                if offset <= |buffer| then WalkDatagram(buffer[offset..], cookies) else More(cookies)
      decreases |buffer| - offset
    {
      var length, m := ReadMessage(buffer, offset);
      if m.None? {
        return Fail(Malformed);
      }
      var step := Handle(m.value, cookies);
      if !step.More? {
        return step;
      }
      if offset + Align(length) <= |buffer| {
        TailOfTail(buffer, offset, Align(length));
      }
      cookies := step.cookies;
      offset := offset + Align(length);
    }
    r := More(cookies);
  }

  datatype Reception = Datagram(bytes: seq<byte>) | Again | RecvFailed(code: u32)

  /** The outer loop over whatever the socket delivers; `More` means the schedule ended first. */
  method Snapshot(receptions: seq<Reception>) returns (r: Walk)
    ensures r == Collect(receptions, {})
  {
    var cookies := {};
    var i := 0;
    assert receptions[0..] == receptions;
    while i < |receptions|
      invariant 0 <= i <= |receptions|
      invariant Collect(receptions, {}) == Collect(receptions[i..], cookies)
    {
      assert receptions[i..][1..] == receptions[i + 1..];
      match receptions[i] {
        case Again =>
        case RecvFailed(code) => return Fail(Errno(code));
        case Datagram(bytes) =>
          if |bytes| == 0 || |bytes| > BUFFER {
            return Fail(Truncated);
          }
          var step := WalkBuffer(bytes, cookies);
          if !step.More? {
            return step;
          }
          cookies := step.cookies;
      }
      i := i + 1;
    }
    r := More(cookies);
  }

  function Collect(receptions: seq<Reception>, cookies: set<u64>): Walk {
    if receptions == [] then More(cookies)
    else
      match receptions[0]
      case Again => Collect(receptions[1..], cookies)
      case RecvFailed(code) => Fail(Errno(code))
      case Datagram(bytes) =>
        if |bytes| == 0 || |bytes| > BUFFER then Fail(Truncated)
        else
          match WalkDatagram(bytes, cookies)
          case More(more) => Collect(receptions[1..], more)
          case stop => stop
  }

  // ---- The walk undoes the kernel's packing ----

  /** A message as the kernel lays it out; sequence number and port id are eight arbitrary bytes. */
  function Packed(m: Message, ids: seq<byte>, padding: seq<byte>): seq<byte>
    requires HEADER + |m.payload| < 0x1_0000_0000
  {
    Le32(HEADER + |m.payload|) + Le16(m.kind) + Le16(m.flags) + ids + m.payload + padding
  }

  datatype Laid = Laid(message: Message, ids: seq<byte>, padding: seq<byte>) {
    predicate Valid() {
      && HEADER + |message.payload| < 0x1_0000_0000 && |ids| == 8
      && |padding| == Align(HEADER + |message.payload|) - (HEADER + |message.payload|)
    }
  }

  predicate AllValid(laid: seq<Laid>) {
    forall i :: 0 <= i < |laid| ==> laid[i].Valid()
  }

  function Pack(laid: seq<Laid>): seq<byte>
    requires AllValid(laid)
  {
    if laid == [] then [] else Packed(laid[0].message, laid[0].ids, laid[0].padding) + Pack(laid[1..])
  }

  function Messages(laid: seq<Laid>): seq<Message> {
    if laid == [] then [] else [laid[0].message] + Messages(laid[1..])
  }

  lemma HeaderFields(length: seq<byte>, kind: seq<byte>, flags: seq<byte>, ids: seq<byte>, body: seq<byte>)
    requires |length| == 4 && |kind| == 2 && |flags| == 2 && |ids| == 8
    ensures var s := length + kind + flags + ids + body;
            s[0..4] == length && s[4..6] == kind && s[6..8] == flags && s[HEADER..] == body
  {
    var head := length + kind + flags + ids;
    var s := head + body;
    assert head[0..4] == length && head[4..6] == kind && head[6..8] == flags;
    assert s[..HEADER] == head && s[HEADER..] == body;
    assert s[0..4] == s[..HEADER][0..4] && s[4..6] == s[..HEADER][4..6] && s[6..8] == s[..HEADER][6..8];
  }

  lemma BodyParts(s: seq<byte>, payload: seq<byte>, padding: seq<byte>, rest: seq<byte>)
    requires |s| >= HEADER && s[HEADER..] == payload + (padding + rest)
    ensures s[HEADER..HEADER + |payload|] == payload && s[HEADER + |payload| + |padding|..] == rest
  {
    var body := s[HEADER..];
    assert body[..|payload|] == payload && body[|payload|..] == padding + rest;
    assert body[|payload| + |padding|..] == (padding + rest)[|padding|..] == rest;
    assert s[HEADER..HEADER + |payload|] == body[..|payload|];
    assert s[HEADER + |payload| + |padding|..] == body[|payload| + |padding|..];
  }

  lemma UnpacksFirst(l: Laid, rest: seq<byte>)
    requires l.Valid()
    ensures var s := Packed(l.message, l.ids, l.padding) + rest;
            && |s| >= HEADER && FromLe32(s[0..4]) == HEADER + |l.message.payload| <= |s|
            && First(s) == l.message
            && Align(FromLe32(s[0..4])) <= |s| && s[Align(FromLe32(s[0..4]))..] == rest
  {
    var m := l.message;
    var length, kind, flags := Le32(HEADER + |m.payload|), Le16(m.kind), Le16(m.flags);
    var head := length + kind + flags + l.ids;
    var s := Packed(m, l.ids, l.padding) + rest;
    assert s == head + (m.payload + (l.padding + rest)) by {
      Associate(head + m.payload, l.padding, rest);
      Associate(head, m.payload, l.padding + rest);
    }
    HeaderFields(length, kind, flags, l.ids, m.payload + (l.padding + rest));
    BodyParts(s, m.payload, l.padding, rest);
  }

  /** A datagram of packed messages is handled message by message. */
  lemma {:induction false} WalkUnpacks(laid: seq<Laid>, cookies: set<u64>)
    requires AllValid(laid)
    ensures WalkDatagram(Pack(laid), cookies) == HandleAll(Messages(laid), cookies)
  {
    if laid != [] {
      var s := Packed(laid[0].message, laid[0].ids, laid[0].padding) + Pack(laid[1..]);
      UnpacksFirst(laid[0], Pack(laid[1..]));
      assert Messages(laid)[1..] == Messages(laid[1..]);
      var step := Handle(laid[0].message, cookies);
      if step.More? {
        WalkUnpacks(laid[1..], step.cookies);
      }
    }
  }

  // ---- Exactly which dumps are taken, and for which set ----

  predicate IsDone(m: Message) {
    m.kind == KIND_DONE && !Flagged(m)
  }

  /** The dump goes on after this message: a socket, an acknowledgement, a short message or any other kind. */
  predicate Passes(m: Message) {
    !Flagged(m) && m.kind != KIND_DONE && !IsError(m)
  }

  predicate AllPass(messages: seq<Message>) {
    forall i :: 0 <= i < |messages| ==> Passes(messages[i])
  }

  function CookieSet(messages: seq<Message>): set<u64> {
    set i | 0 <= i < |messages| && IsSocket(messages[i]) :: Cookie(messages[i].payload)
  }

  function CookieOf(m: Message): set<u64> {
    if IsSocket(m) then {Cookie(m.payload)} else {}
  }

  lemma CookiesOfRest(messages: seq<Message>)
    requires messages != []
    ensures CookieSet(messages) == CookieOf(messages[0]) + CookieSet(messages[1..])
  {
    forall c | c in CookieSet(messages)
      ensures c in CookieOf(messages[0]) + CookieSet(messages[1..])
    {
      var i :| 0 <= i < |messages| && IsSocket(messages[i]) && Cookie(messages[i].payload) == c;
      assert i > 0 ==> messages[1..][i - 1] == messages[i];
    }
    forall c | c in CookieSet(messages[1..])
      ensures c in CookieSet(messages)
    {
      var i :| 0 <= i < |messages[1..]| && IsSocket(messages[1..][i]) && Cookie(messages[1..][i].payload) == c;
      assert messages[i + 1] == messages[1..][i];
    }
  }

  /** Messages that pass contribute the cookies of the sockets among them, and nothing else. */
  lemma {:induction false} PassedAreCollected(messages: seq<Message>, cookies: set<u64>)
    requires AllPass(messages)
    ensures HandleAll(messages, cookies) == More(cookies + CookieSet(messages))
  {
    if messages == [] {
      assert cookies + CookieSet(messages) == cookies;
    } else {
      var more := cookies + CookieOf(messages[0]);
      assert Handle(messages[0], cookies) == More(more);
      PassedAreCollected(messages[1..], more);
      CookiesOfRest(messages);
      assert more + CookieSet(messages[1..]) == cookies + CookieSet(messages);
    }
  }

  /** The first message that does not pass, or the length. */
  function FirstStop(messages: seq<Message>): (k: nat)
    ensures k <= |messages| && AllPass(messages[..k]) && (k < |messages| ==> !Passes(messages[k]))
  {
    if messages == [] || !Passes(messages[0]) then 0
    else
      var k := FirstStop(messages[1..]);
      assert messages[..k + 1] == [messages[0]] + messages[1..][..k];
      k + 1
  }

  lemma StopIsHandled(messages: seq<Message>, cookies: set<u64>)
    requires messages != [] && !Passes(messages[0])
    ensures HandleAll(messages, cookies) == Handle(messages[0], cookies)
  {
  }

  /** Whatever the messages are: the first that does not pass decides, with the cookies collected before it. */
  lemma FirstStopDecides(messages: seq<Message>)
    ensures var k := FirstStop(messages);
            HandleAll(messages, {}) ==
            if k == |messages| then More(CookieSet(messages)) else Handle(messages[k], CookieSet(messages[..k]))
  {
    var k := FirstStop(messages);
    if k == |messages| {
      assert messages[..k] == messages;
      CollectedThen(messages, []);
      assert messages + [] == messages;
    } else {
      CollectedThen(messages[..k], messages[k..]);
      assert messages[..k] + messages[k..] == messages;
      StopIsHandled(messages[k..], CookieSet(messages[..k]));
    }
  }

  lemma CollectedThen(passed: seq<Message>, rest: seq<Message>)
    requires AllPass(passed)
    ensures HandleAll(passed + rest, {}) == HandleAll(rest, CookieSet(passed))
  {
    PassedAreCollected(passed, {});
    assert {} + CookieSet(passed) == CookieSet(passed);
    HandleAllAppend(passed, rest, {});
  }

  function AllMessages(datagrams: seq<seq<Laid>>): seq<Message> {
    if datagrams == [] then [] else Messages(datagrams[0]) + AllMessages(datagrams[1..])
  }

  function Received(datagrams: seq<seq<Laid>>): seq<Reception>
    requires Deliverable(datagrams)
  {
    if datagrams == [] then [] else [Datagram(Pack(datagrams[0]))] + Received(datagrams[1..])
  }

  /** Every datagram is well laid out, not empty and fits the buffer. */
  predicate Deliverable(datagrams: seq<seq<Laid>>) {
    forall i :: 0 <= i < |datagrams| ==> AllValid(datagrams[i]) && 0 < |Pack(datagrams[i])| <= BUFFER
  }

  lemma {:induction false} HandleAllAppend(a: seq<Message>, b: seq<Message>, cookies: set<u64>)
    ensures HandleAll(a + b, cookies) ==
            var first := HandleAll(a, cookies);
            if first.More? then HandleAll(b, first.cookies) else first
  {
    if a == [] {
      assert a + b == b;
    } else {
      assert (a + b)[0] == a[0] && (a + b)[1..] == a[1..] + b;
      var step := Handle(a[0], cookies);
      if step.More? {
        HandleAllAppend(a[1..], b, step.cookies);
      }
    }
  }

  /** How messages are split over datagrams does not matter. */
  lemma {:induction false} DatagramsDoNotMatter(datagrams: seq<seq<Laid>>, cookies: set<u64>)
    requires Deliverable(datagrams)
    ensures Collect(Received(datagrams), cookies) == HandleAll(AllMessages(datagrams), cookies)
  {
    if datagrams != [] {
      var first, others := datagrams[0], datagrams[1..];
      WalkUnpacks(first, cookies);
      HandleAllAppend(Messages(first), AllMessages(others), cookies);
      assert Received(datagrams)[0] == Datagram(Pack(first)) && Received(datagrams)[1..] == Received(others);
      var step := WalkDatagram(Pack(first), cookies);
      if step.More? {
        DatagramsDoNotMatter(others, step.cookies);
      }
    }
  }

  predicate StopsAt(messages: seq<Message>, k: nat) {
    k < |messages| && AllPass(messages[..k]) && !Passes(messages[k])
  }

  lemma StopIsUnique(messages: seq<Message>, k: nat)
    requires StopsAt(messages, k)
    ensures FirstStop(messages) == k
  {
    var j := FirstStop(messages);
    assert forall i :: 0 <= i < k ==> Passes(messages[..k][i]) && messages[..k][i] == messages[i];
    assert forall i :: 0 <= i < j ==> Passes(messages[..j][i]) && messages[..j][i] == messages[i];
  }

  /** A dump is taken for a set exactly if it reaches an unflagged "done", and the set is of all sockets before that. */
  lemma DumpIsExact(datagrams: seq<seq<Laid>>, cookies: set<u64>)
    requires Deliverable(datagrams)
    ensures var messages := AllMessages(datagrams);
            Collect(Received(datagrams), {}) == Done(cookies) <==>
            exists k: nat ::
              && StopsAt(messages, k) && messages[k].kind == 3 && messages[k].flags / 16 % 2 == 0
              && cookies == CookieSet(messages[..k])
  {
    var messages := AllMessages(datagrams);
    DatagramsDoNotMatter(datagrams, {});
    FirstStopDecides(messages);
    var j := FirstStop(messages);
    assert j < |messages| ==> StopsAt(messages, j);
    forall k: nat | StopsAt(messages, k)
      ensures k == j
    {
      StopIsUnique(messages, k);
    }
  }

  /** It fails as interrupted exactly if a flagged message comes before any "done" or error. */
  lemma InterruptedDumpFails(datagrams: seq<seq<Laid>>)
    requires Deliverable(datagrams)
    ensures var messages := AllMessages(datagrams);
            Collect(Received(datagrams), {}) == Fail(Interrupted) <==>
            exists k: nat :: StopsAt(messages, k) && Flagged(messages[k])
  {
    var messages := AllMessages(datagrams);
    DatagramsDoNotMatter(datagrams, {});
    FirstStopDecides(messages);
    var j := FirstStop(messages);
    assert j < |messages| ==> StopsAt(messages, j);
    forall k: nat | StopsAt(messages, k)
      ensures k == j
    {
      StopIsUnique(messages, k);
    }
  }

  // ---- The messages, byte by byte ----

  /** The dump goes on unless a message is flagged, says "done", or carries an error other than four zero bytes. */
  lemma PassesExactly(m: Message)
    ensures Passes(m) <==>
            && m.flags / 16 % 2 == 0 && m.kind != 3
            && (m.kind == 2 ==> |m.payload| >= 4 && m.payload[..4] == [0, 0, 0, 0])
  {
    if |m.payload| >= 4 {
      ZeroBytes(m.payload[..4]);
    }
  }

  lemma ZeroBytes(s: seq<byte>)
    requires |s| == 4
    ensures FromLe32(s) == 0 <==> s == [0, 0, 0, 0]
  {
  }

  /** Four bytes, the lowest first. */
  function Word(a: int, b: int, c: int, d: int): int {
    a + 0x100 * b + 0x1_0000 * c + 0x100_0000 * d
  }

  lemma WordOf(s: seq<byte>)
    requires |s| == 4
    ensures FromLe32(s) == Word(s[0], s[1], s[2], s[3])
  {
  }

  /** A socket message names its socket 44 bytes into its payload: low word first, each word low byte first. */
  lemma CookieIsAt(payload: seq<byte>, front: seq<byte>, low: seq<byte>, high: seq<byte>, rest: seq<byte>)
    requires payload == front + (low + (high + rest)) && |front| == 44 && |low| == |high| == 4 && |payload| >= 72
    ensures Cookie(payload) ==
            Word(low[0], low[1], low[2], low[3]) + 0x1_0000_0000 * Word(high[0], high[1], high[2], high[3])
  {
    assert payload[44..] == low + (high + rest);
    assert payload[44..48] == payload[44..][..4] == low;
    assert payload[48..52] == payload[44..][4..8] == high;
    WordOf(low);
    WordOf(high);
  }

  /** Which messages count as sockets. */
  lemma ListedExactly(messages: seq<Message>, cookie: u64)
    ensures cookie in CookieSet(messages) <==>
            exists i :: && 0 <= i < |messages| && messages[i].kind == 20 && |messages[i].payload| >= 72
                        && Cookie(messages[i].payload) == cookie
  {
  }
}
