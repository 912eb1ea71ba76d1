/** The DNS packet parser and printer (sections 3.1 and 4.1 of RFC 1035). */
module DnsWire {
  import opened Common
  import opened FakeDns
  import opened Text

  const DOT: byte := 46
  const HEADER: nat := 12
  const MAX_DOMAIN: nat := 253

  // ---- Names as labels, as dotted text and as wire bytes ----

  function Join(labels: seq<Name>): Name {
    if labels == [] then []
    else if |labels| == 1 then labels[0]
    else labels[0] + [DOT] + Join(labels[1..])
  }

  /** Where the first dot is, or the length if there is none. */
  function FirstDot(domain: Name): (i: nat)
    ensures i <= |domain|
    ensures i < |domain| ==> domain[i] == DOT
    ensures forall j :: 0 <= j < i ==> domain[j] != DOT
  {
    if domain == [] || domain[0] == DOT then 0 else 1 + FirstDot(domain[1..])
  }

  /** The text split at every dot. */
  function Pieces(domain: Name): (pieces: seq<Name>)
    ensures |pieces| > 0
  {
    var i := FirstDot(domain);
    if i == |domain| then [domain] else [domain[..i]] + Pieces(domain[i + 1..])
  }

  /** Length-prefixed labels, the length cut to a byte as the cast does. */
  function WireLabels(labels: seq<Name>): seq<byte> {
    if labels == [] then []
    else [|labels[0]| % 256] + labels[0] + WireLabels(labels[1..])
  }

  function EncodedName(domain: Name): seq<byte> {
    (if domain == [] then [] else WireLabels(Pieces(domain))) + [0]
  }

  predicate DotFree(part: Name) {
    FirstDot(part) == |part|
  }

  predicate AllDotFree(labels: seq<Name>) {
    forall i :: 0 <= i < |labels| ==> DotFree(labels[i])
  }

  predicate LabelSizes(labels: seq<Name>) {
    forall i :: 0 <= i < |labels| ==> 1 <= |labels[i]| < 64
  }

  predicate LabelTexts(labels: seq<Name>) {
    labels == [] || (Utf8(labels[0]) && LabelTexts(labels[1..]))
  }

  method EncodeName(buffer: seq<byte>, domain: Name) returns (extended: seq<byte>)
    ensures extended == buffer + EncodedName(domain)
  {
    extended := buffer;
    if domain != [] {
      var pieces := Pieces(domain);
      var i := 0;
      while i < |pieces|
        invariant 0 <= i <= |pieces|
        invariant extended + WireLabels(pieces[i..]) == buffer + WireLabels(pieces)
      {
        assert pieces[i..][1..] == pieces[i + 1..];
        extended := extended + [|pieces[i]| % 256];
        extended := extended + pieces[i];
        i := i + 1;
      }
      assert WireLabels(pieces[i..]) == [];
      assert extended == buffer + WireLabels(pieces);
    }
    extended := extended + [0];
    assert extended == buffer + EncodedName(domain);
  }

  // ---- The parser ----

  datatype Parsed = Parsed(labels: seq<Name>, rest: seq<byte>)

  /** Reads labels up to and including the zero byte; `rest` is what follows. */
  function ParseName(s: seq<byte>): (r: Option<Parsed>)
    ensures r.Some? ==> |r.value.rest| < |s| && LabelSizes(r.value.labels)
  {
    if s == [] then None
    else if s[0] == 0 then Some(Parsed([], s[1..]))
    else if s[0] >= 64 || 1 + s[0] > |s| then None // either of the top two bits is set, or too short
    else if !Utf8(s[1..1 + s[0]]) then None
    else
      match ParseName(s[1 + s[0]..])
      case None => None
      case Some(p) => Some(Parsed([s[1..1 + s[0]]] + p.labels, p.rest))
  }

  datatype Query = Query(id: u16, domain: Name, qtype: u16)

  function Parse(data: seq<byte>): (r: Option<Query>)
    ensures r.Some? ==> |r.value.domain| <= MAX_DOMAIN
    ensures r.Some? ==> |data| > HEADER && ParseName(data[HEADER..]).Some?
  {
    if |data| < HEADER || data[2] >= 128 || FromBe16(data[4], data[5]) == 0 then None
    else
      match ParseName(data[HEADER..])
      case None => None
      case Some(p) =>
        if |p.rest| < 4 || |Join(p.labels)| > MAX_DOMAIN then None
        else Some(Query(FromBe16(data[0], data[1]), Join(p.labels), FromBe16(p.rest[0], p.rest[1])))
  }

  /** The parser's loop; every index it uses is in range and it stops on every byte string. */
  method ParseQuery(data: seq<byte>) returns (r: Option<Query>)
    ensures r == Parse(data)
  {
    if |data| < 12 {
      return None;
    }
    var id := FromBe16(data[0], data[1]);
    var flags := FromBe16(data[2], data[3]);
    if flags / 0x8000 != 0 {
      return None;
    }
    var qdcount := FromBe16(data[4], data[5]);
    if qdcount == 0 {
      return None;
    }
    var labels, pos := DecodeName(data);
    if pos.None? || pos.value + 4 > |data| {
      return None;
    }
    assert data[pos.value..][0] == data[pos.value] && data[pos.value..][1] == data[pos.value + 1];
    var qtype := FromBe16(data[pos.value], data[pos.value + 1]);
    var domain := Join(labels);
    if |domain| > 253 {
      return None;
    }
    r := Some(Query(id, domain, qtype));
  }

  /** The labels and the position after them. */
  method DecodeName(data: seq<byte>) returns (labels: seq<Name>, end: Option<nat>)
    requires |data| >= HEADER
    ensures end.Some? ==> end.value <= |data|
    ensures ParseName(data[HEADER..]) ==
            if end.None? then None else Some(Parsed(labels, data[end.value..]))
  {
    var pos := 12;
    labels := [];
    PrependNothing(ParseName(data[HEADER..]));
    while true
      invariant 12 <= pos <= |data|
      invariant ParseName(data[HEADER..]) == Prepend(labels, ParseName(data[pos..]))
      decreases |data| - pos
    {
      ghost var s := data[pos..];
      if pos >= |data| {
        return labels, None;
      }
      var length := data[pos];
      if length == 0 {
        assert labels + [] == labels && s[1..] == data[pos + 1..];
        return labels, Some(pos + 1);
      }
      if length / 64 != 0 {
        return labels, None;
      }
      pos := pos + 1;
      var next := pos + length;
      if next > |data| {
        return labels, None;
      }
      assert data[pos..next] == s[1..1 + length] && data[next..] == s[1 + length..];
      if !Utf8(data[pos..next]) {
        return labels, None;
      }
      PrependOne(labels, data[pos..next], ParseName(data[next..]));
      labels := labels + [data[pos..next]];
      pos := next;
    }
  }

  ghost function Prepend(labels: seq<Name>, r: Option<Parsed>): Option<Parsed> {
    match r
    case None => None
    case Some(p) => Some(Parsed(labels + p.labels, p.rest))
  }

  lemma PrependNothing(r: Option<Parsed>)
    ensures Prepend([], r) == r
  {
    if r.Some? {
      assert [] + r.value.labels == r.value.labels;
    }
  }

  lemma PrependOne(labels: seq<Name>, part: Name, rest: Option<Parsed>)
    ensures Prepend(labels, Prepend([part], rest)) == Prepend(labels + [part], rest)
  {
    if rest.Some? {
      assert labels + ([part] + rest.value.labels) == labels + [part] + rest.value.labels;
    }
  }

  // ---- The printer ----

  function ResponseHeader(id: u16, answers: byte): (h: seq<byte>)
    ensures |h| == HEADER
  {
    Be16(id) + [0x81, 0x80, 0, 1, 0, answers, 0, 0, 0, 0]
  }

  function Question(domain: Name, qtype: u16): seq<byte> {
    EncodedName(domain) + Be16(qtype) + [0, 1]
  }

  function AnswerRecord(ip: u32): (a: seq<byte>)
    ensures |a| == 16
  {
    // Pointer to the question, type A, class IN, time to live, data length.
    Be16(0xC00C) + (Be16(1) + (Be16(1) + (Be32(300) + (Be16(4) + Be32(ip)))))
  }

  method BuildEmptyResponse(id: u16, domain: Name, qtype: u16) returns (packet: seq<byte>)
    ensures packet == ResponseHeader(id, 0) + Question(domain, qtype)
  {
    packet := Be16(id);
    packet := packet + Be16(0x8180);
    packet := packet + Be16(1);
    packet := packet + Be16(0);
    packet := packet + Be16(0);
    packet := packet + Be16(0);
    assert packet == ResponseHeader(id, 0);
    packet := EncodeName(packet, domain);
    packet := packet + Be16(qtype);
    packet := packet + Be16(1);
  }

  method BuildAResponse(id: u16, domain: Name, ip: u32) returns (packet: seq<byte>)
    ensures packet == ResponseHeader(id, 1) + Question(domain, 1) + AnswerRecord(ip)
  {
    packet := BuildEmptyResponse(id, domain, 1);
    packet := packet[6 := Be16(1)[0]][7 := Be16(1)[1]];
    assert packet == ResponseHeader(id, 1) + Question(domain, 1);
    ghost var front := packet;
    packet := packet + Be16(0xC00C);
    packet := packet + Be16(1);
    packet := packet + Be16(1);
    packet := packet + Be32(300);
    packet := packet + Be16(4);
    packet := packet + Be32(ip);
    Reassociate(front, Be16(0xC00C), Be16(1), Be16(1), Be32(300), Be16(4), Be32(ip));
  }

  // ---- Splitting and joining ----

  lemma {:induction false} PiecesAppend(left: Name, right: Name)
    ensures Pieces(left + [DOT] + right) == Pieces(left) + Pieces(right)
    decreases |left|
  {
    var i := FirstDot(left);
    var whole := left + [DOT] + right;
    Associate(left, [DOT], right);
    FirstDotAppend(left, [DOT] + right);
    if i < |left| {
      assert whole[i + 1..] == left[i + 1..] + [DOT] + right && whole[..i] == left[..i];
      PiecesAppend(left[i + 1..], right);
      Associate([left[..i]], Pieces(left[i + 1..]), Pieces(right));
    } else {
      assert whole[i + 1..] == right && whole[..i] == left;
    }
  }

  lemma {:induction false} FirstDotAppend(left: Name, tail: Name)
    requires tail != [] && tail[0] == DOT
    ensures FirstDot(left + tail) == FirstDot(left)
  {
    if left == [] {
      assert left + tail == tail;
    } else {
      assert (left + tail)[1..] == left[1..] + tail;
      FirstDotAppend(left[1..], tail);
    }
  }

  /** Splitting undoes joining exactly when no label holds a dot of its own. */
  lemma {:induction false} SplitUndoesJoin(labels: seq<Name>)
    requires labels != [] && AllDotFree(labels)
    ensures Pieces(Join(labels)) == labels
  {
    if |labels| > 1 {
      SplitUndoesJoin(labels[1..]);
      PiecesAppend(labels[0], Join(labels[1..]));
    }
  }

  lemma {:induction false} PiecesAreShort(domain: Name)
    ensures forall p :: p in Pieces(domain) ==> |p| <= |domain| && DotFree(p)
    decreases |domain|
  {
    var i := FirstDot(domain);
    if i < |domain| {
      var first, others := domain[..i], Pieces(domain[i + 1..]);
      PiecesAreShort(domain[i + 1..]);
      NoDotBefore(domain, i);
      WithFirst(first, others, |domain|);
    }
  }

  lemma WithFirst(first: Name, others: seq<Name>, n: nat)
    requires |first| <= n && DotFree(first)
    requires forall p :: p in others ==> |p| <= n && DotFree(p)
    ensures forall p :: p in [first] + others ==> |p| <= n && DotFree(p)
  {
  }

  lemma {:induction false} NoDotBefore(domain: Name, i: nat)
    requires i <= FirstDot(domain)
    ensures DotFree(domain[..i])
  {
    if i > 0 {
      assert domain[..i][1..] == domain[1..][..i - 1];
      NoDotBefore(domain[1..], i - 1);
    }
  }

  /** Even when labels hold dots, splitting the joined text only yields shorter pieces. */
  lemma {:induction false} JoinedPiecesAreShort(labels: seq<Name>)
    requires labels != [] && forall i :: 0 <= i < |labels| ==> |labels[i]| < 64
    ensures forall p :: p in Pieces(Join(labels)) ==> |p| < 64
  {
    PiecesAreShort(labels[0]);
    if |labels| > 1 {
      JoinedPiecesAreShort(labels[1..]);
      PiecesAppend(labels[0], Join(labels[1..]));
    }
  }

  // ---- Sizes ----

  lemma {:induction false} WireLength(domain: Name)
    ensures |WireLabels(Pieces(domain))| == |domain| + 1
    decreases |domain|
  {
    var i := FirstDot(domain);
    if i < |domain| {
      WireLength(domain[i + 1..]);
      assert ([domain[..i]] + Pieces(domain[i + 1..]))[1..] == Pieces(domain[i + 1..]);
    } else {
      assert WireLabels([domain][1..]) == [];
    }
  }

  /** The labels the parser finds in an accepted packet, and the bytes after them. */
  function Found(data: seq<byte>): Parsed
    requires Parse(data).Some?
  {
    ParseName(data[HEADER..]).value
  }

  lemma JoinIsEmpty(labels: seq<Name>)
    requires LabelSizes(labels)
    ensures Join(labels) == [] <==> labels == []
  {
    if labels != [] {
      assert |labels[0]| >= 1;
    }
  }

  /** Every accepted domain fits section 3.1's limits again when it is printed, and so does the whole reply. */
  lemma AcceptedDomainsFit(data: seq<byte>, ip: u32)
    requires Parse(data).Some?
    ensures var q := Parse(data).value;
            && |EncodedName(q.domain)| <= 255
            && (q.domain != [] ==> forall p :: p in Pieces(q.domain) ==> |p| < 64)
            && |ResponseHeader(q.id, 1) + Question(q.domain, 1) + AnswerRecord(ip)| <= 287
            && |ResponseHeader(q.id, 0) + Question(q.domain, q.qtype)| <= 271
  {
    var q, labels := Parse(data).value, Found(data).labels;
    JoinIsEmpty(labels);
    WireLength(q.domain);
    if labels != [] {
      JoinedPiecesAreShort(labels);
    }
  }

  // ---- Round trips ----

  lemma WireLabelsCons(first: Name, others: seq<Name>)
    ensures WireLabels([first] + others) == [|first| % 256] + first + WireLabels(others)
  {
    assert ([first] + others)[1..] == others;
  }

  lemma HeadSplits(s: seq<byte>, n: nat)
    requires 1 + n <= |s|
    ensures s == [s[0]] + s[1..1 + n] + s[1 + n..]
  {
  }

  /** The wire form of a label, then of others and the end, is that of all of them and the end. */
  lemma WireUnfolds(first: Name, others: seq<Name>, rest: seq<byte>)
    ensures [|first| % 256] + first + (WireLabels(others) + [0] + rest) == WireLabels([first] + others) + [0] + rest
  {
    var head := [|first| % 256] + first;
    WireLabelsCons(first, others);
    Associate(head, WireLabels(others), [0]);
    Associate(head, WireLabels(others) + [0], rest);
  }

  /** Soundness: what was parsed is the wire form of the labels it returned. */
  lemma {:induction false} ParsedBytes(s: seq<byte>, p: Parsed)
    requires ParseName(s) == Some(p)
    ensures s == WireLabels(p.labels) + [0] + p.rest
  {
    if s[0] == 0 {
      assert s == [0] + s[1..];
    } else {
      ParseStep(s);
      var others := ParseName(s[1 + s[0]..]).value;
      ParsedBytes(s[1 + s[0]..], others);
      Recombine(s, others.labels, others.rest);
    }
  }

  lemma ParseStep(s: seq<byte>)
    requires ParseName(s).Some? && s[0] != 0
    ensures 1 + s[0] <= |s| && s[0] < 64 && ParseName(s[1 + s[0]..]).Some?
    ensures var others := ParseName(s[1 + s[0]..]).value;
            ParseName(s).value == Parsed([s[1..1 + s[0]]] + others.labels, others.rest)
  {
  }

  lemma Recombine(s: seq<byte>, others: seq<Name>, rest: seq<byte>)
    requires s != [] && 1 + s[0] <= |s| && s[1 + s[0]..] == WireLabels(others) + [0] + rest
    ensures s == WireLabels([s[1..1 + s[0]]] + others) + [0] + rest
  {
    HeadSplits(s, s[0]);
    WireUnfolds(s[1..1 + s[0]], others, rest);
  }

  /** Completeness: the wire form of any well-formed labels is parsed back to those labels. */
  lemma {:induction false} ParsesWireLabels(labels: seq<Name>, rest: seq<byte>, s: seq<byte>)
    requires LabelSizes(labels) && LabelTexts(labels)
    requires s == WireLabels(labels) + ([0] + rest)
    ensures ParseName(s) == Some(Parsed(labels, rest))
  {
    if labels == [] {
      assert s[1..] == rest;
    } else {
      var first, others := labels[0], labels[1..];
      var tail := WireLabels(others) + ([0] + rest);
      ParsesWireLabels(others, rest, tail);
      assert s == [|first|] + first + tail by {
        Associate([|first|] + first, WireLabels(others), [0] + rest);
      }
      ParseLeading(first, tail, Parsed(others, rest));
      assert [first] + others == labels;
      assert ParseName(s) == Some(Parsed(labels, rest));
    }
  }

  lemma LeadingLabel(s: seq<byte>, first: Name, tail: seq<byte>)
    requires s == [|first|] + first + tail && |first| < 64
    ensures s[0] == |first| && s[1..1 + |first|] == first && s[1 + |first|..] == tail
  {
  }

  lemma ParseLeading(first: Name, tail: seq<byte>, p: Parsed)
    requires 1 <= |first| < 64 && Utf8(first) && ParseName(tail) == Some(p)
    ensures ParseName([|first|] + first + tail) == Some(Parsed([first] + p.labels, p.rest))
  {
    LeadingLabel([|first|] + first + tail, first, tail);
  }

  /** A packet is accepted exactly if it is a query header, well-formed labels, and at least four more bytes. */
  lemma AcceptedExactly(header: seq<byte>, labels: seq<Name>, rest: seq<byte>)
    requires |header| == HEADER && LabelSizes(labels) && LabelTexts(labels)
    ensures var data := header + (WireLabels(labels) + [0] + rest);
            Parse(data) ==
            if header[2] >= 128 || FromBe16(header[4], header[5]) == 0 || |rest| < 4 || |Join(labels)| > 253
            then None
            else Some(Query(FromBe16(header[0], header[1]), Join(labels), FromBe16(rest[0], rest[1])))
  {
    var data := header + (WireLabels(labels) + [0] + rest);
    Associate(WireLabels(labels), [0], rest);
    assert data[..HEADER] == header;
    ParsesWireLabels(labels, rest, data[HEADER..]);
  }

  /** Printing the joined labels gives their wire form back exactly when none holds a dot. */
  lemma {:induction false} ReprintsLabels(labels: seq<Name>)
    requires labels != [] && LabelSizes(labels)
    ensures WireLabels(Pieces(Join(labels))) == WireLabels(labels) <==> AllDotFree(labels)
  {
    if AllDotFree(labels) {
      SplitUndoesJoin(labels);
    } else {
      DotsChangeTheWire(labels);
    }
  }

  lemma {:induction false} DotsChangeTheWire(labels: seq<Name>)
    requires labels != [] && LabelSizes(labels) && !AllDotFree(labels)
    ensures WireLabels(Pieces(Join(labels))) != WireLabels(labels)
  {
    if DotFree(labels[0]) {
      DotsChangeTheWire(labels[1..]);
      var others := Pieces(Join(labels[1..]));
      PiecesAppend(labels[0], Join(labels[1..]));
      assert Pieces(Join(labels)) == [labels[0]] + others;
      WireLabelsCons(labels[0], others);
      WireLabelsCons(labels[0], labels[1..]);
      assert labels == [labels[0]] + labels[1..];
      if WireLabels(Pieces(Join(labels))) == WireLabels(labels) {
        SameTail([|labels[0]| % 256] + labels[0], WireLabels(others), WireLabels(labels[1..]));
        assert false;
      }
    } else {
      FirstPieceIsShorter(labels);
    }
  }

  lemma FirstWireByte(labels: seq<Name>)
    requires labels != [] && |labels[0]| < 256
    ensures WireLabels(labels) != [] && WireLabels(labels)[0] == |labels[0]|
  {
  }

  lemma FirstPiece(labels: seq<Name>)
    requires labels != [] && !DotFree(labels[0])
    ensures Pieces(Join(labels))[0] == labels[0][..FirstDot(labels[0])]
  {
    assert Pieces(labels[0])[0] == labels[0][..FirstDot(labels[0])];
    if |labels| > 1 {
      PiecesAppend(labels[0], Join(labels[1..]));
    }
  }

  lemma FirstPieceIsShorter(labels: seq<Name>)
    requires labels != [] && LabelSizes(labels) && !DotFree(labels[0])
    ensures WireLabels(Pieces(Join(labels))) != WireLabels(labels)
  {
    var pieces := Pieces(Join(labels));
    assert |pieces[0]| < |labels[0]| < 64 by { FirstPiece(labels); }
    FirstWireByte(pieces);
    FirstWireByte(labels);
  }

  /** The printed name has the length of the parsed one, and its bytes exactly for dot-free labels. */
  lemma NameIsEchoed(labels: seq<Name>)
    requires LabelSizes(labels)
    ensures |EncodedName(Join(labels))| == |WireLabels(labels) + [0]|
    ensures EncodedName(Join(labels)) == WireLabels(labels) + [0] <==> AllDotFree(labels)
  {
    JoinIsEmpty(labels);
    JoinLength(labels);
    if labels != [] {
      WireLength(Join(labels));
      ReprintsLabels(labels);
      SplitsAt(WireLabels(Pieces(Join(labels))), [0], WireLabels(labels), [0]);
    }
  }

  /** The question section of an accepted packet: its name, type and class. */
  function AskedQuestion(data: seq<byte>): seq<byte>
    requires Parse(data).Some?
  {
    data[HEADER..|data| - |Found(data).rest| + 4]
  }

  /** The reply's question section is the query's own, byte for byte, exactly for dot-free labels and class IN. */
  lemma QuestionIsEchoed(data: seq<byte>)
    requires Parse(data).Some?
    ensures var p, q := Found(data), Parse(data).value;
            Question(q.domain, q.qtype) == AskedQuestion(data) <==> AllDotFree(p.labels) && p.rest[2..4] == [0, 1]
  {
    var p, q := Found(data), Parse(data).value;
    ParsedBytes(data[HEADER..], p);
    NameIsEchoed(p.labels);
    Slice(data, WireLabels(p.labels) + [0], p.rest);
    Parts(EncodedName(q.domain), WireLabels(p.labels) + [0], p.rest[..4], q.qtype);
  }

  lemma Parts(name: seq<byte>, wire: seq<byte>, tail: seq<byte>, qtype: u16)
    requires |name| == |wire| && |tail| == 4 && qtype == FromBe16(tail[0], tail[1])
    ensures name + Be16(qtype) + [0, 1] == wire + tail <==> name == wire && tail[2..4] == [0, 1]
  {
    assert Be16(qtype) == tail[..2];
    assert wire + tail == wire + tail[..2] + tail[2..4];
    SplitsAt(name, Be16(qtype), wire, tail[..2]);
    SplitsAt(name + Be16(qtype), [0, 1], wire + tail[..2], tail[2..4]);
  }

  lemma Slice(data: seq<byte>, name: seq<byte>, rest: seq<byte>)
    requires |data| >= HEADER && data[HEADER..] == name + rest && |rest| >= 4
    ensures data[HEADER..|data| - |rest| + 4] == name + rest[..4]
  {
    assert data[HEADER..|data| - |rest| + 4] == data[HEADER..][..|name| + 4];
  }

  lemma {:induction false} JoinLength(labels: seq<Name>)
    ensures labels != [] ==> |Join(labels)| + 1 == |WireLabels(labels)|
    ensures labels == [] ==> |WireLabels(labels)| == 0
  {
    if |labels| > 1 {
      JoinLength(labels[1..]);
    } else if |labels| == 1 {
      assert WireLabels(labels[1..]) == [];
    }
  }

  // ---- The compression pointer of the answer ----

  /** Reference reader for section 4.1.4: a pointer may only go backwards. */
  function ReadName(packet: seq<byte>, pos: nat, bound: nat): Option<seq<Name>>
    decreases bound, |packet| - pos
  {
    if pos >= |packet| then None
    else
      var length := packet[pos];
      if length == 0 then Some([])
      else if length >= 192 then
        if pos + 1 >= |packet| then None
        else
          var offset := FromBe16(length - 192, packet[pos + 1]);
          if offset < bound then ReadName(packet, offset, offset) else None
      else if length >= 64 || pos + 1 + length > |packet| then None
      else
        match ReadName(packet, pos + 1 + length, bound)
        case None => None
        case Some(rest) => Some([packet[pos + 1..pos + 1 + length]] + rest)
  }

  lemma LabelUnfolds(first: Name, others: seq<Name>, rest: seq<byte>)
    requires |first| < 64
    ensures WireLabels([first] + others) + [0] + rest == [|first|] + first + (WireLabels(others) + [0] + rest)
  {
    assert |first| % 256 == |first|;
    WireUnfolds(first, others, rest);
  }

  /** The first of several labels, at its place in a packet. */
  lemma LabelAt(packet: seq<byte>, pos: nat, first: Name, others: seq<Name>, rest: seq<byte>)
    requires |first| < 64 && pos <= |packet| && packet[pos..] == WireLabels([first] + others) + [0] + rest
    ensures var next := pos + 1 + |first|;
            && next <= |packet| && packet[pos] == |first| && packet[pos + 1..next] == first
            && packet[next..] == WireLabels(others) + [0] + rest
  {
    LabelUnfolds(first, others, rest);
    BytesAt(packet, pos, first, WireLabels(others) + [0] + rest);
  }

  lemma BytesAt(packet: seq<byte>, pos: nat, first: Name, tail: seq<byte>)
    requires |first| < 64 && pos <= |packet| && packet[pos..] == [|first|] + first + tail
    ensures var next := pos + 1 + |first|;
            next <= |packet| && packet[pos] == |first| && packet[pos + 1..next] == first && packet[next..] == tail
  {
    LeadingLabel(packet[pos..], first, tail);
    InPacket(packet, pos, 1, 1 + |first|);
  }

  lemma InPacket(packet: seq<byte>, pos: nat, from: nat, to: nat)
    requires pos <= |packet| && from <= to <= |packet| - pos
    ensures packet[pos..][from..to] == packet[pos + from..pos + to] && packet[pos..][to..] == packet[pos + to..]
  {
  }

  lemma {:induction false} ReadsWireLabels(packet: seq<byte>, pos: nat, labels: seq<Name>, rest: seq<byte>, bound: nat)
    requires LabelSizes(labels)
    requires pos <= |packet| && packet[pos..] == WireLabels(labels) + [0] + rest
    ensures ReadName(packet, pos, bound) == Some(labels)
    decreases |labels|
  {
    if labels == [] {
      ReadEnd(packet, pos, rest, bound);
    } else {
      var first, others := labels[0], labels[1..];
      assert [first] + others == labels;
      LabelAt(packet, pos, first, others, rest);
      ReadsWireLabels(packet, pos + 1 + |first|, others, rest, bound);
      ReadStep(packet, pos, first, others, bound);
    }
  }

  lemma ReadEnd(packet: seq<byte>, pos: nat, rest: seq<byte>, bound: nat)
    requires pos <= |packet| && packet[pos..] == WireLabels([]) + [0] + rest
    ensures ReadName(packet, pos, bound) == Some([])
  {
    assert packet[pos] == packet[pos..][0] == 0;
  }

  lemma ReadStep(packet: seq<byte>, pos: nat, first: Name, others: seq<Name>, bound: nat)
    requires 1 <= |first| < 64 && pos + 1 + |first| <= |packet|
    requires packet[pos] == |first| && packet[pos + 1..pos + 1 + |first|] == first
    requires ReadName(packet, pos + 1 + |first|, bound) == Some(others)
    ensures ReadName(packet, pos, bound) == Some([first] + others)
  {
  }

  /** The answer's name, read through its pointer, is the name that was asked for. */
  lemma AnswerPointsAtQuestion(data: seq<byte>, ip: u32)
    requires Parse(data).Some? && AllDotFree(Found(data).labels)
    ensures var labels, q := Found(data).labels, Parse(data).value;
            var packet := ResponseHeader(q.id, 1) + Question(q.domain, 1) + AnswerRecord(ip);
            var answer := HEADER + |Question(q.domain, 1)|;
            && ReadName(packet, HEADER, HEADER) == Some(labels)
            && ReadName(packet, answer, answer) == Some(labels)
  {
    var labels, q := Found(data).labels, Parse(data).value;
    NameIsEchoed(labels);
    PointerReads(ResponseHeader(q.id, 1), labels, Be16(1), [0, 1], AnswerRecord(ip));
  }

  lemma PointerReads(header: seq<byte>, labels: seq<Name>, kind: seq<byte>, class_: seq<byte>, record: seq<byte>)
    requires |header| == HEADER && LabelSizes(labels)
    requires |record| >= 2 && record[0] == 0xC0 && record[1] == 0x0C
    ensures var question := WireLabels(labels) + [0] + kind + class_;
            var packet, answer := header + question + record, HEADER + |question|;
            && ReadName(packet, HEADER, HEADER) == Some(labels)
            && ReadName(packet, answer, answer) == Some(labels)
  {
    var question := WireLabels(labels) + [0] + kind + class_;
    var packet, answer := header + question + record, HEADER + |question|;
    AfterHeader(header, WireLabels(labels) + [0], kind, class_, record);
    ReadsWireLabels(packet, HEADER, labels, kind + class_ + record, HEADER);
    FollowsPointer(packet, answer);
  }

  lemma AfterHeader(header: seq<byte>, name: seq<byte>, kind: seq<byte>, class_: seq<byte>, record: seq<byte>)
    ensures var question := name + kind + class_;
            var packet := header + question + record;
            && packet[|header|..] == name + (kind + class_ + record)
            && packet[|header| + |question|..] == record
  {
    var question := name + kind + class_;
    Associate(name, kind, class_);
    Associate(name, kind + class_, record);
    Associate(header, question, record);
  }

  lemma FollowsPointer(packet: seq<byte>, answer: nat)
    requires HEADER < answer && answer + 1 < |packet| && packet[answer] == 0xC0 && packet[answer + 1] == 0x0C
    ensures ReadName(packet, answer, answer) == ReadName(packet, HEADER, HEADER)
  {
    assert FromBe16(0xC0 - 192, 0x0C) == HEADER;
  }

  // ---- Where the echo fails ----

  /** What the parser finds in a packet made of a query header, labels and the bytes after them. */
  lemma FindsLabels(header: seq<byte>, labels: seq<Name>, rest: seq<byte>)
    requires |header| == HEADER && header[2] < 128 && FromBe16(header[4], header[5]) != 0
    requires LabelSizes(labels) && LabelTexts(labels) && |Join(labels)| <= MAX_DOMAIN && |rest| >= 4
    ensures var data := header + (WireLabels(labels) + [0] + rest);
            && Parse(data) == Some(Query(FromBe16(header[0], header[1]), Join(labels), FromBe16(rest[0], rest[1])))
            && Found(data) == Parsed(labels, rest)
  {
    var data := header + (WireLabels(labels) + [0] + rest);
    AcceptedExactly(header, labels, rest);
    Associate(WireLabels(labels), [0], rest);
    ParsesWireLabels(labels, rest, data[HEADER..]);
  }

  /** Every well-formed query of another class is answered as if its class were IN. */
  lemma OtherClassIsNotEchoed(header: seq<byte>, labels: seq<Name>, qtype: u16, class_: u16)
    requires |header| == HEADER && header[2] < 128 && FromBe16(header[4], header[5]) != 0
    requires LabelSizes(labels) && LabelTexts(labels) && |Join(labels)| <= MAX_DOMAIN && class_ != 1
    ensures var data := header + (WireLabels(labels) + [0] + (Be16(qtype) + Be16(class_)));
            && Parse(data).Some? && Parse(data).value.qtype == qtype
            && Question(Parse(data).value.domain, qtype) != AskedQuestion(data)
  {
    var rest := Be16(qtype) + Be16(class_);
    FindsLabels(header, labels, rest);
    assert rest[2..4] == Be16(class_) != [0, 1];
    QuestionIsEchoed(header + (WireLabels(labels) + [0] + rest));
  }

  /** A query for the one-byte label "." is accepted, and three zero bytes take the place of its name in the reply. */
  lemma DotLabelIsNotEchoed(header: seq<byte>, qtype: u16)
    requires |header| == HEADER && header[2] < 128 && FromBe16(header[4], header[5]) != 0
    ensures var data := header + ([1, DOT, 0] + (Be16(qtype) + [0, 1]));
            && Parse(data) == Some(Query(FromBe16(header[0], header[1]), [46], qtype))
            && AskedQuestion(data) == [1, 46, 0] + (Be16(qtype) + [0, 1])
            && Question([DOT], qtype) == [0, 0, 0] + (Be16(qtype) + [0, 1])
  {
    var name: seq<byte>, rest := [1, DOT, 0], Be16(qtype) + [0, 1];
    DotWire();
    DotText();
    FindsLabels(header, [[DOT]], rest);
    var data := header + (name + rest);
    assert data[HEADER..] == name + rest;
    Slice(data, name, rest);
    assert rest[..4] == rest;
    DotPrints();
    Associate([0, 0, 0], Be16(qtype), [0, 1]);
  }

  lemma DotWire()
    ensures WireLabels([[DOT]]) + [0] == [1, DOT, 0]
  {
    WireLabelsCons([DOT], []);
    assert [[DOT]] + [] == [[DOT]];
  }

  lemma DotText()
    ensures LabelTexts([[DOT]]) && LabelSizes([[DOT]]) && Join([[DOT]]) == [DOT]
  {
    assert [[DOT]][1..] == [] && [DOT][1..] == [];
    assert Utf8([DOT]);
  }

  /** A reader of that reply finds the root name, type 0, and the asked type in the place of the class. */
  lemma DotReplyIsMisread(id: u16, qtype: u16)
    ensures var packet := ResponseHeader(id, 0) + Question([DOT], qtype);
            && ReadName(packet, HEADER, HEADER) == Some([])
            && FromBe16(packet[HEADER + 1], packet[HEADER + 2]) == 0
            && FromBe16(packet[HEADER + 3], packet[HEADER + 4]) == qtype
  {
    var header, question := ResponseHeader(id, 0), Question([DOT], qtype);
    DotPrints();
    Associate([0, 0, 0], Be16(qtype), [0, 1]);
    var packet := header + question;
    assert packet[HEADER..] == [0, 0, 0] + (Be16(qtype) + [0, 1]);
    assert packet[HEADER] == packet[HEADER..][0] && packet[HEADER + 1] == packet[HEADER..][1];
    assert packet[HEADER + 2] == packet[HEADER..][2];
    assert packet[HEADER + 3] == packet[HEADER..][3] == Be16(qtype)[0];
    assert packet[HEADER + 4] == packet[HEADER..][4] == Be16(qtype)[1];
  }

  lemma DotPrints()
    ensures EncodedName([DOT]) == [0, 0, 0]
  {
    var empty: Name := [];
    assert [DOT][..0] == empty && [DOT][1..] == empty;
    assert Pieces(empty) == [empty];
    assert Pieces([DOT]) == [empty] + [empty];
    WireLabelsCons(empty, [empty]);
    WireLabelsCons(empty, []);
    assert [empty] + [] == [empty];
  }

  // ---- Reading the address out of a reply ----

  /** Where a name ends, at its zero byte or its pointer. */
  function SkipName(packet: seq<byte>, pos: nat): Option<nat>
    decreases |packet| - pos
  {
    if pos >= |packet| then None
    else
      var length := packet[pos];
      if length == 0 then Some(pos + 1)
      else if length >= 192 then Some(pos + 2)
      else if length >= 64 then None
      else SkipName(packet, pos + 1 + length)
  }

  /** Reference reader for section 4.1.3: the address in the first record after one question. */
  function ReadAnswer(packet: seq<byte>): Option<u32> {
    if |packet| < HEADER || FromBe16(packet[6], packet[7]) == 0 then None
    else
      match SkipName(packet, HEADER)
      case None => None
      case Some(question) =>
        match SkipName(packet, question + 4)
        case None => None
        case Some(r) =>
          if && r + 14 <= |packet| && packet[r..r + 2] == [0, 1] && packet[r + 2..r + 4] == [0, 1]
             && packet[r + 8..r + 10] == [0, 4]
          then Some(FromBe32(packet[r + 10..r + 14]))
          else None
  }

  lemma {:induction false} SkipsWireLabels(packet: seq<byte>, pos: nat, labels: seq<Name>, rest: seq<byte>)
    requires LabelSizes(labels)
    requires pos <= |packet| && packet[pos..] == WireLabels(labels) + [0] + rest
    ensures SkipName(packet, pos) == Some(|packet| - |rest|)
    decreases |labels|
  {
    if labels == [] {
      assert packet[pos] == packet[pos..][0] == 0;
    } else {
      var first, others := labels[0], labels[1..];
      assert [first] + others == labels;
      LabelAt(packet, pos, first, others, rest);
      SkipsWireLabels(packet, pos + 1 + |first|, others, rest);
    }
  }

  /** No label is lost between two dots or at an end, so a reader sees where the printed name stops. */
  predicate NoEmptyPiece(domain: Name) {
    domain != [] ==> forall p :: p in Pieces(domain) ==> p != []
  }

  /** The labels that are printed for a domain. */
  function PrintedLabels(domain: Name): seq<Name> {
    if domain == [] then [] else Pieces(domain)
  }

  lemma PrintedSizes(data: seq<byte>)
    requires Parse(data).Some? && NoEmptyPiece(Parse(data).value.domain)
    ensures LabelSizes(PrintedLabels(Parse(data).value.domain))
  {
    var labels := PrintedLabels(Parse(data).value.domain);
    AcceptedDomainsFit(data, 0);
    forall i | 0 <= i < |labels|
      ensures 1 <= |labels[i]| < 64
    {
      assert labels[i] in labels;
    }
  }

  /** Two labels written as one with a dot in it are no obstacle: they print as two. */
  lemma DottedLabelIsReadable(left: Name, right: Name)
    requires left != [] && right != [] && DotFree(left) && DotFree(right)
    ensures NoEmptyPiece(left + [DOT] + right)
  {
    PiecesAppend(left, right);
  }

  /** Every label a reader finds in any packet has 1 to 63 bytes. */
  lemma {:induction false} ReadSizes(packet: seq<byte>, pos: nat, bound: nat)
    requires ReadName(packet, pos, bound).Some?
    ensures LabelSizes(ReadName(packet, pos, bound).value)
    decreases bound, |packet| - pos
  {
    var length := packet[pos];
    if length >= 192 {
      var offset := FromBe16(length - 192, packet[pos + 1]);
      ReadSizes(packet, offset, offset);
    } else if length > 0 {
      ReadSizes(packet, pos + 1 + length, bound);
    }
  }

  /** A reader of the reply finds the printed labels exactly if none of them is empty. */
  lemma NameIsReadExactly(data: seq<byte>, header: seq<byte>, rest: seq<byte>)
    requires Parse(data).Some? && |header| == HEADER
    ensures var domain := Parse(data).value.domain;
            ReadName(header + (EncodedName(domain) + rest), HEADER, HEADER) == Some(PrintedLabels(domain)) <==>
            NoEmptyPiece(domain)
  {
    var domain := Parse(data).value.domain;
    var labels, packet := PrintedLabels(domain), header + (EncodedName(domain) + rest);
    if NoEmptyPiece(domain) {
      PrintedSizes(data);
      assert packet[HEADER..] == WireLabels(labels) + [0] + rest;
      ReadsWireLabels(packet, HEADER, labels, rest, HEADER);
    } else if ReadName(packet, HEADER, HEADER) == Some(labels) {
      ReadSizes(packet, HEADER, HEADER);
      assert false;
    }
  }

  /** Any client that reads the reply finds the address it was built with. */
  lemma AnswerIsRead(data: seq<byte>, ip: u32)
    requires Parse(data).Some? && NoEmptyPiece(Parse(data).value.domain)
    ensures var q := Parse(data).value;
            ReadAnswer(ResponseHeader(q.id, 1) + Question(q.domain, 1) + AnswerRecord(ip)) == Some(ip)
  {
    var q := Parse(data).value;
    var labels := PrintedLabels(q.domain);
    PrintedSizes(data);
    assert EncodedName(q.domain) == WireLabels(labels) + [0];
    Associate(WireLabels(labels) + [0], Be16(1), [0, 1]);
    ReadsRecord(ResponseHeader(q.id, 1), labels, Be16(1) + [0, 1], ip);
  }

  lemma Between(front: seq<byte>, part: seq<byte>, rest: seq<byte>)
    ensures var s := front + (part + rest);
            s[|front|..|front| + |part|] == part && s == front + part + rest
  {
    assert (front + (part + rest))[|front|..] == part + rest;
  }

  lemma ReadsRecord(header: seq<byte>, labels: seq<Name>, tail: seq<byte>, ip: u32)
    requires |header| == HEADER && FromBe16(header[6], header[7]) != 0 && LabelSizes(labels) && |tail| == 4
    ensures ReadAnswer(header + (WireLabels(labels) + [0] + tail) + AnswerRecord(ip)) == Some(ip)
  {
    var name, record := WireLabels(labels) + [0], AnswerRecord(ip);
    var front := header + (name + tail);
    var packet := front + record;
    assert packet[HEADER..] == name + (tail + record) by {
      Associate(header, name + tail, record);
      Associate(name, tail, record);
    }
    SkipsWireLabels(packet, HEADER, labels, tail + record);
    assert packet[6] == header[6] && packet[7] == header[7];
    RecordAt(front, ip);
    assert packet[|front|] == packet[|front|..|front| + 2][0] == 0xC0;
  }

  lemma RecordAt(front: seq<byte>, ip: u32)
    ensures var packet, r := front + AnswerRecord(ip), |front| + 2;
            && |packet| == r + 14 && packet[|front|..r] == [0xC0, 0x0C] && packet[r + 4..r + 8] == Be32(300)
            && packet[r..r + 2] == [0, 1] && packet[r + 2..r + 4] == [0, 1]
            && packet[r + 8..r + 10] == [0, 4] && packet[r + 10..r + 14] == Be32(ip)
  {
    var address := Be32(ip);
    var length := Be16(4) + address;
    var lifetime := Be32(300) + length;
    var class_ := Be16(1) + lifetime;
    Between(front, Be16(0xC00C), Be16(1) + class_);
    var a := front + Be16(0xC00C);
    Between(a, Be16(1), class_);
    Between(a + Be16(1), Be16(1), lifetime);
    var b := a + Be16(1) + Be16(1);
    Between(b, Be32(300), length);
    Between(b + Be32(300), Be16(4), address);
    Between(b + Be32(300) + Be16(4), address, []);
    assert address + [] == address;
    assert Be16(0xC00C) == [0xC0, 0x0C] && Be16(1) == [0, 1] && Be16(4) == [0, 4];
  }

  /** Accepted labels are text of 1 to 63 bytes each, so acceptance is exactly what `AcceptedExactly` says. */
  lemma {:induction false} AcceptedLabelsAreText(s: seq<byte>, p: Parsed)
    requires ParseName(s) == Some(p)
    ensures LabelSizes(p.labels) && LabelTexts(p.labels)
  {
    if s[0] != 0 {
      ParseStep(s);
      var others := ParseName(s[1 + s[0]..]).value;
      AcceptedLabelsAreText(s[1 + s[0]..], others);
      assert p.labels[1..] == others.labels;
    }
  }

  /** The address a.b.c.d. */
  function Quad(a: byte, b: byte, c: byte, d: byte): u32 {
    var w: int, x: int, y: int, z: int := a, b, c, d;
    0x100_0000 * w + 0x1_0000 * x + 0x100 * y + z
  }

  lemma Octets(a: byte, b: byte, c: byte, d: byte)
    ensures Be32(Quad(a, b, c, d)) == [a, b, c, d]
  {
    var high: int, low: int := a, c;
    high, low := 256 * high + b, 256 * low + d;
    var n := Quad(a, b, c, d);
    assert n == 0x1_0000 * high + low && n / 0x1_0000 == high && n % 0x1_0000 == low;
    assert Be16(high) == [a, b] && Be16(low) == [c, d];
  }

  /** The answer record, byte by byte: pointer, type A, class IN, five minutes, four octets. */
  lemma RecordBytes(a: byte, b: byte, c: byte, d: byte)
    ensures var r := AnswerRecord(Quad(a, b, c, d));
            && r[0..2] == [0xC0, 0x0C] && r[2..4] == [0, 1] && r[4..6] == [0, 1] && r[6..10] == [0, 0, 1, 44]
            && r[10..12] == [0, 4] && r[12..16] == [a, b, c, d]
  {
    RecordSlices(Quad(a, b, c, d));
    Octets(a, b, c, d);
    Lifetime();
  }

  lemma RecordSlices(ip: u32)
    ensures var r := AnswerRecord(ip);
            && |r| == 16 && r[0..2] == [0xC0, 0x0C] && r[2..4] == [0, 1] && r[4..6] == [0, 1]
            && r[6..10] == Be32(300) && r[10..12] == [0, 4] && r[12..16] == Be32(ip)
  {
    var r := AnswerRecord(ip);
    RecordAt([], ip);
    assert [] + r == r;
  }

  lemma Lifetime()
    ensures Be32(300) == [0, 0, 1, 44]
  {
    Octets(0, 0, 1, 44);
  }

  /** What identifies a query. */
  lemma ParsedId(data: seq<byte>)
    requires Parse(data).Some?
    ensures Be16(Parse(data).value.id) == data[..2]
  {
    PairOfBytes(data[0], data[1]);
  }

  lemma PairOfBytes(high: byte, low: byte)
    ensures Be16(FromBe16(high, low)) == [high, low]
  {
  }
}
