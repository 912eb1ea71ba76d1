/** The HTTP CONNECT handshake: draining the reply line by line without losing tunnel bytes. */
module Http {
  import opened Common
  import opened Text
  import opened Tunnel

  const CR: byte := 13
  const LF: byte := 10
  const SPACE: byte := 32
  const HTTP_PREFIX: seq<byte> := [72, 84, 84, 80, 47] // "HTTP/"

  // ---- Lines ----

  /** The length of the first line including its newline, or of everything if there is none. */
  function LineLength(s: seq<byte>): (n: nat)
    ensures n <= |s|
    ensures s != [] ==> n > 0
    ensures forall i :: 0 <= i < n - 1 ==> s[i] != LF
    ensures n < |s| ==> n > 0 && s[n - 1] == LF
  {
    if s == [] then 0 else if s[0] == LF then 1 else 1 + LineLength(s[1..])
  }

  /** Without the carriage returns and newlines at its end. */
  function TrimEnd(s: seq<byte>): (t: seq<byte>)
    ensures t <= s && (t != [] ==> t[|t| - 1] != 13 && t[|t| - 1] != 10)
    ensures forall i :: |t| <= i < |s| ==> s[i] == 13 || s[i] == 10
  {
    if s == [] then []
    else if s[|s| - 1] == CR || s[|s| - 1] == LF then TrimEnd(s[..|s| - 1])
    else s
  }

  predicate Blank(line: seq<byte>) {
    TrimEnd(line) == []
  }

  // ---- The status line ----

  function FieldLength(s: seq<byte>): (n: nat)
    ensures n <= |s|
  {
    if s == [] || s[0] == SPACE then 0 else 1 + FieldLength(s[1..])
  }

  predicate IsDigit(b: byte) {
    48 <= b <= 57
  }

  function Number(s: seq<byte>): Option<nat> {
    if s == [] then Some(0)
    else
      match Number(s[..|s| - 1])
      case None => None
      case Some(n) => if IsDigit(s[|s| - 1]) then Some(10 * n + s[|s| - 1] - 48) else None
  }

  /** A decimal number as the library reads it: an optional plus sign, then at least one digit, no overflow. */
  function ParseU16(s: seq<byte>): Option<nat> {
    var digits := if |s| > 1 && s[0] == 43 then s[1..] else s;
    if digits == [] then None
    else
      match Number(digits)
      case None => None
      case Some(n) => if n < 0x1_0000 then Some(n) else None
  }

  function ParseStatusCode(line: seq<byte>): Option<nat> {
    var version := FieldLength(line);
    if !(HTTP_PREFIX <= line[..version]) || version == |line| then None
    else
      var rest := line[version + 1..];
      ParseU16(rest[..FieldLength(rest)])
  }

  // ---- What the handshake means, on the whole byte stream ----

  datatype Failure = InvalidText | MalformedStatus | Refused(code: nat)

  /** The bytes after the first blank line; end of stream also ends the headers. */
  function AfterHeaders(s: seq<byte>): Result<seq<byte>, Failure> {
    var n := LineLength(s);
    if !Utf8(s[..n]) then Err(InvalidText)
    else if n == 0 || Blank(s[..n]) then Ok(s[n..])
    else AfterHeaders(s[n..])
  }

  function Handshake(s: seq<byte>): Result<seq<byte>, Failure> {
    var n := LineLength(s);
    if !Utf8(s[..n]) then Err(InvalidText)
    else
      match ParseStatusCode(TrimEnd(s[..n]))
      case None => Err(MalformedStatus)
      case Some(code) => if code != 200 then Err(Refused(code)) else AfterHeaders(s[n..])
  }

  // ---- The buffered reader ----

  const CAPACITY: nat := 8192

  class BufReader {
    const inner: Wire
    var buffer: seq<byte>

    ghost function Unread(): seq<byte>
      reads this, inner
    {
      buffer + inner.incoming
    }

    constructor (inner: Wire)
      ensures this.inner == inner && buffer == []
    {
      this.inner, buffer := inner, [];
    }

    /** Waits for the connection; `chunk` bounds how much happens to have arrived. */
    method FillBuffer(chunk: nat)
      modifies this`buffer, inner`incoming
      ensures Unread() == old(Unread())
      ensures buffer == [] ==> Unread() == []
    {
      if buffer == [] {
        var r := inner.TryRead(CAPACITY, Ready(chunk));
        buffer := r.bytes;
      }
    }

    /** Consumes the buffered part of the current line. */
    method TakePart() returns (part: seq<byte>, found: bool)
      requires buffer != []
      modifies this`buffer
      ensures old(Unread()) == part + Unread() && part != []
      ensures LF !in part[..|part| - 1] && (found <==> part[|part| - 1] == LF)
    {
      var n := LineLength(buffer);
      part := buffer[..n];
      found := part[n - 1] == LF;
      assert buffer == part + buffer[n..];
      buffer := buffer[n..];
    }

    /** Reads through the first newline, or to the end of the stream. */
    method ReadLine(chunks: seq<nat>) returns (line: seq<byte>)
      modifies this`buffer, inner`incoming
      ensures line == old(Unread())[..LineLength(old(Unread()))]
      ensures Unread() == old(Unread())[LineLength(old(Unread()))..]
    {
      line := [];
      ghost var all := Unread();
      var i := 0;
      while true
        invariant all == line + Unread() && LF !in line
        decreases |all| - |line|
      {
        FillBuffer(if i < |chunks| then chunks[i] else CAPACITY);
        i := i + 1;
        if buffer == [] {
          NoNewline(all);
          return;
        }
        ghost var before, rest := line, Unread();
        var part, found := TakePart();
        line := line + part;
        Associate(before, part, Unread());
        if found {
          Ended(before, part, Unread());
          return;
        }
        assert part == part[..|part| - 1] + [part[|part| - 1]];
      }
    }
  }

  lemma Ended(before: seq<byte>, part: seq<byte>, rest: seq<byte>)
    requires LF !in before && part != [] && LF !in part[..|part| - 1] && part[|part| - 1] == LF
    ensures var all := before + part + rest;
            && LineLength(all) == |before + part|
            && all[..LineLength(all)] == before + part && all[LineLength(all)..] == rest
  {
    var all, n := before + part + rest, |before + part|;
    forall i | 0 <= i < n - 1 ensures all[i] != LF {
      if i >= |before| {
        assert all[i] == part[..|part| - 1][i - |before|];
      }
    }
    FirstNewline(all, n);
  }

  lemma {:induction false} FirstNewline(s: seq<byte>, n: nat)
    requires 0 < n <= |s| && s[n - 1] == LF && forall i :: 0 <= i < n - 1 ==> s[i] != LF
    ensures LineLength(s) == n
  {
    if s[0] != LF {
      FirstNewline(s[1..], n - 1);
    }
  }

  lemma {:induction false} NoNewline(s: seq<byte>)
    requires LF !in s
    ensures LineLength(s) == |s|
  {
    if s != [] {
      NoNewline(s[1..]);
    }
  }

  /** The reply phase of `do_connect`; one list of chunk sizes for each line it reads. */
  method DoConnect(wire: Wire, chunks: seq<seq<nat>>) returns (r: Result<ProxyStream, Failure>)
    modifies wire`incoming
    ensures r.Ok? <==> Handshake(old(wire.incoming)).Ok?
    ensures r.Err? ==> Handshake(old(wire.incoming)) == Err(r.error)
    ensures r.Ok? ==> fresh(r.value) && r.value.Valid() && r.value.inner == wire
    ensures r.Ok? ==> r.value.Remaining() == Handshake(old(wire.incoming)).value
  {
    var reader := new BufReader(wire);
    assert reader.Unread() == wire.incoming;
    var status := reader.ReadLine(if 0 < |chunks| then chunks[0] else []);
    if !Utf8(status) {
      return Err(InvalidText);
    }
    var code := ParseStatusCode(TrimEnd(status));
    if code.None? {
      return Err(MalformedStatus);
    }
    if code.value != 200 {
      return Err(Refused(code.value));
    }
    ghost var expected := AfterHeaders(reader.Unread());
    var i := 1;
    while true
      invariant AfterHeaders(reader.Unread()) == expected
      decreases |reader.Unread()|
    {
      ghost var before := reader.Unread();
      var line := reader.ReadLine(if i < |chunks| then chunks[i] else []);
      i := i + 1;
      if !Utf8(line) {
        return Err(InvalidText);
      }
      if Blank(line) {
        break;
      }
      assert line != [];
    }
    var stream := new ProxyStream(wire, reader.buffer);
    r := Ok(stream);
  }

  // ---- Every complete reply hands over exactly what follows it ----

  /** One line of text with its newline. */
  predicate Line(l: seq<byte>) {
    l != [] && l[|l| - 1] == LF && LF !in l[..|l| - 1] && Utf8(l)
  }

  predicate HeaderLines(lines: seq<seq<byte>>) {
    forall i :: 0 <= i < |lines| ==> Line(lines[i]) && !Blank(lines[i])
  }

  function Concat(lines: seq<seq<byte>>): seq<byte> {
    if lines == [] then [] else lines[0] + Concat(lines[1..])
  }

  lemma LineThenRest(l: seq<byte>, rest: seq<byte>)
    requires Line(l)
    ensures var s := l + rest; LineLength(s) == |l| && s[..|l|] == l && s[|l|..] == rest
  {
    Ended([], l, rest);
    assert [] + l + rest == l + rest && [] + l == l;
  }

  lemma {:induction false} DrainsHeaders(lines: seq<seq<byte>>, blank: seq<byte>, rest: seq<byte>)
    requires HeaderLines(lines) && Line(blank) && Blank(blank)
    ensures AfterHeaders(Concat(lines) + (blank + rest)) == Ok(rest)
  {
    if lines == [] {
      assert Concat(lines) + (blank + rest) == blank + rest;
      LineThenRest(blank, rest);
    } else {
      var others := Concat(lines[1..]) + (blank + rest);
      Associate(lines[0], Concat(lines[1..]), blank + rest);
      LineThenRest(lines[0], others);
      DrainsHeaders(lines[1..], blank, rest);
    }
  }

  /** A status line with code 200, any headers, a blank line: the tunnel starts right there. */
  lemma CompleteReplyHandsOver(status: seq<byte>, lines: seq<seq<byte>>, blank: seq<byte>, rest: seq<byte>)
    requires Line(status) && ParseStatusCode(TrimEnd(status)) == Some(200)
    requires HeaderLines(lines) && Line(blank) && Blank(blank)
    ensures Handshake(status + (Concat(lines) + (blank + rest))) == Ok(rest)
  {
    LineThenRest(status, Concat(lines) + (blank + rest));
    DrainsHeaders(lines, blank, rest);
  }

  // ---- Exactly which replies succeed ----

  /** The stream cut after every newline; only the last line may lack one. */
  function LinesOf(s: seq<byte>): seq<seq<byte>> {
    if s == [] then [] else [s[..LineLength(s)]] + LinesOf(s[LineLength(s)..])
  }

  /** A line: no newline before its end, and one there unless it is the last. */
  predicate WellCut(line: seq<byte>, last: bool) {
    line != [] && LF !in line[..|line| - 1] && (!last ==> line[|line| - 1] == LF)
  }

  predicate AllWellCut(lines: seq<seq<byte>>) {
    forall i :: 0 <= i < |lines| ==> WellCut(lines[i], i == |lines| - 1)
  }

  /** No bytes are lost, and newlines are at the ends of lines and nowhere else. */
  lemma {:induction false} LinesAreTheStream(s: seq<byte>)
    ensures Concat(LinesOf(s)) == s
    ensures AllWellCut(LinesOf(s))
  {
    if s != [] {
      var n := LineLength(s);
      var line, rest := s[..n], s[n..];
      LinesAreTheStream(rest);
      FirstLine(s);
      assert line + rest == s;
      OneMoreLine(line, LinesOf(rest));
    }
  }

  lemma FirstLine(s: seq<byte>)
    requires s != []
    ensures WellCut(s[..LineLength(s)], LineLength(s) == |s|)
  {
  }

  lemma OneMoreLine(line: seq<byte>, rest: seq<seq<byte>>)
    requires WellCut(line, rest == []) && AllWellCut(rest)
    ensures var lines := [line] + rest;
            Concat(lines) == line + Concat(rest) && AllWellCut(lines)
  {
    var lines := [line] + rest;
    assert lines[1..] == rest;
    forall i | 0 <= i < |lines|
      ensures WellCut(lines[i], i == |lines| - 1)
    {
      assert i > 0 ==> lines[i] == rest[i - 1];
    }
  }

  predicate AllText(lines: seq<seq<byte>>) {
    forall i :: 0 <= i < |lines| ==> Utf8(lines[i])
  }

  predicate NoneBlank(lines: seq<seq<byte>>) {
    forall i :: 0 <= i < |lines| ==> !Blank(lines[i])
  }

  /** The lines up to and including the first blank one, or all of them if none is blank. */
  function Drained(lines: seq<seq<byte>>): (d: seq<seq<byte>>)
    ensures d <= lines
    ensures forall i :: 0 <= i < |d| - 1 ==> !Blank(d[i])
    ensures |d| < |lines| ==> d != [] && Blank(d[|d| - 1])
  {
    if lines == [] || Blank(lines[0]) then lines[..Min(1, |lines|)]
    else [lines[0]] + Drained(lines[1..])
  }

  function Beyond(lines: seq<seq<byte>>): seq<byte> {
    Concat(lines[|Drained(lines)|..])
  }

  /** Draining reads through the first blank line or to the end; it fails exactly if a line it reads is not text. */
  lemma {:induction false} DrainsExactly(s: seq<byte>)
    ensures AfterHeaders(s) == if AllText(Drained(LinesOf(s))) then Ok(Beyond(LinesOf(s))) else Err(InvalidText)
  {
    if s != [] {
      var n, lines := LineLength(s), LinesOf(s);
      var rest := LinesOf(s[n..]);
      LinesAreTheStream(s[n..]);
      assert lines == [s[..n]] + rest;
      if Blank(lines[0]) {
        assert Drained(lines) == [lines[0]] && lines[1..] == rest;
        assert AllText([lines[0]]) <==> Utf8(lines[0]);
      } else {
        DrainsExactly(s[n..]);
        DrainsOneMore(lines[0], rest);
      }
    }
  }

  lemma DrainsOneMore(line: seq<byte>, rest: seq<seq<byte>>)
    requires !Blank(line)
    ensures var lines := [line] + rest;
            && (AllText(Drained(lines)) <==> Utf8(line) && AllText(Drained(rest)))
            && Beyond(lines) == Beyond(rest)
  {
    var lines, d := [line] + rest, Drained(rest);
    assert lines[1..] == rest;
    assert Drained(lines) == [line] + d;
    assert lines[|d| + 1..] == rest[|d|..];
    forall i | 0 <= i < |d|
      ensures Utf8(([line] + d)[i + 1]) <==> Utf8(d[i])
    {
    }
  }

  predicate Grants(line: seq<byte>) {
    Utf8(line) && ParseStatusCode(TrimEnd(line)) == Some(200)
  }

  /** The tunnel is handed over exactly if the status line grants it and every line drained is text. */
  lemma SucceedsExactly(s: seq<byte>, rest: seq<byte>)
    ensures Handshake(s) == Ok(rest) <==>
            var lines := LinesOf(s);
            lines != [] && Grants(lines[0]) && AllText(Drained(lines[1..])) && rest == Beyond(lines[1..])
  {
    if s != [] {
      var n := LineLength(s);
      DrainsExactly(s[n..]);
      assert LinesOf(s)[0] == s[..n] && LinesOf(s)[1..] == LinesOf(s[n..]);
    }
  }

  lemma {:induction false} ConcatSplits(lines: seq<seq<byte>>, n: nat)
    requires n <= |lines|
    ensures Concat(lines) == Concat(lines[..n]) + Concat(lines[n..])
  {
    if n == 0 {
      assert lines[0..] == lines;
    } else {
      ConcatSplits(lines[1..], n - 1);
      assert lines[..n][0] == lines[0] && lines[..n][1..] == lines[1..][..n - 1];
      assert lines[n..] == lines[1..][n - 1..];
      Associate(lines[0], Concat(lines[1..][..n - 1]), Concat(lines[n..]));
    }
  }

  /** Where draining stopped: at the first blank line, or at the end of lines none of which is blank. */
  predicate StopsRight(headers: seq<seq<byte>>, lines: seq<seq<byte>>) {
    && headers <= lines && (forall i :: 0 <= i < |headers| - 1 ==> !Blank(headers[i]))
    && ((headers != [] && Blank(headers[|headers| - 1])) || headers == lines)
  }

  /** On success the reply is a status line and headers through the first blank line, and the tunnel is all the rest. */
  lemma TunnelFollowsBlankLine(s: seq<byte>) returns (status: seq<byte>, headers: seq<seq<byte>>)
    requires Handshake(s).Ok?
    ensures s == status + Concat(headers) + Handshake(s).value
    ensures LinesOf(s) != [] && status == LinesOf(s)[0] && StopsRight(headers, LinesOf(s)[1..])
    ensures Grants(status) && AllText(headers)
  {
    var lines, rest := LinesOf(s), Handshake(s).value;
    SucceedsExactly(s, rest);
    status, headers := lines[0], Drained(lines[1..]);
    assert s == status + Concat(lines[1..]) by {
      LinesAreTheStream(s);
    }
    DrainsThenHandsOver(lines[1..]);
    Associate(status, Concat(headers), rest);
  }

  lemma DrainsThenHandsOver(lines: seq<seq<byte>>)
    ensures Concat(lines) == Concat(Drained(lines)) + Beyond(lines)
  {
    ConcatSplits(lines, |Drained(lines)|);
    assert lines[..|Drained(lines)|] == Drained(lines);
  }

  function Headers(s: seq<byte>): seq<seq<byte>> {
    if s == [] then [] else LinesOf(s)[1..]
  }

  /** A success without a blank line: exactly a 200 status line and lines of text, none blank, the last cut anywhere. */
  lemma TruncatedReplyIsAccepted(s: seq<byte>)
    ensures Handshake(s).Ok? && NoneBlank(Headers(s)) <==>
            s != [] && Grants(LinesOf(s)[0]) && AllText(Headers(s)) && NoneBlank(Headers(s))
    ensures Handshake(s).Ok? && NoneBlank(Headers(s)) ==> Handshake(s) == Ok([])
  {
    if NoneBlank(Headers(s)) {
      DrainsAll(Headers(s));
      SucceedsExactly(s, []);
      if Handshake(s).Ok? {
        SucceedsExactly(s, Handshake(s).value);
      }
    }
  }

  lemma {:induction false} DrainsAll(lines: seq<seq<byte>>)
    requires NoneBlank(lines)
    ensures Drained(lines) == lines && Beyond(lines) == []
  {
    if lines != [] {
      DrainsAll(lines[1..]);
      assert [lines[0]] + lines[1..] == lines;
    }
    assert lines[|lines|..] == [];
  }

  const STATUS_200: seq<byte> := HTTP_PREFIX + [49, SPACE, 50, 48, 48, LF] // "HTTP/1 200"

  /** For instance a reply cut in the middle of its first header. */
  lemma CutInMidLine()
    ensures var s := STATUS_200 + [86, 105, 97]; // "Via"
            Headers(s) == [[86, 105, 97]] && Handshake(s) == Ok([])
  {
    var cut: seq<byte> := [86, 105, 97];
    var s := STATUS_200 + cut;
    FirstNewline(s, 11);
    NoNewline(cut);
    assert s[..11] == STATUS_200 && s[11..] == cut && cut[..3] == cut && cut[3..] == [];
    assert LinesOf(cut) == [cut] + LinesOf([]) == [cut];
    assert LinesOf(s) == [STATUS_200] + [cut];
    StatusIs200();
    Ascii(cut);
    TruncatedReplyIsAccepted(s);
  }

  lemma StatusIs200()
    ensures Grants(STATUS_200)
  {
    Ascii(STATUS_200);
    var name, code := HTTP_PREFIX + [49], [50, 48, 48];
    var line := name + ([32] + (code + []));
    assert STATUS_200 == line + [10];
    TrimsNewline(line);
    SecondField(name, code, []);
    Digits200();
  }

  lemma TrimsNewline(line: seq<byte>)
    requires line != [] && line[|line| - 1] != 13 && line[|line| - 1] != 10
    ensures TrimEnd(line + [10]) == line
  {
    assert (line + [10])[..|line|] == line;
  }

  lemma Digits200()
    ensures Number([50, 48, 48]) == Some(200)
  {
    var s: seq<byte> := [50, 48, 48];
    assert s[..2] == [50, 48] && s[..2][..1] == [50] && s[..2][..1][..0] == [];
    assert Number([50]) == Some(2);
    assert Number([50, 48]) == Some(20);
  }

  lemma {:induction false} FieldEnds(s: seq<byte>, n: nat)
    requires n <= |s| && (forall i :: 0 <= i < n ==> s[i] != SPACE) && (n < |s| ==> s[n] == SPACE)
    ensures FieldLength(s) == n
  {
    if n > 0 {
      FieldEnds(s[1..], n - 1);
    }
  }

  lemma {:induction false} Ascii(s: seq<byte>)
    requires forall i :: 0 <= i < |s| ==> s[i] < 0x80
    ensures Utf8(s)
  {
    if s != [] {
      Ascii(s[1..]);
    }
  }

  // ---- What the bytes of a status line say ----

  function Decimal(n: nat): (s: seq<byte>)
    ensures s != [] && forall i :: 0 <= i < |s| ==> IsDigit(s[i])
  {
    if n < 10 then [48 + n] else Decimal(n / 10) + [48 + n % 10]
  }

  lemma {:induction false} NumberReads(n: nat)
    ensures Number(Decimal(n)) == Some(n)
  {
    if n < 10 {
      assert Decimal(n)[..0] == [];
      assert Number(Decimal(n)[..0]) == Some(0);
    } else {
      NumberReads(n / 10);
      assert Decimal(n)[..|Decimal(n)| - 1] == Decimal(n / 10);
    }
  }

  /** Numbers up to 65535 are read, with or without a plus sign; larger ones are not. */
  lemma DecimalIsRead(n: nat)
    ensures ParseU16(Decimal(n)) == ParseU16([43] + Decimal(n)) == if n <= 65535 then Some(n) else None
  {
    NumberReads(n);
    assert IsDigit(Decimal(n)[0]) && ([43] + Decimal(n))[1..] == Decimal(n);
  }

  lemma FieldThen(field: seq<byte>, rest: seq<byte>)
    requires 32 !in field && (rest == [] || rest[0] == 32)
    ensures var s := field + rest; FieldLength(s) == |field| && s[..|field|] == field && s[|field|..] == rest
  {
    FieldEnds(field + rest, |field|);
  }

  /** A name, a space and a code: the second field of a line. */
  lemma SecondField(name: seq<byte>, code: seq<byte>, reason: seq<byte>)
    requires 32 !in name && 32 !in code && (reason == [] || reason[0] == 32) && HTTP_PREFIX <= name
    ensures ParseStatusCode(name + ([32] + (code + reason))) == ParseU16(code)
  {
    var line, rest := name + ([32] + (code + reason)), code + reason;
    FieldThen(name, [32] + rest);
    assert line[|name| + 1..] == line[|name|..][1..] == rest;
    FieldThen(code, reason);
  }

  lemma NoSpaceInDecimal(n: nat)
    ensures 32 !in Decimal(n) && 10 !in Decimal(n)
  {
    assert forall i :: 0 <= i < |Decimal(n)| ==> IsDigit(Decimal(n)[i]);
  }

  /** "HTTP/", a version, a space, a number, and nothing or a space and a reason. */
  function StatusLine(version: seq<byte>, n: nat, reason: seq<byte>): seq<byte> {
    [72, 84, 84, 80, 47] + version + ([32] + (Decimal(n) + reason))
  }

  lemma StatusIsRead(version: seq<byte>, n: u16, reason: seq<byte>)
    requires 32 !in version && (reason == [] || reason[0] == 32)
    ensures ParseStatusCode(StatusLine(version, n, reason)) == Some(n)
  {
    var name := [72, 84, 84, 80, 47] + version;
    assert name[..5] == HTTP_PREFIX && 32 !in name;
    NoSpaceInDecimal(n);
    SecondField(name, Decimal(n), reason);
    DecimalIsRead(n);
  }

  /** Such a line, ended by carriage return and newline, decides: 200 goes on to the headers, others are refused. */
  lemma StatusLineDecides(version: seq<byte>, n: u16, reason: seq<byte>, rest: seq<byte>)
    requires 32 !in version && 10 !in version && (reason == [] || reason[0] == 32) && 10 !in reason
    requires reason != [] ==> reason[|reason| - 1] != 13
    requires Utf8(StatusLine(version, n, reason) + [13, 10])
    ensures Handshake(StatusLine(version, n, reason) + [13, 10] + rest) ==
            if n == 200 then AfterHeaders(rest) else Err(Refused(n))
  {
    var line := StatusLine(version, n, reason);
    EndsPlainly(version, n, reason);
    var whole := line + [13, 10];
    assert whole[..|whole| - 1] == line + [13];
    LineThenRest(whole, rest);
    TrimsEnd(line);
    StatusIsRead(version, n, reason);
  }

  lemma EndsPlainly(version: seq<byte>, n: nat, reason: seq<byte>)
    requires 10 !in version && 10 !in reason && (reason != [] ==> reason[|reason| - 1] != 13)
    ensures var line := StatusLine(version, n, reason);
            line != [] && 10 !in line && line[|line| - 1] != 13 && line[|line| - 1] != 10
  {
    var digits, line := Decimal(n), StatusLine(version, n, reason);
    NoSpaceInDecimal(n);
    assert IsDigit(digits[|digits| - 1]);
    var tail := digits + reason;
    assert line[|line| - 1] == tail[|tail| - 1];
    assert 10 !in tail && 10 !in [32] + tail;
  }

  lemma TrimsEnd(line: seq<byte>)
    requires line != [] && line[|line| - 1] != 13 && line[|line| - 1] != 10
    ensures TrimEnd(line + [13, 10]) == line
  {
    var whole := line + [13, 10];
    assert whole[..|whole| - 1] == line + [13] && (line + [13])[..|line|] == line;
  }

  /** Only lines that start like HTTP have a status. */
  lemma StatusNeedsHttp(line: seq<byte>)
    requires ParseStatusCode(line).Some?
    ensures [72, 84, 84, 80, 47] <= line
  {
  }

  /** A whole reply as it is on the wire: a 200 status line, any headers, an empty line, and then the tunnel. */
  lemma WholeReply(version: seq<byte>, reason: seq<byte>, lines: seq<seq<byte>>, tunnel: seq<byte>)
    requires 32 !in version && 10 !in version && (reason == [] || reason[0] == 32) && 10 !in reason
    requires reason != [] ==> reason[|reason| - 1] != 13
    requires Utf8(StatusLine(version, 200, reason) + [13, 10]) && HeaderLines(lines)
    ensures Handshake(StatusLine(version, 200, reason) + [13, 10] + (Concat(lines) + ([13, 10] + tunnel))) == Ok(tunnel)
  {
    StatusLineDecides(version, 200, reason, Concat(lines) + ([13, 10] + tunnel));
    Ascii([13, 10]);
    BlankLine();
    assert [13, 10][..1] == [13];
    DrainsHeaders(lines, [13, 10], tunnel);
  }

  lemma BlankLine()
    ensures TrimEnd([13, 10]) == []
  {
    assert [13, 10][..1] == [13] && [13][..0] == [];
  }
}
