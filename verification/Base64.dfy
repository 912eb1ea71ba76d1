/** The inlined base64 encoder (section 4 of RFC 4648) and a reference decoder. */
module Base64 {
  import opened Common

  const PAD: byte := 61 // '='

  type sextet = x: int | 0 <= x < 64

  /** The alphabet A-Z a-z 0-9 + /. */
  function Symbol(v: sextet): (c: byte)
    ensures c != PAD && Value(c) == Some(v)
  {
    if v < 26 then 65 + v
    else if v < 52 then 97 + v - 26
    else if v < 62 then 48 + v - 52
    else if v == 62 then 43
    else 47
  }

  function Value(c: byte): Option<sextet> {
    if 65 <= c < 91 then Some(c - 65)
    else if 97 <= c < 123 then Some(c - 97 + 26)
    else if 48 <= c < 58 then Some(c - 48 + 52)
    else if c == 43 then Some(62)
    else if c == 47 then Some(63)
    else None
  }

  /** Four symbols for one to three bytes. */
  function Group(chunk: seq<byte>): (g: seq<byte>)
    requires 1 <= |chunk| <= 3
    ensures |g| == 4
    ensures g[0] != PAD && g[1] != PAD && (g[2] == PAD <==> |chunk| == 1) && (g[3] == PAD <==> |chunk| < 3)
  {
    var b1 := if |chunk| > 1 then chunk[1] else 0;
    var b2 := if |chunk| > 2 then chunk[2] else 0;
    var combined := Combined(chunk[0], b1, b2);
    [ Symbol(combined / 0x4_0000 % 64),
      Symbol(combined / 0x1000 % 64),
      if |chunk| > 1 then Symbol(combined / 64 % 64) else PAD,
      if |chunk| > 2 then Symbol(combined % 64) else PAD ]
  }

  function Encoded(input: seq<byte>): seq<byte> {
    if input == [] then []
    else if |input| <= 3 then Group(input)
    else Group(input[..3]) + Encoded(input[3..])
  }

  method Encode(input: seq<byte>) returns (out: seq<byte>)
    ensures out == Encoded(input)
  {
    out := [];
    var i := 0;
    while i < |input|
      invariant 0 <= i <= |input|
      invariant out + Encoded(input[i..]) == Encoded(input)
    {
      var end := Min(i + 3, |input|);
      var chunk := input[i..end];
      assert input[i..][..end - i] == chunk && input[i..][end - i..] == input[end..];
      Associate(out, Group(chunk), Encoded(input[end..]));
      out := out + Group(chunk);
      i := end;
    }
  }

  /** One group of four symbols, with no, one or two padding characters. */
  function DecodeGroup(g: seq<byte>): (r: Option<seq<byte>>)
    requires |g| == 4
    ensures r.Some? ==> 1 <= |r.value| <= 3
  {
    if Value(g[0]).None? || Value(g[1]).None? then None
    else
      var v0, v1 := Value(g[0]).value, Value(g[1]).value;
      if g[2] == PAD then (if g[3] == PAD then Some([v0 * 4 + v1 / 16]) else None)
      else if Value(g[2]).None? then None
      else
        var v2 := Value(g[2]).value;
        if g[3] == PAD then Some([v0 * 4 + v1 / 16, v1 % 16 * 16 + v2 / 4])
        else if Value(g[3]).None? then None
        else Some([v0 * 4 + v1 / 16, v1 % 16 * 16 + v2 / 4, v2 % 4 * 64 + Value(g[3]).value])
  }

  /** Strict decoder: padding is allowed only in the last group. */
  function Decode(s: seq<byte>): Option<seq<byte>> {
    if s == [] then Some([])
    else if |s| < 4 then None
    else
      match DecodeGroup(s[..4])
      case None => None
      case Some(bytes) =>
        if |s| == 4 then Some(bytes)
        else if |bytes| < 3 then None
        else
          match Decode(s[4..])
          case None => None
          case Some(rest) => Some(bytes + rest)
  }

  function Combined(b0: byte, b1: byte, b2: byte): nat {
    b0 as int * 0x1_0000 + b1 as int * 256 + b2
  }

  lemma TopSextet(b0: byte, b1: byte, b2: byte)
    ensures Combined(b0, b1, b2) / 0x4_0000 % 64 == b0 / 4
  {
    var q, r := b0 / 4, b0 % 4;
    assert Combined(b0, b1, b2) == q * 0x4_0000 + (r * 0x1_0000 + b1 * 256 + b2);
  }

  lemma By4096(x: nat, q: nat, r: nat)
    requires x == 4096 * q + r && r < 4096
    ensures x / 4096 == q
  {
  }

  lemma By64(x: nat, q: nat, r: nat)
    requires x == 64 * q + r && r < 64
    ensures x / 64 == q && x % 64 == r
  {
  }

  lemma SecondSextet(b0: byte, b1: byte, b2: byte)
    ensures Combined(b0, b1, b2) / 0x1000 % 64 == b0 % 4 * 16 + b1 / 16
  {
    var top: int := b0 * 16 + b1 / 16;
    By4096(Combined(b0, b1, b2), top, b1 % 16 * 256 + b2);
    By64(top, b0 / 4, b0 % 4 * 16 + b1 / 16);
  }

  lemma LowSextets(b0: byte, b1: byte, b2: byte)
    ensures Combined(b0, b1, b2) / 64 % 64 == b1 % 16 * 4 + b2 / 64
    ensures Combined(b0, b1, b2) % 64 == b2 % 64
  {
    var top: int := b0 * 1024 + b1 * 4 + b2 / 64;
    By64(Combined(b0, b1, b2), top, b2 % 64);
    By64(top, b0 * 16 + b1 / 16, b1 % 16 * 4 + b2 / 64);
  }

  /** The arithmetic of one group: three bytes through four sextets. */
  lemma GroupIs(chunk: seq<byte>)
    requires 1 <= |chunk| <= 3
    ensures var b0, b1, b2 := chunk[0], if |chunk| > 1 then chunk[1] else 0, if |chunk| > 2 then chunk[2] else 0;
            && Value(Group(chunk)[0]) == Some(b0 / 4)
            && Value(Group(chunk)[1]) == Some(b0 % 4 * 16 + b1 / 16)
            && (|chunk| > 1 ==> Value(Group(chunk)[2]) == Some(b1 % 16 * 4 + b2 / 64))
            && (|chunk| > 2 ==> Value(Group(chunk)[3]) == Some(b2 % 64))
  {
    var b0, b1, b2 := chunk[0], if |chunk| > 1 then chunk[1] else 0, if |chunk| > 2 then chunk[2] else 0;
    TopSextet(b0, b1, b2);
    SecondSextet(b0, b1, b2);
    LowSextets(b0, b1, b2);
  }

  /** Putting the bytes together again from their sextets. */
  lemma Reassemble(b0: byte, b1: byte, b2: byte)
    ensures var v1, v2 := b0 % 4 * 16 + b1 / 16, b1 % 16 * 4 + b2 / 64;
            && b0 / 4 * 4 + v1 / 16 == b0
            && v1 % 16 * 16 + v2 / 4 == b1
            && v2 % 4 * 64 + b2 % 64 == b2
  {
    var v1, v2 := b0 % 4 * 16 + b1 / 16, b1 % 16 * 4 + b2 / 64;
    assert v1 / 16 == b0 % 4 && v1 % 16 == b1 / 16;
    assert v2 / 4 == b1 % 16 && v2 % 4 == b2 / 64;
  }

  lemma DecodesTo(g: seq<byte>, chunk: seq<byte>, b1: byte, b2: byte)
    requires |g| == 4 && 1 <= |chunk| <= 3
    requires b1 == (if |chunk| > 1 then chunk[1] else 0) && b2 == (if |chunk| > 2 then chunk[2] else 0)
    requires Value(g[0]) == Some(chunk[0] / 4) && Value(g[1]) == Some(chunk[0] % 4 * 16 + b1 / 16)
    requires if |chunk| > 1 then g[2] != PAD && Value(g[2]) == Some(b1 % 16 * 4 + b2 / 64) else g[2] == PAD
    requires if |chunk| > 2 then g[3] != PAD && Value(g[3]) == Some(b2 % 64) else g[3] == PAD
    ensures DecodeGroup(g) == Some(chunk)
  {
    Reassemble(chunk[0], b1, b2);
    assert |chunk| == 1 ==> chunk == [chunk[0]];
    assert |chunk| == 2 ==> chunk == [chunk[0], chunk[1]];
    assert |chunk| == 3 ==> chunk == [chunk[0], chunk[1], chunk[2]];
  }

  lemma GroupDecodes(chunk: seq<byte>)
    requires 1 <= |chunk| <= 3
    ensures DecodeGroup(Group(chunk)) == Some(chunk)
  {
    GroupIs(chunk);
    DecodesTo(Group(chunk), chunk, if |chunk| > 1 then chunk[1] else 0, if |chunk| > 2 then chunk[2] else 0);
  }

  /** Decoding gives every input back. */
  lemma {:induction false} RoundTrip(input: seq<byte>)
    ensures Decode(Encoded(input)) == Some(input)
  {
    if |input| > 3 {
      var g, rest := Group(input[..3]), Encoded(input[3..]);
      RoundTrip(input[3..]);
      GroupDecodes(input[..3]);
      assert (g + rest)[..4] == g && (g + rest)[4..] == rest;
      assert input[..3] + input[3..] == input;
    } else if input != [] {
      GroupDecodes(input);
      assert Group(input)[..4] == Group(input);
    }
  }

  /** Groups of three, counting a started one. */
  function GroupCount(n: nat): nat {
    if n == 0 then 0 else if n <= 3 then 1 else 1 + GroupCount(n - 3)
  }

  lemma {:induction false} CountsGroups(n: nat)
    ensures GroupCount(n) == (n + 2) / 3
  {
    if n > 3 {
      CountsGroups(n - 3);
    }
  }

  lemma {:induction false} FourPerGroup(input: seq<byte>)
    ensures |Encoded(input)| == GroupCount(|input|) * 4
  {
    if |input| > 3 {
      FourPerGroup(input[3..]);
    }
  }

  /** Four symbols for every started group of three. */
  lemma EncodedLength(input: seq<byte>)
    ensures |Encoded(input)| == (|input| + 2) / 3 * 4
  {
    FourPerGroup(input);
    CountsGroups(|input|);
  }

  /** Padding appears nowhere but in the last two places, and not at all if it may not. */
  ghost predicate PadsLast(s: seq<byte>, whole: bool) {
    && (forall i :: 0 <= i < |s| - 2 ==> s[i] != PAD)
    && (whole ==> PAD !in s)
  }

  /** Only a partial last group is padded. */
  lemma {:induction false} PaddingIsLast(input: seq<byte>, whole: bool)
    requires whole ==> |input| % 3 == 0
    ensures PadsLast(Encoded(input), whole)
  {
    if |input| > 3 {
      PaddingIsLast(input[3..], whole);
      PrependGroup(Group(input[..3]), Encoded(input[3..]), whole);
    } else if |input| == 3 {
      PrependGroup(Group(input), [], whole);
      assert Group(input) + [] == Group(input);
    }
  }

  lemma PrependGroup(g: seq<byte>, rest: seq<byte>, whole: bool)
    requires |g| == 4 && g[0] != PAD && g[1] != PAD && g[2] != PAD && g[3] != PAD
    requires PadsLast(rest, whole)
    ensures PadsLast(g + rest, whole)
  {
    assert forall i :: 0 <= i < 4 ==> g[i] != PAD;
  }

  /** Two of the test vectors in section 10 of RFC 4648: "f" and "foo". */
  lemma TestVectors()
    ensures Encoded([102]) == [90, 103, 61, 61]
    ensures Encoded([102, 111, 111]) == [90, 109, 57, 118]
  {
    assert Group([102]) == [90, 103, 61, 61];
    assert Group([102, 111, 111]) == [90, 109, 57, 118];
  }


  /** The last two symbols of the alphabet, "+" and "/". */
  lemma LastSymbols()
    ensures Encoded([251, 239, 190]) == [43, 43, 43, 43] && Encoded([255, 255, 255]) == [47, 47, 47, 47]
  {
    assert Group([251, 239, 190]) == [43, 43, 43, 43];
    assert Group([255, 255, 255]) == [47, 47, 47, 47];
  }
}
