/** UTF-8 well-formedness, as the standard library's string conversion decides it. */
module Text {
  import opened Common

  predicate Continuation(b: byte) {
    0x80 <= b <= 0xBF
  }

  /** The length of the well-formed sequence at the start, or 0 (table 3-7 of the Unicode Standard). */
  function SequenceLength(s: seq<byte>): (n: nat)
    requires s != []
    ensures n <= |s|
  {
    var b := s[0];
    if b < 0x80 then 1
    else if |s| < 2 then 0
    else if 0xC2 <= b <= 0xDF then (if Continuation(s[1]) then 2 else 0)
    else if |s| < 3 || b < 0xE0 then 0
    else if b <= 0xEF then
      var low := if b == 0xE0 then 0xA0 else 0x80;
      var high := if b == 0xED then 0x9F else 0xBF;
      (if low <= s[1] <= high && Continuation(s[2]) then 3 else 0)
    else if |s| < 4 || b > 0xF4 then 0
    else
      var low := if b == 0xF0 then 0x90 else 0x80;
      var high := if b == 0xF4 then 0x8F else 0xBF;
      (if low <= s[1] <= high && Continuation(s[2]) && Continuation(s[3]) then 4 else 0)
  }

  predicate Utf8(s: seq<byte>) {
    s == [] || (SequenceLength(s) > 0 && Utf8(s[SequenceLength(s)..]))
  }

  // ---- Well-formed text is exactly the encoding of a sequence of characters ----

  /** A Unicode scalar value: any code point but the surrogates. */
  predicate Scalar(c: nat) {
    c < 0xD800 || 0xE000 <= c < 0x11_0000
  }

  function Encoded(c: nat): seq<byte>
    requires Scalar(c)
  {
    if c < 0x80 then [c]
    else if c < 0x800 then [0xC0 + c / 64, 0x80 + c % 64]
    else if c < 0x1_0000 then [0xE0 + c / 64 / 64, 0x80 + c / 64 % 64, 0x80 + c % 64]
    else [0xF0 + c / 64 / 64 / 64, 0x80 + c / 64 / 64 % 64, 0x80 + c / 64 % 64, 0x80 + c % 64]
  }

  predicate AllScalar(text: seq<nat>) {
    forall i :: 0 <= i < |text| ==> Scalar(text[i])
  }

  function EncodedAll(text: seq<nat>): seq<byte>
    requires AllScalar(text)
  {
    if text == [] then [] else Encoded(text[0]) + EncodedAll(text[1..])
  }

  lemma ReadsEncoded(c: nat, rest: seq<byte>)
    requires Scalar(c)
    ensures var s := Encoded(c) + rest; SequenceLength(s) == |Encoded(c)| && s[|Encoded(c)|..] == rest
  {
    var s, e := Encoded(c) + rest, Encoded(c);
    assert s[|e|..] == rest;
    assert forall i :: 0 <= i < |e| ==> s[i] == e[i];
  }

  lemma {:induction false} EncodedIsText(text: seq<nat>)
    requires AllScalar(text)
    ensures Utf8(EncodedAll(text))
  {
    if text != [] {
      EncodedIsText(text[1..]);
      ReadsEncoded(text[0], EncodedAll(text[1..]));
    }
  }

  /** Six more bits, from a continuation byte. */
  function More(high: nat, b: byte): (c: nat)
    requires Continuation(b)
    ensures c / 64 == high && 0x80 + c % 64 == b
  {
    var low: int := b - 0x80;
    high * 64 + low
  }

  /** The character at the start of the text. */
  function Decoded(s: seq<byte>): nat
    requires s != [] && SequenceLength(s) > 0
  {
    var n := SequenceLength(s);
    if n == 1 then s[0]
    else if n == 2 then More(s[0] - 0xC0, s[1])
    else if n == 3 then More(More(s[0] - 0xE0, s[1]), s[2])
    else More(More(More(s[0] - 0xF0, s[1]), s[2]), s[3])
  }

  lemma EncodesDecoded(s: seq<byte>)
    requires s != [] && SequenceLength(s) > 0
    ensures Scalar(Decoded(s)) && Encoded(Decoded(s)) == s[..SequenceLength(s)]
  {
    var n := SequenceLength(s);
    if n == 1 {
      assert s[..1] == [s[0]];
    } else if n == 2 {
      assert s[..2] == [s[0], s[1]];
    } else if n == 3 {
      assert s[..3] == [s[0], s[1], s[2]];
    } else {
      assert s[..4] == [s[0], s[1], s[2], s[3]];
    }
  }

  /** Conversely, whatever is accepted is the encoding of some text. */
  lemma {:induction false} TextIsEncoded(s: seq<byte>) returns (text: seq<nat>)
    requires Utf8(s)
    ensures AllScalar(text) && EncodedAll(text) == s
  {
    if s == [] {
      text := [];
    } else {
      var n := SequenceLength(s);
      var rest := TextIsEncoded(s[n..]);
      EncodesDecoded(s);
      text := [Decoded(s)] + rest;
      assert text[1..] == rest;
      assert s == s[..n] + s[n..];
    }
  }
}
