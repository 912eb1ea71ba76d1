/** Types shared by every part of the model. */
module Common {

  type byte = x: int | 0 <= x < 256
  type u16 = x: int | 0 <= x < 0x1_0000
  type u32 = x: int | 0 <= x < 0x1_0000_0000
  type u64 = x: int | 0 <= x < 0x1_0000_0000_0000_0000

  datatype Option<+T> = None | Some(value: T)

  datatype Result<+T, +E> = Ok(value: T) | Err(error: E)

  /** An IPv4 socket address, the address kept as its 32-bit number. */
  datatype Endpoint = Endpoint(ip: u32, port: u16)

  function Min(a: int, b: int): (m: int)
    ensures m <= a && m <= b && (m == a || m == b)
  {
    if a < b then a else b
  }

  /** Logical right shift, one bit at a time. */
  function Shr(value: nat, count: nat): (r: nat)
    ensures r <= value
  {
    if count == 0 then value else Shr(value, count - 1) / 2
  }

  /** Big-endian ("network order") encodings of fixed-width integers. */
  function Be16(n: u16): (s: seq<byte>)
    ensures |s| == 2 && FromBe16(s[0], s[1]) == n
  {
    [n / 256, n % 256]
  }

  function FromBe16(high: byte, low: byte): u16 {
    high * 256 + low
  }

  function Be32(n: u32): (s: seq<byte>)
    ensures |s| == 4 && FromBe32(s) == n
  {
    Be16(n / 0x1_0000) + Be16(n % 0x1_0000)
  }

  function FromBe32(s: seq<byte>): u32
    requires |s| == 4
  {
    var high: int, low: int := FromBe16(s[0], s[1]), FromBe16(s[2], s[3]);
    high * 0x1_0000 + low
  }

  lemma Associate<T>(a: seq<T>, b: seq<T>, c: seq<T>)
    ensures a + b + c == a + (b + c)
  {
  }

  /** Appending part after part builds the same sequence as nesting the parts to the right. */
  lemma Reassociate<T>(a: seq<T>, b: seq<T>, c: seq<T>, d: seq<T>, e: seq<T>, f: seq<T>, g: seq<T>)
    ensures a + b + c + d + e + f + g == a + (b + (c + (d + (e + (f + g)))))
  {
    Associate(a + b + c + d + e, f, g);
    Associate(a + b + c + d, e, f + g);
    Associate(a + b + c, d, e + (f + g));
    Associate(a + b, c, d + (e + (f + g)));
    Associate(a, b, c + (d + (e + (f + g))));
  }

  lemma SameTail<T>(head: seq<T>, left: seq<T>, right: seq<T>)
    requires head + left == head + right
    ensures left == right
  {
    assert left == (head + left)[|head|..];
    assert right == (head + right)[|head|..];
  }

  lemma SplitsAt<T>(a: seq<T>, b: seq<T>, c: seq<T>, d: seq<T>)
    requires |a| == |c|
    ensures a + b == c + d <==> a == c && b == d
  {
    if a + b == c + d {
      assert a == (a + b)[..|a|] && c == (c + d)[..|a|];
      assert b == (a + b)[|a|..] && d == (c + d)[|a|..];
    }
  }
}
