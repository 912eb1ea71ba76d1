/** The scattered buffers of a message: their total size, gathering them and filling them. */
module Message {
  import opened Common
  import opened Memory

  const EINVAL: int := 22
  const EMSGSIZE: int := 90

  const ISIZE_MAX: nat := 0x7fff_ffff_ffff_ffff
  const MAX_DATAGRAM: nat := 65507

  datatype Vector = Vector(address: nat, length: nat)

  function Total(vectors: seq<Vector>): nat {
    if vectors == [] then 0 else vectors[0].length + Total(vectors[1..])
  }

  lemma {:induction false} TotalSnoc(vectors: seq<Vector>, i: nat)
    requires i < |vectors|
    ensures Total(vectors[..i + 1]) == Total(vectors[..i]) + vectors[i].length
  {
    if i == 0 {
      assert vectors[..1][1..] == [];
    } else {
      TotalSnoc(vectors[1..], i - 1);
      assert vectors[..i + 1][1..] == vectors[1..][..i] && vectors[..i][1..] == vectors[1..][..i - 1];
    }
  }

  lemma {:induction false} TotalGrows(vectors: seq<Vector>, i: nat)
    requires i <= |vectors|
    ensures Total(vectors[..i]) <= Total(vectors)
    decreases |vectors| - i
  {
    if i < |vectors| {
      TotalSnoc(vectors, i);
      TotalGrows(vectors, i + 1);
    } else {
      assert vectors[..i] == vectors;
    }
  }

  /** The checked sum of the lengths fails exactly if the mathematical sum does not fit. */
  method Capacity(vectors: seq<Vector>) returns (r: Result<nat, int>)
    requires forall v :: v in vectors ==> v.length < ADDRESS_SPACE
    ensures r == if Total(vectors) < 0x8000_0000_0000_0000 then Ok(Total(vectors)) else Err(22)
  {
    var size := 0;
    var i := 0;
    while i < |vectors|
      invariant 0 <= i <= |vectors|
      invariant size == Total(vectors[..i]) <= ISIZE_MAX
    {
      TotalSnoc(vectors, i);
      TotalGrows(vectors, i + 1);
      var sum := size + vectors[i].length;
      if sum >= ADDRESS_SPACE || sum > ISIZE_MAX {
        return Err(EINVAL);
      }
      size := sum;
      i := i + 1;
    }
    assert vectors[..i] == vectors;
    r := Ok(size);
  }

  /** The bytes of all vectors in order. */
  function Gather(m: Memory, vectors: seq<Vector>): Result<seq<byte>, int> {
    if vectors == [] then Ok([])
    else
      match ReadExact(m, vectors[0].address, vectors[0].length)
      case Err(e) => Err(e)
      case Ok(bytes) =>
        match Gather(m, vectors[1..])
        case Err(e) => Err(e)
        case Ok(rest) => Ok(bytes + rest)
  }

  method ReadPayload(m: Memory, vectors: seq<Vector>) returns (r: Result<seq<byte>, int>)
    requires forall v :: v in vectors ==> v.length < ADDRESS_SPACE
    ensures Total(vectors) >= 0x8000_0000_0000_0000 ==> r == Err(22)
    ensures 65507 < Total(vectors) < 0x8000_0000_0000_0000 ==> r == Err(90)
    ensures Total(vectors) <= 65507 ==> r == Gather(m, vectors)
  {
    var size := Capacity(vectors);
    if size.Err? {
      return Err(size.error);
    }
    if size.value > 65507 {
      return Err(EMSGSIZE);
    }
    var data := [];
    var i := 0;
    AfterNothing(Gather(m, vectors));
    assert vectors[0..] == vectors;
    while i < |vectors|
      invariant 0 <= i <= |vectors|
      invariant Gather(m, vectors) == After(data, Gather(m, vectors[i..]))
    {
      assert vectors[i..][1..] == vectors[i + 1..];
      var bytes := ReadExact(m, vectors[i].address, vectors[i].length);
      if bytes.Err? {
        return bytes;
      }
      AfterBoth(data, bytes.value, Gather(m, vectors[i + 1..]));
      data := data + bytes.value;
      i := i + 1;
    }
    assert data + [] == data;
    r := Ok(data);
  }

  function PatchedByte(m: Memory, address: nat, data: seq<byte>, a: nat): byte {
    if address <= a < address + |data| then data[a - address] else m.contents(a)
  }

  /** Memory with one range replaced. */
  function Patched(m: Memory, address: nat, data: seq<byte>): Memory {
    m.(contents := (a: nat) => PatchedByte(m, address, data, a))
  }

  function WriteExact(m: Memory, address: nat, data: seq<byte>): Result<Memory, int> {
    if data == [] then Ok(m)
    else if address == 0 || address + |data| >= ADDRESS_SPACE || !Readable(m, address, |data|) then Err(EFAULT)
    else Ok(Patched(m, address, data))
  }

  /** Fills the vectors in order until the payload is used up. */
  function Scatter(m: Memory, vectors: seq<Vector>, data: seq<byte>): Result<Memory, int>
    decreases |vectors|
  {
    if vectors == [] then Ok(m)
    else
      var count := Min(vectors[0].length, |data|);
      match WriteExact(m, vectors[0].address, data[..count])
      case Err(e) => Err(e)
      case Ok(next) => if count == |data| then Ok(next) else Scatter(next, vectors[1..], data[count..])
  }

  /** The process whose memory is written; a faulting write may leave a part of its bytes behind. */
  class Process {
    var memory: Memory

    method WritePayload(vectors: seq<Vector>, bytes: seq<byte>, partial: nat) returns (r: Result<(), int>)
      modifies this
      ensures r.Ok? ==> Scatter(old(memory), vectors, bytes) == Ok(memory)
      ensures r.Err? ==> Scatter(old(memory), vectors, bytes) == Err(r.error)
      ensures memory.pages == old(memory).pages
      ensures forall a: nat :: !InVectors(a, vectors) ==> memory.contents(a) == old(memory).contents(a)
    {
      var remaining := bytes;
      var i := 0;
      assert vectors[0..] == vectors;
      while i < |vectors|
        invariant 0 <= i <= |vectors|
        invariant Scatter(old(memory), vectors, bytes) == Scatter(memory, vectors[i..], remaining)
        invariant memory.pages == old(memory).pages
        invariant forall a: nat :: !InVectors(a, vectors) ==> memory.contents(a) == old(memory).contents(a)
      {
        assert vectors[i..][1..] == vectors[i + 1..];
        var count := Min(vectors[i].length, |remaining|);
        assert forall a: nat :: vectors[i].address <= a < vectors[i].address + count ==> InVector(a, vectors[i]);
        var written := WriteExact(memory, vectors[i].address, remaining[..count]);
        if written.Err? {
          memory := Patched(memory, vectors[i].address, remaining[..Min(partial, count)]);
          return Err(written.error);
        }
        memory := written.value;
        remaining := remaining[count..];
        if remaining == [] {
          return Ok(());
        }
        i := i + 1;
      }
      r := Ok(());
    }
  }

  // ---- Writing a payload and gathering it again ----

  predicate InVector(a: nat, v: Vector) {
    v.address <= a < v.address + v.length
  }

  predicate InVectors(a: nat, vectors: seq<Vector>) {
    exists i :: 0 <= i < |vectors| && InVector(a, vectors[i])
  }

  ghost predicate Disjoint(vectors: seq<Vector>) {
    forall i, j, a: nat :: 0 <= i < j < |vectors| ==> !(InVector(a, vectors[i]) && InVector(a, vectors[j]))
  }

  /** Scattering keeps the mapping and every byte outside the vectors. */
  lemma {:induction false} ScatterFrame(m: Memory, vectors: seq<Vector>, data: seq<byte>, a: nat)
    requires Scatter(m, vectors, data).Ok?
    ensures Scatter(m, vectors, data).value.pages == m.pages
    ensures !InVectors(a, vectors) ==> Scatter(m, vectors, data).value.contents(a) == m.contents(a)
    decreases |vectors|
  {
    if vectors != [] {
      var count := Min(vectors[0].length, |data|);
      var next := WriteExact(m, vectors[0].address, data[..count]).value;
      if !InVectors(a, vectors) {
        assert !InVector(a, vectors[0]);
        assert next.contents(a) == m.contents(a);
        assert forall i :: 0 <= i < |vectors[1..]| ==> vectors[1..][i] == vectors[i + 1];
      }
      if count < |data| {
        ScatterFrame(next, vectors[1..], data[count..], a);
      }
    }
  }

  ghost predicate SameOn(m: Memory, n: Memory, vectors: seq<Vector>) {
    && m.pages == n.pages
    && forall i, a: nat :: 0 <= i < |vectors| && InVector(a, vectors[i]) ==> m.contents(a) == n.contents(a)
  }

  lemma BytesSame(m: Memory, n: Memory, v: Vector)
    requires m.pages == n.pages && forall a: nat :: InVector(a, v) ==> m.contents(a) == n.contents(a)
    ensures ReadExact(m, v.address, v.length) == ReadExact(n, v.address, v.length)
  {
    assert forall a :: m.Has(a) == n.Has(a);
    forall i | 0 <= i < v.length ensures Bytes(m, v.address, v.length)[i] == Bytes(n, v.address, v.length)[i] {
      assert InVector(v.address + i, v);
    }
    assert Bytes(m, v.address, v.length) == Bytes(n, v.address, v.length);
  }

  lemma {:induction false} GatherSame(m: Memory, n: Memory, vectors: seq<Vector>)
    requires SameOn(m, n, vectors)
    ensures Gather(m, vectors) == Gather(n, vectors)
  {
    if vectors != [] {
      BytesSame(m, n, vectors[0]);
      GatherSame(m, n, vectors[1..]);
    }
  }

  /** Reading one range after writing its first bytes. */
  lemma ReadPatched(m: Memory, v: Vector, data: seq<byte>)
    requires |data| <= v.length && ReadExact(m, v.address, v.length).Ok?
    requires WriteExact(m, v.address, data).Ok?
    ensures var next := WriteExact(m, v.address, data).value;
            ReadExact(next, v.address, v.length) == Ok(data + ReadExact(m, v.address, v.length).value[|data|..])
  {
    var next := WriteExact(m, v.address, data).value;
    assert forall a :: m.Has(a) == next.Has(a);
    if v.length > 0 {
      var was, now := Bytes(m, v.address, v.length), Bytes(next, v.address, v.length);
      forall i | 0 <= i < v.length ensures now[i] == (data + was[|data|..])[i] {
        assert now[i] == next.contents(v.address + i) && was[i] == m.contents(v.address + i);
      }
      assert now == data + was[|data|..];
    } else {
      assert data + ReadExact(m, v.address, v.length).value[|data|..] == [];
    }
  }

  lemma {:induction false} ScatterNothing(m: Memory, vectors: seq<Vector>)
    ensures Scatter(m, vectors, []) == Ok(m)
  {
  }

  lemma DisjointRest(vectors: seq<Vector>)
    requires vectors != [] && Disjoint(vectors)
    ensures Disjoint(vectors[1..])
    ensures forall a: nat :: InVector(a, vectors[0]) ==> !InVectors(a, vectors[1..])
  {
    forall a: nat | InVector(a, vectors[0]) ensures !InVectors(a, vectors[1..]) {
      forall i | 0 <= i < |vectors[1..]| ensures !InVector(a, vectors[1..][i]) {
        assert vectors[1..][i] == vectors[i + 1];
      }
    }
  }

  /** Writing the first vector leaves the others alone, and filling the others leaves the first alone. */
  lemma FirstVectorApart(m: Memory, vectors: seq<Vector>, data: seq<byte>)
    requires vectors != [] && Disjoint(vectors)
    requires |data| <= vectors[0].length && WriteExact(m, vectors[0].address, data).Ok?
    ensures SameOn(m, WriteExact(m, vectors[0].address, data).value, vectors[1..])
  {
    var v, next := vectors[0], WriteExact(m, vectors[0].address, data).value;
    DisjointRest(vectors);
    forall i, a: nat | 0 <= i < |vectors[1..]| && InVector(a, vectors[1..][i])
      ensures m.contents(a) == next.contents(a)
    {
      assert InVectors(a, vectors[1..]);
      assert !InVector(a, v);
    }
  }

  /** For disjoint vectors a written payload comes back as a prefix of what is gathered, and the rest is as before. */
  lemma {:induction false} ScatterThenGather(m: Memory, vectors: seq<Vector>, data: seq<byte>)
    requires Disjoint(vectors) && |data| <= Total(vectors)
    requires Scatter(m, vectors, data).Ok? && Gather(m, vectors).Ok?
    ensures |Gather(m, vectors).value| == Total(vectors)
    ensures Gather(Scatter(m, vectors, data).value, vectors) == Ok(data + Gather(m, vectors).value[|data|..])
    decreases |vectors|
  {
    if vectors == [] {
      assert data + Gather(m, vectors).value[|data|..] == [];
    } else {
      var v, count, rest := vectors[0], Min(vectors[0].length, |data|), vectors[1..];
      var next := WriteExact(m, v.address, data[..count]).value;
      ScatterNothing(next, rest);
      assert data[|data|..] == [];
      var end := Scatter(next, rest, data[count..]).value;
      assert Scatter(m, vectors, data) == Ok(end);
      DisjointRest(vectors);
      FirstVectorApart(m, vectors, data[..count]);
      GatherSame(m, next, rest);
      ReadPatched(m, v, data[..count]);
      ScatterThenGather(next, rest, data[count..]);
      forall a: nat | InVector(a, v) ensures end.contents(a) == next.contents(a) {
        ScatterFrame(next, rest, data[count..], a);
      }
      ScatterFrame(next, rest, data[count..], 0);
      BytesSame(next, end, v);
      Pieces(data, count, ReadExact(m, v.address, v.length).value, Gather(m, rest).value);
    }
  }

  lemma Pieces(data: seq<byte>, count: nat, first: seq<byte>, rest: seq<byte>)
    requires count == Min(|first|, |data|) && |data| <= |first| + |rest|
    ensures (data[..count] + first[count..]) + (data[count..] + rest[|data| - count..]) ==
            data + (first + rest)[|data|..]
  {
    if count == |data| {
      assert (first + rest)[count..] == first[count..] + rest;
    } else {
      assert first[count..] == [] && (first + rest)[|data|..] == rest[|data| - count..];
    }
  }


  /** Nothing can be moved at the null address or past the end of the address space, unless it is nothing. */
  lemma NullFaults(m: Memory, address: nat, data: seq<byte>)
    requires address == 0 || address + |data| >= 0x1_0000_0000_0000_0000
    ensures ReadExact(m, address, |data|) == if data == [] then Ok([]) else Err(14)
    ensures WriteExact(m, address, data) == if data == [] then Ok(m) else Err(14)
  {
  }
}
