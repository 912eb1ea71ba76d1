/** Access to another process's memory, and reading a path name from it. */
module Memory {
  import opened Common

  const PAGE: nat := 4096
  const ADDRESS_SPACE: nat := 0x1_0000_0000_0000_0000
  const EFAULT: int := 14
  const ENAMETOOLONG: int := 36

  /** Memory is mapped by whole pages. */
  datatype Memory = Memory(pages: set<nat>, contents: nat -> byte) {
    /** Neither the first nor the last page of the address space is ever mapped. */
    ghost predicate Valid() {
      0 !in pages && forall p :: p in pages ==> p < ADDRESS_SPACE / PAGE - 1
    }

    predicate Has(a: nat) {
      a / PAGE in pages
    }
  }

  predicate Readable(m: Memory, address: nat, length: nat) {
    forall a :: address <= a < address + length ==> m.Has(a)
  }

  function Bytes(m: Memory, address: nat, length: nat): (s: seq<byte>)
    ensures |s| == length && forall i :: 0 <= i < length ==> s[i] == m.contents(address + i)
  {
    seq<byte>(length, i requires 0 <= i => m.contents(address + i))
  }

  /** All of the range or a fault. */
  function ReadExact(m: Memory, address: nat, length: nat): Result<seq<byte>, int> {
    if length == 0 then Ok([])
    else if address == 0 || address + length >= ADDRESS_SPACE || !Readable(m, address, length) then Err(EFAULT)
    else Ok(Bytes(m, address, length))
  }

  // ---- Path names ----

  /** Reference: one byte at a time, at most one page in all. */
  function PathAt(m: Memory, address: nat, i: nat): Result<seq<byte>, int>
    decreases PAGE - i
  {
    if i >= PAGE then Err(ENAMETOOLONG)
    else if !m.Has(address + i) then Err(EFAULT)
    else if m.contents(address + i) == 0 then Ok([])
    else
      match PathAt(m, address, i + 1)
      case Err(e) => Err(e)
      case Ok(rest) => Ok([m.contents(address + i)] + rest)
  }

  function After(bytes: seq<byte>, r: Result<seq<byte>, int>): Result<seq<byte>, int> {
    match r case Err(e) => Err(e) case Ok(rest) => Ok(bytes + rest)
  }

  lemma AfterNothing(r: Result<seq<byte>, int>)
    ensures After([], r) == r
  {
    if r.Ok? {
      assert [] + r.value == r.value;
    }
  }

  lemma AfterBoth(first: seq<byte>, second: seq<byte>, r: Result<seq<byte>, int>)
    ensures After(first, After(second, r)) == After(first + second, r)
  {
    if r.Ok? {
      Associate(first, second, r.value);
    }
  }

  /** Mapped bytes without a zero are passed over by the reference. */
  lemma {:induction false} SkipsNonzero(m: Memory, address: nat, i: nat, n: nat)
    requires i + n <= PAGE && Readable(m, address + i, n)
    requires forall a :: address + i <= a < address + i + n ==> m.contents(a) != 0
    ensures PathAt(m, address, i) == After(Bytes(m, address + i, n), PathAt(m, address, i + n))
    decreases n
  {
    if n == 0 {
      AfterNothing(PathAt(m, address, i));
    } else {
      SkipsNonzero(m, address, i + 1, n - 1);
      var rest := Bytes(m, address + i + 1, n - 1);
      AfterBoth([m.contents(address + i)], rest, PathAt(m, address, i + n));
      assert [m.contents(address + i)] + rest == Bytes(m, address + i, n);
    }
  }

  function FirstZero(chunk: seq<byte>): (i: nat)
    ensures i <= |chunk|
    ensures i < |chunk| ==> chunk[i] == 0
    ensures forall k :: 0 <= k < i ==> chunk[k] != 0
  {
    if chunk == [] || chunk[0] == 0 then 0 else 1 + FirstZero(chunk[1..])
  }

  /** A chunk that stays inside one page is mapped as a whole or faults at its first byte. */
  lemma ChunkIsAllOrNothing(m: Memory, pointer: nat, count: nat)
    requires m.Valid() && 0 < count <= PAGE - pointer % PAGE
    ensures !m.Has(pointer) ==> ReadExact(m, pointer, count) == Err(EFAULT)
    ensures m.Has(pointer) ==>
              Readable(m, pointer, count) && ReadExact(m, pointer, count) == Ok(Bytes(m, pointer, count))
  {
    if m.Has(pointer) {
      forall a | pointer <= a < pointer + count ensures m.Has(a) {
        SamePage(pointer, a);
      }
    }
  }

  lemma SamePage(pointer: nat, a: nat)
    requires pointer <= a < pointer + PAGE - pointer % PAGE
    ensures a / PAGE == pointer / PAGE
  {
    var base := pointer / PAGE;
    assert pointer == base * PAGE + pointer % PAGE;
    assert base * PAGE <= a < base * PAGE + PAGE;
  }

  /** What one chunk tells about the rest of the name. */
  lemma ChunkDecides(m: Memory, address: nat, i: nat, count: nat)
    requires m.Valid() && 0 < count <= PAGE - (address + i) % PAGE && i + count <= PAGE
    ensures match ReadExact(m, address + i, count)
            case Err(e) => PathAt(m, address, i) == Err(e)
            case Ok(chunk) =>
              var end := FirstZero(chunk);
              && |chunk| == count
              && PathAt(m, address, i) ==
                 After(chunk[..end], if end < count then Ok([]) else PathAt(m, address, i + count))
  {
    var pointer := address + i;
    ChunkIsAllOrNothing(m, pointer, count);
    if m.Has(pointer) {
      var chunk := Bytes(m, pointer, count);
      var end := FirstZero(chunk);
      forall a | pointer <= a < pointer + end ensures m.contents(a) != 0 {
        assert chunk[a - pointer] == m.contents(a);
      }
      SkipsNonzero(m, address, i, end);
      assert Bytes(m, pointer, end) == chunk[..end];
      if end < count {
        assert chunk[end] == m.contents(pointer + end) == 0;
      }
    }
  }

  // ---- The reads that are made ----

  datatype Asked = Asked(pointer: nat, count: nat)

  predicate Touches(asked: Asked, a: nat) {
    asked.pointer <= a < asked.pointer + asked.count
  }

  /** It starts no later than `last` and stays inside the page it starts in. */
  predicate Bounded(asked: Asked, last: nat) {
    asked.pointer <= last && 0 < asked.count <= PAGE - asked.pointer % PAGE
  }

  lemma BoundedPages(asked: Asked, last: nat, a: nat)
    requires Bounded(asked, last) && Touches(asked, a)
    ensures a / PAGE <= last / PAGE
  {
    SamePage(asked.pointer, a);
  }

  /** Each read starts where the one before it ended. */
  predicate Consecutive(log: seq<Asked>, address: nat) {
    forall i :: 0 <= i < |log| ==> log[i].pointer == if i == 0 then address else log[i - 1].pointer + log[i - 1].count
  }

  /** What these reads give when they are made in turn: a fault, or their bytes up to the first zero. */
  function FromReads(m: Memory, log: seq<Asked>): Result<seq<byte>, int> {
    if log == [] then Err(ENAMETOOLONG)
    else
      match ReadExact(m, log[0].pointer, log[0].count)
      case Err(e) => Err(e)
      case Ok(chunk) =>
        var end := FirstZero(chunk);
        if end < |chunk| then Ok(chunk[..end]) else After(chunk, FromReads(m, log[1..]))
  }

  /** These reads gave exactly these bytes, none of them zero. */
  predicate Gave(m: Memory, log: seq<Asked>, bytes: seq<byte>) {
    if log == [] then bytes == []
    else
      var chunk := ReadExact(m, log[0].pointer, log[0].count);
      && chunk.Ok? && FirstZero(chunk.value) == |chunk.value| && chunk.value <= bytes
      && Gave(m, log[1..], bytes[|chunk.value|..])
  }

  lemma {:induction false} GaveOneMore(m: Memory, log: seq<Asked>, bytes: seq<byte>, next: Asked)
    requires Gave(m, log, bytes)
    requires ReadExact(m, next.pointer, next.count).Ok?
    requires var chunk := ReadExact(m, next.pointer, next.count).value; FirstZero(chunk) == |chunk|
    ensures Gave(m, log + [next], bytes + ReadExact(m, next.pointer, next.count).value)
  {
    var more := ReadExact(m, next.pointer, next.count).value;
    if log == [] {
      assert ([] + [next])[1..] == [] && ([] + more)[|more|..] == [];
    } else {
      var chunk := ReadExact(m, log[0].pointer, log[0].count).value;
      GaveOneMore(m, log[1..], bytes[|chunk|..], next);
      assert (log + [next])[1..] == log[1..] + [next];
      assert (bytes + more)[|chunk|..] == bytes[|chunk|..] + more;
    }
  }

  lemma {:induction false} GaveThen(m: Memory, log: seq<Asked>, bytes: seq<byte>, more: seq<Asked>)
    requires Gave(m, log, bytes)
    ensures FromReads(m, log + more) == After(bytes, FromReads(m, more))
  {
    if log == [] {
      assert log + more == more;
      AfterNothing(FromReads(m, more));
    } else {
      var chunk := ReadExact(m, log[0].pointer, log[0].count).value;
      GaveThen(m, log[1..], bytes[|chunk|..], more);
      assert (log + more)[0] == log[0] && (log + more)[1..] == log[1..] + more;
      AfterBoth(chunk, bytes[|chunk|..], FromReads(m, more));
      assert chunk + bytes[|chunk|..] == bytes;
    }
  }

  function ChunkSize(have: nat, pointer: nat): (count: nat)
    requires have < PAGE
    ensures 0 < count <= PAGE - pointer % PAGE && have + count <= PAGE
  {
    Min(Min(4096 - have, 256), 4096 - pointer % 4096)
  }

  /** What one read tells: a fault, or its bytes up to the first zero and whether there was one. */
  ghost predicate Tells(m: Memory, asked: Asked, part: Result<seq<byte>, int>, done: bool) {
    match ReadExact(m, asked.pointer, asked.count)
    case Err(e) => part == Err(e)
    case Ok(chunk) => part == Ok(chunk[..FirstZero(chunk)]) && done == (FirstZero(chunk) < |chunk|)
  }

  /** One turn of the loop: the read it makes, if any, its bytes up to the first zero, and whether there was one. */
  method PathChunk(m: Memory, address: nat, have: nat)
    returns (part: Result<seq<byte>, int>, done: bool, ghost asked: Option<Asked>)
    requires m.Valid() && have < PAGE
    ensures part.Err? ==> PathAt(m, address, have) == Err(part.error)
    ensures part.Ok? ==>
              && asked.Some? && have + |part.value| <= PAGE && (!done ==> part.value != [])
              && PathAt(m, address, have) ==
                 After(part.value, if done then Ok([]) else PathAt(m, address, have + |part.value|))
              && Bounded(asked.value, address + have + |part.value|)
              && (!done ==> asked.value.count == |part.value| && m.Has(address + have + |part.value| - 1))
    ensures asked.None? ==> address + have >= ADDRESS_SPACE
    ensures asked.Some? ==> asked.value.pointer == address + have && Tells(m, asked.value, part, done)
  {
    var pointer := address + have;
    done, asked := false, None;
    if pointer >= ADDRESS_SPACE {
      assert !m.Has(pointer);
      return Err(EFAULT), done, asked;
    }
    var count := ChunkSize(have, pointer);
    asked := Some(Asked(pointer, count));
    ChunkDecides(m, address, have, count);
    var chunk := ReadExact(m, pointer, count);
    if chunk.Err? {
      return chunk, done, asked;
    }
    ChunkIsAllOrNothing(m, pointer, count);
    var end := FirstZero(chunk.value);
    done := end < |chunk.value|;
    part := Ok(chunk.value[..end]);
  }

  function EndOf(log: seq<Asked>, address: nat): nat {
    if log == [] then address else log[|log| - 1].pointer + log[|log| - 1].count
  }

  /** So far the logged reads, one after the other, gave these bytes without a zero. */
  ghost predicate Reading(m: Memory, address: nat, bytes: seq<byte>, log: seq<Asked>) {
    && Gave(m, log, bytes) && Consecutive(log, address) && EndOf(log, address) == address + |bytes|
    && AllBounded(log, address + |bytes|)
    && (bytes != [] ==> m.Has(address + |bytes| - 1))
  }

  predicate AllBounded(log: seq<Asked>, last: nat) {
    forall i :: 0 <= i < |log| ==> Bounded(log[i], last)
  }

  lemma ReadsOne(m: Memory, asked: Asked, part: Result<seq<byte>, int>, done: bool)
    requires Tells(m, asked, part, done) && (part.Err? || done)
    ensures FromReads(m, [asked]) == part
  {
    assert [asked][1..] == [];
  }

  /** The turn that ends the loop, by a fault or by a zero. */
  lemma LastRead(m: Memory, address: nat, bytes: seq<byte>, log: seq<Asked>, asked: Asked,
                 part: Result<seq<byte>, int>, done: bool)
    requires Reading(m, address, bytes, log) && asked.pointer == address + |bytes|
    requires Tells(m, asked, part, done) && (part.Err? || done)
    requires part.Ok? ==> Bounded(asked, address + |bytes| + |part.value|)
    ensures FromReads(m, log + [asked]) == After(bytes, part) && Consecutive(log + [asked], address)
    ensures part.Ok? ==> PagesUpTo(log + [asked], address + |bytes| + |part.value|)
  {
    GaveThen(m, log, bytes, [asked]);
    ReadsOne(m, asked, part, done);
    if part.Ok? {
      StaysOnPages(log + [asked], address + |bytes| + |part.value|);
    }
  }

  /** No read touches a page beyond the one that holds `last`. */
  ghost predicate PagesUpTo(log: seq<Asked>, last: nat) {
    forall i, a: nat :: 0 <= i < |log| && Touches(log[i], a) ==> a / PAGE <= last / PAGE
  }

  lemma WholeChunk(m: Memory, asked: Asked, part: seq<byte>)
    requires Tells(m, asked, Ok(part), false)
    ensures ReadExact(m, asked.pointer, asked.count) == Ok(part) && FirstZero(part) == |part|
  {
    var chunk := ReadExact(m, asked.pointer, asked.count).value;
    assert chunk[..|chunk|] == chunk;
  }

  /** Any other turn. */
  lemma OneMoreRead(m: Memory, address: nat, bytes: seq<byte>, log: seq<Asked>, asked: Asked, part: seq<byte>)
    requires Reading(m, address, bytes, log) && asked.pointer == address + |bytes| && asked.count == |part| > 0
    requires Tells(m, asked, Ok(part), false)
    requires Bounded(asked, address + |bytes| + |part|) && m.Has(address + |bytes| + |part| - 1)
    ensures Reading(m, address, bytes + part, log + [asked])
  {
    WholeChunk(m, asked, part);
    GaveOneMore(m, log, bytes, asked);
  }

  /** The bytes so far are the beginning of the name, and what follows the first `have` of it decides. */
  ghost predicate Decides(m: Memory, address: nat, bytes: seq<byte>, have: nat) {
    |bytes| == have && PathAt(m, address, 0) == After(bytes, PathAt(m, address, have))
  }

  /** The result is the reference's and what the logged reads give, and no read goes beyond the terminator's page. */
  ghost predicate Settles(m: Memory, address: nat, r: Result<seq<byte>, int>, log: seq<Asked>) {
    && r == PathAt(m, address, 0) && r == FromReads(m, log) && Consecutive(log, address)
    && (r.Ok? ==> PagesUpTo(log, address + |r.value|))
  }

  /** One turn: a read that ends the loop, or one that brings more bytes. */
  method PathTurn(m: Memory, address: nat, bytes: seq<byte>, ghost log: seq<Asked>)
    returns (next: Result<seq<byte>, int>, done: bool, ghost longer: seq<Asked>)
    requires m.Valid() && address < ADDRESS_SPACE && |bytes| < PAGE
    requires Decides(m, address, bytes, |bytes|) && Reading(m, address, bytes, log)
    ensures next.Err? || done ==> next == PathAt(m, address, 0)
    ensures next.Err? || done ==> Settles(m, address, next, longer)
    ensures next.Ok? && !done ==>
              && |bytes| < |next.value| <= PAGE
              && Decides(m, address, next.value, |next.value|) && Reading(m, address, next.value, longer)
  {
    ghost var asked;
    var part;
    part, done, asked := PathChunk(m, address, |bytes|);
    assert asked.Some? by { InsideTheSpace(m, address, |bytes|); }
    longer := log + [asked.value];
    next := if part.Err? then part else Ok(bytes + part.value);
    if part.Err? || done {
      EndsRight(m, address, bytes, log, asked.value, part, done);
    } else {
      GoesOnRight(m, address, bytes, log, asked.value, part.value, |bytes| + |part.value|);
    }
  }

  lemma GoesOnRight(m: Memory, address: nat, bytes: seq<byte>, log: seq<Asked>, asked: Asked, part: seq<byte>,
                    next: nat)
    requires Reading(m, address, bytes, log) && Decides(m, address, bytes, |bytes|)
    requires asked.pointer == address + |bytes| && asked.count == |part| > 0 && Tells(m, asked, Ok(part), false)
    requires Bounded(asked, address + |bytes| + |part|) && m.Has(address + |bytes| + |part| - 1)
    requires next == |bytes| + |part| && PathAt(m, address, |bytes|) == After(part, PathAt(m, address, next))
    ensures Decides(m, address, bytes + part, next) && Reading(m, address, bytes + part, log + [asked])
  {
    OneMoreRead(m, address, bytes, log, asked, part);
    DecidesMore(m, address, bytes, |bytes|, part, next);
  }

  lemma EndsRight(m: Memory, address: nat, bytes: seq<byte>, log: seq<Asked>, asked: Asked,
                  part: Result<seq<byte>, int>, done: bool)
    requires Reading(m, address, bytes, log) && Decides(m, address, bytes, |bytes|)
    requires asked.pointer == address + |bytes|
    requires Tells(m, asked, part, done) && (part.Err? || done)
    requires part.Ok? ==> Bounded(asked, address + |bytes| + |part.value|)
    requires PathAt(m, address, |bytes|) == if part.Ok? then After(part.value, Ok([])) else part
    ensures Settles(m, address, After(bytes, part), log + [asked])
  {
    LastRead(m, address, bytes, log, asked, part, done);
    DecidesAll(m, address, bytes, |bytes|, part);
  }

  lemma DecidesAll(m: Memory, address: nat, bytes: seq<byte>, have: nat, part: Result<seq<byte>, int>)
    requires Decides(m, address, bytes, have)
    requires PathAt(m, address, have) == if part.Ok? then After(part.value, Ok([])) else part
    ensures PathAt(m, address, 0) == After(bytes, part)
  {
    if part.Ok? {
      assert part.value + [] == part.value;
    }
  }

  lemma DecidesMore(m: Memory, address: nat, bytes: seq<byte>, have: nat, part: seq<byte>, next: nat)
    requires Decides(m, address, bytes, have) && next == have + |part|
    requires PathAt(m, address, have) == After(part, PathAt(m, address, next))
    ensures Decides(m, address, bytes + part, next)
  {
    AfterBoth(bytes, part, PathAt(m, address, next));
  }

  /** Reads in page-bounded chunks; `log` lists the reads it made. */
  method Path(m: Memory, address: nat) returns (r: Result<seq<byte>, int>, ghost log: seq<Asked>)
    requires m.Valid() && address < ADDRESS_SPACE
    ensures r == PathAt(m, address, 0)
    // The result is what the logged reads give, and they follow one another from the address on.
    ensures r == FromReads(m, log) && Consecutive(log, address)
    // None of them touches a page beyond the one that holds the terminator.
    ensures r.Ok? ==> PagesUpTo(log, address + |r.value|)
  {
    var bytes := [];
    log := [];
    AfterNothing(PathAt(m, address, 0));
    while |bytes| < 4096
      invariant |bytes| <= 4096 && Decides(m, address, bytes, |bytes|) && Reading(m, address, bytes, log)
      decreases 4096 - |bytes|
    {
      var next, done;
      next, done, log := PathTurn(m, address, bytes, log);
      if next.Err? || done {
        return next, log;
      }
      bytes := next.value;
    }
    TooLong(m, address, bytes, log);
    r := Err(ENAMETOOLONG);
  }

  lemma TooLong(m: Memory, address: nat, bytes: seq<byte>, log: seq<Asked>)
    requires |bytes| == PAGE && Decides(m, address, bytes, PAGE) && Reading(m, address, bytes, log)
    ensures Settles(m, address, Err(ENAMETOOLONG), log)
  {
    GaveThen(m, log, bytes, []);
    assert log + [] == log;
  }

  lemma InsideTheSpace(m: Memory, address: nat, have: nat)
    requires m.Valid() && address < ADDRESS_SPACE && (have > 0 ==> m.Has(address + have - 1))
    ensures address + have < ADDRESS_SPACE
  {
  }

  lemma StaysOnPages(log: seq<Asked>, last: nat)
    requires AllBounded(log, last)
    ensures PagesUpTo(log, last)
  {
    forall i, a: nat | 0 <= i < |log| && Touches(log[i], a)
      ensures a / PAGE <= last / PAGE
    {
      BoundedPages(log[i], last, a);
    }
  }

  /** The reference, said of the memory: `n` is where the name stops being readable and nonzero, or one page on. */
  lemma {:induction false} PathIs(m: Memory, address: nat, i: nat, n: nat)
    requires i <= n <= 4096
    requires forall a :: address + i <= a < address + n ==> m.Has(a) && m.contents(a) != 0
    requires n < 4096 ==> !m.Has(address + n) || m.contents(address + n) == 0
    ensures PathAt(m, address, i) ==
            if n == 4096 then Err(36) else if !m.Has(address + n) then Err(14) else Ok(Bytes(m, address + i, n - i))
    decreases n - i
  {
    if i < n {
      PathIs(m, address, i + 1, n);
      assert [m.contents(address + i)] + Bytes(m, address + i + 1, n - i - 1) == Bytes(m, address + i, n - i);
    } else {
      assert Bytes(m, address + i, 0) == [];
    }
  }
}
