/** The generated seccomp program, the classic-BPF machine that runs it, and the policy it implements. */
module Seccomp {
  import opened Bits
  import opened Common

  // ---- The machine ----

  const LOAD: u16 := 0x20 // BPF_LD | BPF_W | BPF_ABS
  const JEQ: u16 := 0x15 // BPF_JMP | BPF_JEQ | BPF_K
  const JSET: u16 := 0x45 // BPF_JMP | BPF_JSET | BPF_K
  const RET: u16 := 0x06 // BPF_RET | BPF_K

  datatype Instruction = Instruction(code: u16, jt: byte, jf: byte, k: u32)

  function Statement(code: u16, k: u32): Instruction {
    Instruction(code, 0, 0, k)
  }

  function Jump(code: u16, k: u32, jt: byte, jf: byte): Instruction {
    Instruction(code, jt, jf, k)
  }

  /** The system call being filtered; `nr` is the bit pattern of the signed number. */
  datatype Data = Data(nr: u32, arch: u32, args: seq<u64>) {
    predicate Valid() {
      |args| == 6
    }
  }

  const NR_OFFSET: u32 := 0
  const ARCH_OFFSET: u32 := 4
  const ARGS_OFFSET: u32 := 16

  function ByteShift(value: u64, bytes: nat): (r: nat)
    requires bytes < 8
    ensures r <= value
  {
    if bytes == 0 then value else ByteShift(value, bytes - 1) / 256
  }

  /** A 32-bit load; `None` where the interpreter would index out of range. */
  function Fetch(data: Data, k: u32): Option<u32>
    requires data.Valid()
  {
    if k == ARCH_OFFSET then Some(data.arch)
    else if k == NR_OFFSET then Some(data.nr)
    else if k < ARGS_OFFSET || k >= ARGS_OFFSET + 48 then None
    else
      var offset := k - ARGS_OFFSET;
      Some(ByteShift(data.args[offset / 8], offset % 8) % 0x1_0000_0000)
  }

  /** The bitwise conjunction is not zero. */
  predicate AnyBit(value: u32, mask: u32) {
    Overlap(value, mask, 32)
  }

  lemma AnyBitIs(value: u32, mask: u32)
    ensures AnyBit(value, mask) <==> exists i: nat :: i < 32 && BitAt(value, i) && BitAt(mask, i)
  {
    if AnyBit(value, mask) {
      var i := OverlapHasBit(value, mask, 32);
      assert i < 32 && BitAt(value, i) && BitAt(mask, i);
    }
    forall i: nat | i < 32 && BitAt(value, i) && BitAt(mask, i)
      ensures AnyBit(value, mask)
    {
      CommonBitOverlaps(value, mask, 32, i);
    }
  }

  datatype Effect = Halt(action: Option<u32>) | Go(skip: nat, accumulator: u32)

  /** What one instruction does. */
  function Step(i: Instruction, accumulator: u32, data: Data): Effect
    requires data.Valid()
  {
    if i.code == LOAD then
      (match Fetch(data, i.k) case None => Halt(None) case Some(word) => Go(0, word))
    else if i.code == JEQ then Go(if accumulator == i.k then i.jt else i.jf, accumulator)
    else if i.code == JSET then Go(if AnyBit(accumulator, i.k) then i.jt else i.jf, accumulator)
    else if i.code == RET then Halt(Some(i.k))
    else Halt(None)
  }

  /** Runs the program; `None` if it leaves the program or meets an unknown instruction. */
  function Exec(program: seq<Instruction>, pc: nat, accumulator: u32, data: Data): Option<u32>
    requires data.Valid()
    decreases |program| - pc
  {
    if pc >= |program| then None
    else
      match Step(program[pc], accumulator, data)
      case Halt(action) => action
      case Go(skip, next) => Exec(program, pc + 1 + skip, next, data)
  }

  method Evaluate(program: seq<Instruction>, data: Data) returns (action: Option<u32>)
    requires data.Valid()
    ensures action == Exec(program, 0, 0, data)
  {
    var accumulator: u32 := 0;
    var pc := 0;
    while pc < |program|
      invariant 0 <= pc
      invariant Exec(program, pc, accumulator, data) == Exec(program, 0, 0, data)
      decreases |program| - pc
    {
      var i := program[pc];
      if i.code == LOAD {
        var word := Fetch(data, i.k);
        if word.None? {
          return None;
        }
        accumulator := word.value;
      } else if i.code == JEQ {
        pc := pc + if accumulator == i.k then i.jt else i.jf;
      } else if i.code == JSET {
        pc := pc + if AnyBit(accumulator, i.k) then i.jt else i.jf;
      } else if i.code == RET {
        return Some(i.k);
      } else {
        return None;
      }
      pc := pc + 1;
    }
    action := None;
  }

  /** All jumps are relative and forward, so a program suffix runs the same wherever it is placed. */
  lemma {:induction false} Relocate(front: seq<Instruction>, rest: seq<Instruction>, pc: nat, accumulator: u32,
                                    data: Data)
    requires data.Valid()
    ensures Exec(front + rest, |front| + pc, accumulator, data) == Exec(rest, pc, accumulator, data)
    decreases |rest| - pc
  {
    if pc < |rest| {
      assert (front + rest)[|front| + pc] == rest[pc];
      match Step(rest[pc], accumulator, data)
      case Halt(_) =>
      case Go(skip, next) => Relocate(front, rest, pc + 1 + skip, next, data);
    }
  }

  // ---- The generator ----

  const KILL_PROCESS: u32 := 0x8000_0000
  const ERRNO_ENOSYS: u32 := 0x0005_0026
  const USER_NOTIF: u32 := 0x7fc0_0000
  const ALLOW: u32 := 0x7fff_0000

  const X32_BIT: u32 := 0x4000_0000
  const SOL_SOCKET: u32 := 1
  const SO_PEERNAME: u32 := 28
  const MSG_OOB: u32 := 1
  const MSG_FASTOPEN: u32 := 0x2000_0000

  /** The numbers the generator takes from the target architecture. */
  datatype Target = Target(
    arch: u32,
    denied: seq<u32>,
    getsockopt: u32,
    sendto: u32,
    recvfrom: u32,
    notified: seq<u32>)

  function Prologue(t: Target): seq<Instruction> {
    [ Statement(LOAD, ARCH_OFFSET),
      Jump(JEQ, t.arch, 1, 0),
      Statement(RET, KILL_PROCESS),
      Statement(LOAD, NR_OFFSET),
      Jump(JSET, X32_BIT, 0, 1),
      Statement(RET, ERRNO_ENOSYS) ]
  }

  function Case(syscall: u32, action: u32): seq<Instruction> {
    [ Jump(JEQ, syscall, 0, 1),
      Statement(RET, action) ]
  }

  function Cases(syscalls: seq<u32>, action: u32): seq<Instruction> {
    if syscalls == [] then []
    else Cases(syscalls[..|syscalls| - 1], action) + Case(syscalls[|syscalls| - 1], action)
  }

  function PeerNameBlock(getsockopt: u32): seq<Instruction> {
    [ Jump(JEQ, getsockopt, 0, 6),
      Statement(LOAD, ARGS_OFFSET + 8),
      Jump(JEQ, SOL_SOCKET, 0, 3),
      Statement(LOAD, ARGS_OFFSET + 16),
      Jump(JEQ, SO_PEERNAME, 0, 1),
      Statement(RET, USER_NOTIF),
      Statement(RET, ALLOW) ]
  }

  function TransferBlock(syscall: u32, flags: u32): seq<Instruction> {
    [ Jump(JEQ, syscall, 0, 8),
      Statement(LOAD, ARGS_OFFSET + 24),
      Jump(JSET, flags, 5, 0),
      Statement(LOAD, ARGS_OFFSET + 32),
      Jump(JEQ, 0, 0, 3),
      Statement(LOAD, ARGS_OFFSET + 36),
      Jump(JEQ, 0, 0, 1),
      Statement(RET, ALLOW),
      Statement(RET, USER_NOTIF) ]
  }

  function Program(t: Target): seq<Instruction> {
    Prologue(t)
    + (Cases(t.denied, ERRNO_ENOSYS)
    + (PeerNameBlock(t.getsockopt)
    + (TransferBlock(t.sendto, MSG_OOB + MSG_FASTOPEN)
    + (TransferBlock(t.recvfrom, MSG_OOB)
    + (Cases(t.notified, USER_NOTIF)
    + [Statement(RET, ALLOW)])))))
  }

  /** One of the generator's loops: push a test and a verdict for each call in the list. */
  method PushCases(filter: seq<Instruction>, syscalls: seq<u32>, action: u32) returns (extended: seq<Instruction>)
    ensures extended == filter + Cases(syscalls, action)
  {
    extended := filter;
    var i := 0;
    while i < |syscalls|
      invariant 0 <= i <= |syscalls|
      invariant extended == filter + Cases(syscalls[..i], action)
    {
      assert syscalls[..i + 1][..i] == syscalls[..i];
      extended := extended + [Jump(JEQ, syscalls[i], 0, 1)];
      extended := extended + [Statement(RET, action)];
      i := i + 1;
    }
    assert syscalls[..i] == syscalls;
  }

  method Filter(t: Target) returns (filter: seq<Instruction>)
    ensures filter == Program(t)
  {
    filter := PushCases(Prologue(t), t.denied, ERRNO_ENOSYS);
    filter := filter + PeerNameBlock(t.getsockopt);
    filter := filter + TransferBlock(t.sendto, MSG_OOB + MSG_FASTOPEN);
    filter := filter + TransferBlock(t.recvfrom, MSG_OOB);
    filter := PushCases(filter, t.notified, USER_NOTIF);
    filter := filter + [Statement(RET, ALLOW)];
    Reassociate(Prologue(t), Cases(t.denied, ERRNO_ENOSYS), PeerNameBlock(t.getsockopt),
                TransferBlock(t.sendto, MSG_OOB + MSG_FASTOPEN), TransferBlock(t.recvfrom, MSG_OOB),
                Cases(t.notified, USER_NOTIF), [Statement(RET, ALLOW)]);
  }

  // ---- The policy ----

  function Low(value: u64): u32 {
    value % 0x1_0000_0000
  }

  /** send/recv need the broker only for an explicit address or one of these flags. */
  function TransferPolicy(data: Data, flags: u32): u32
    requires data.Valid()
  {
    if AnyBit(Low(data.args[3]), flags) || data.args[4] != 0 then USER_NOTIF else ALLOW
  }

  function Policy(t: Target, data: Data): u32
    requires data.Valid()
  {
    if data.arch != t.arch then KILL_PROCESS
    else if AnyBit(data.nr, X32_BIT) then ERRNO_ENOSYS
    else if data.nr in t.denied then ERRNO_ENOSYS
    else if data.nr == t.getsockopt then
      if Low(data.args[1]) == SOL_SOCKET && Low(data.args[2]) == SO_PEERNAME then USER_NOTIF else ALLOW
    else if data.nr == t.sendto then TransferPolicy(data, MSG_OOB + MSG_FASTOPEN)
    else if data.nr == t.recvfrom then TransferPolicy(data, MSG_OOB)
    else if data.nr in t.notified then USER_NOTIF
    else ALLOW
  }

  // ---- Each block either returns or falls through with the call number still loaded ----

  lemma CaseRuns(syscall: u32, action: u32, rest: seq<Instruction>, nr: u32, data: Data)
    requires data.Valid()
    ensures Exec(Case(syscall, action) + rest, 0, nr, data) ==
            if nr == syscall then Some(action) else Exec(rest, 0, nr, data)
  {
    var p := Case(syscall, action) + rest;
    Relocate(Case(syscall, action), rest, 0, nr, data);
    assert p[0] == Jump(JEQ, syscall, 0, 1) && p[1] == Statement(RET, action);
    assert Exec(p, 1, nr, data) == Some(action);
  }

  lemma {:induction false} CasesRun(syscalls: seq<u32>, action: u32, rest: seq<Instruction>, nr: u32, data: Data)
    requires data.Valid()
    ensures Exec(Cases(syscalls, action) + rest, 0, nr, data) ==
            if nr in syscalls then Some(action) else Exec(rest, 0, nr, data)
  {
    if syscalls == [] {
      assert Cases(syscalls, action) + rest == rest;
    } else {
      var init, last := syscalls[..|syscalls| - 1], syscalls[|syscalls| - 1];
      assert syscalls == init + [last];
      assert Cases(syscalls, action) + rest == Cases(init, action) + (Case(last, action) + rest);
      CasesRun(init, action, Case(last, action) + rest, nr, data);
      CaseRuns(last, action, rest, nr, data);
    }
  }

  lemma PeerNameRuns(getsockopt: u32, rest: seq<Instruction>, nr: u32, data: Data)
    requires data.Valid()
    ensures Exec(PeerNameBlock(getsockopt) + rest, 0, nr, data) ==
            if nr != getsockopt then Exec(rest, 0, nr, data)
            else if Low(data.args[1]) == SOL_SOCKET && Low(data.args[2]) == SO_PEERNAME then Some(USER_NOTIF)
            else Some(ALLOW)
  {
    var b := PeerNameBlock(getsockopt);
    var p := b + rest;
    Relocate(b, rest, 0, nr, data);
    assert forall i :: 0 <= i < |b| ==> p[i] == b[i];
    var level, option := Low(data.args[1]), Low(data.args[2]);
    assert Fetch(data, ARGS_OFFSET + 8) == Some(level) && Fetch(data, ARGS_OFFSET + 16) == Some(option);
    assert Exec(p, 6, level, data) == Some(ALLOW) == Exec(p, 6, option, data);
    assert Exec(p, 5, option, data) == Some(USER_NOTIF);
    assert Exec(p, 3, level, data) == Exec(p, 4, option, data);
    assert Exec(p, 1, nr, data) == Exec(p, 2, level, data);
  }

  function High(value: u64): u32 {
    value / 0x1_0000_0000
  }

  lemma FetchesHalves(data: Data)
    requires data.Valid()
    ensures Fetch(data, ARGS_OFFSET + 24) == Some(Low(data.args[3]))
    ensures Fetch(data, ARGS_OFFSET + 32) == Some(Low(data.args[4]))
    ensures Fetch(data, ARGS_OFFSET + 36) == Some(High(data.args[4]))
  {
    var pointer := data.args[4];
    assert ByteShift(pointer, 1) == pointer / 256;
    assert ByteShift(pointer, 2) == pointer / 0x1_0000;
    assert ByteShift(pointer, 3) == pointer / 0x100_0000;
    assert ByteShift(pointer, 4) == pointer / 0x1_0000_0000;
  }

  lemma ExecStep(p: seq<Instruction>, pc: nat, accumulator: u32, data: Data, skip: nat, next: u32)
    requires data.Valid() && pc < |p| && Step(p[pc], accumulator, data) == Go(skip, next)
    ensures Exec(p, pc, accumulator, data) == Exec(p, pc + 1 + skip, next, data)
  {
  }

  /** The pointer test: both halves are looked at before the call is let through. */
  lemma PointerDecides(p: seq<Instruction>, accumulator: u32, data: Data)
    requires data.Valid() && |p| >= 9 && p[3..9] == TransferBlock(0, 0)[3..]
    ensures Exec(p, 3, accumulator, data) == Some(if data.args[4] != 0 then USER_NOTIF else ALLOW)
  {
    assert forall i :: 3 <= i < 9 ==> p[i] == p[3..9][i - 3] == TransferBlock(0, 0)[3..][i - 3];
    var low, high := Low(data.args[4]), High(data.args[4]);
    FetchesHalves(data);
    ExecStep(p, 3, accumulator, data, 0, low);
    if low != 0 {
      ExecStep(p, 4, low, data, 3, low);
    } else {
      ExecStep(p, 4, low, data, 0, low);
      ExecStep(p, 5, low, data, 0, high);
      ExecStep(p, 6, high, data, if high == 0 then 0 else 1, high);
    }
  }

  /** From the flag test onwards, with the call already recognised. */
  lemma TransferDecides(p: seq<Instruction>, syscall: u32, flags: u32, nr: u32, data: Data)
    requires data.Valid() && |p| >= 9 && p[..9] == TransferBlock(syscall, flags)
    ensures Exec(p, 1, nr, data) == Some(TransferPolicy(data, flags))
  {
    assert p[1] == p[..9][1] && p[2] == p[..9][2] && p[8] == p[..9][8];
    assert p[3..9] == p[..9][3..] == TransferBlock(0, 0)[3..];
    var sent := Low(data.args[3]);
    FetchesHalves(data);
    ExecStep(p, 1, nr, data, 0, sent);
    if AnyBit(sent, flags) {
      ExecStep(p, 2, sent, data, 5, sent);
    } else {
      ExecStep(p, 2, sent, data, 0, sent);
      PointerDecides(p, sent, data);
    }
  }

  lemma TransferRuns(syscall: u32, flags: u32, rest: seq<Instruction>, nr: u32, data: Data)
    requires data.Valid()
    ensures Exec(TransferBlock(syscall, flags) + rest, 0, nr, data) ==
            if nr != syscall then Exec(rest, 0, nr, data) else Some(TransferPolicy(data, flags))
  {
    var b := TransferBlock(syscall, flags);
    var p := b + rest;
    Relocate(b, rest, 0, nr, data);
    assert p[..9] == b && p[0] == Jump(JEQ, syscall, 0, 8);
    TransferDecides(p, syscall, flags, nr, data);
  }

  lemma PrologueRuns(t: Target, rest: seq<Instruction>, data: Data)
    requires data.Valid()
    ensures Exec(Prologue(t) + rest, 0, 0, data) ==
            if data.arch != t.arch then Some(KILL_PROCESS)
            else if AnyBit(data.nr, X32_BIT) then Some(ERRNO_ENOSYS)
            else Exec(rest, 0, data.nr, data)
  {
    var b := Prologue(t);
    var p := b + rest;
    Relocate(b, rest, 0, data.nr, data);
    assert forall i :: 0 <= i < |b| ==> p[i] == b[i];
    assert Exec(p, 5, data.nr, data) == Some(ERRNO_ENOSYS);
    assert Exec(p, 3, data.arch, data) == Exec(p, 4, data.nr, data);
    assert Exec(p, 2, data.arch, data) == Some(KILL_PROCESS);
    assert Exec(p, 0, 0, data) == Exec(p, 1, data.arch, data);
  }

  /** For every target, call and arguments the generated program terminates inside itself with the policy's verdict. */
  lemma ProgramImplementsPolicy(t: Target, data: Data)
    requires data.Valid()
    ensures Exec(Program(t), 0, 0, data) == Some(Policy(t, data))
  {
    var last := [Statement(RET, ALLOW)];
    var notified := Cases(t.notified, USER_NOTIF) + last;
    var receive := TransferBlock(t.recvfrom, MSG_OOB) + notified;
    var send := TransferBlock(t.sendto, MSG_OOB + MSG_FASTOPEN) + receive;
    var peer := PeerNameBlock(t.getsockopt) + send;
    PrologueRuns(t, Cases(t.denied, ERRNO_ENOSYS) + peer, data);
    CasesRun(t.denied, ERRNO_ENOSYS, peer, data.nr, data);
    PeerNameRuns(t.getsockopt, send, data.nr, data);
    TransferRuns(t.sendto, MSG_OOB + MSG_FASTOPEN, receive, data.nr, data);
    TransferRuns(t.recvfrom, MSG_OOB, notified, data.nr, data);
    CasesRun(t.notified, USER_NOTIF, last, data.nr, data);
    assert Exec(last, 0, data.nr, data) == Some(ALLOW);
  }

  // ---- The two supported targets ----

  const X86_64 := Target(0xc000_003e, [425, 426, 427], 55, 44, 45,
                         [2, 257, 437, 41, 42, 52, 46, 307, 47, 299])
  const AARCH64 := Target(0xc000_00b7, [425, 426, 427], 209, 206, 207,
                          [56, 437, 198, 203, 205, 211, 269, 212, 243])

  lemma {:induction false} CasesLength(syscalls: seq<u32>, action: u32)
    ensures |Cases(syscalls, action)| == 2 * |syscalls|
  {
    if syscalls != [] {
      CasesLength(syscalls[..|syscalls| - 1], action);
    }
  }

  /** The length handed to the kernel as 16 bits is not cut off. */
  lemma ProgramFits(t: Target)
    ensures |Program(t)| == 32 + 2 * |t.denied| + 2 * |t.notified|
    ensures t == X86_64 || t == AARCH64 ==> |Program(t)| < 0x1_0000
  {
    CasesLength(t.denied, ERRNO_ENOSYS);
    CasesLength(t.notified, USER_NOTIF);
  }

  // ---- The verdicts, said of the numbers themselves ----

  lemma MaskBits(value: u32)
    ensures AnyBit(value, 1) <==> value % 2 == 1
    ensures AnyBit(value, 0x4000_0000) <==> value / 0x4000_0000 % 2 == 1
    ensures AnyBit(value, 0x2000_0001) <==> value % 2 == 1 || value / 0x2000_0000 % 2 == 1
  {
    BigPowers();
    OneBitMask(value, 0, 32);
    OneBitMask(value, 30, 32);
    OneBitMask(value / 2, 28, 31);
    NextBitAt(value, 28);
  }

  lemma BigPowers()
    ensures Pow2(28) == 0x1000_0000 && Pow2(29) == 0x2000_0000 && Pow2(30) == 0x4000_0000
  {
    assert Pow2(4) == 16;
    PowersAdd(4, 4);
    PowersAdd(8, 8);
    PowersAdd(16, 8);
    PowersAdd(24, 4);
  }

  /** The flags are the low half of the argument, so its low bits. */
  lemma FlagBits(argument: u64)
    ensures Low(argument) % 2 == argument % 2
    ensures Low(argument) / 0x2000_0000 % 2 == argument / 0x2000_0000 % 2
  {
    var high, low := argument / 0x1_0000_0000, Low(argument);
    assert argument == high * 0x1_0000_0000 + low;
    HighBits(argument, high, low);
  }

  lemma HighBits(argument: nat, high: nat, low: nat)
    requires argument == high * 0x1_0000_0000 + low
    ensures low % 2 == argument % 2 && low / 0x2000_0000 % 2 == argument / 0x2000_0000 % 2
  {
    SameParity(low, high * 0x8000_0000, argument);
    var d, q := 0x2000_0000, low / 0x2000_0000;
    assert argument / d == 8 * high + q by {
      DivIs(low, d, q);
      assert (8 * high + q) * d == high * 0x1_0000_0000 + q * d;
      DivIs(argument, d, 8 * high + q);
    }
    SameParity(q, 4 * high, argument / d);
  }

  lemma SameParity(x: nat, k: nat, y: nat)
    requires y == 2 * k + x
    ensures x % 2 == y % 2
  {
  }

  /** A call by its number, and what the kernel is told to do with it. */
  lemma ProgramDecides(t: Target, data: Data)
    requires data.Valid()
    ensures var verdict, nr, args := Exec(Program(t), 0, 0, data), data.nr, data.args;
            && (data.arch != t.arch ==> verdict == Some(0x8000_0000))
            && (data.arch == t.arch && (nr / 0x4000_0000 % 2 == 1 || nr in t.denied) ==> verdict == Some(0x0005_0026))
            && (Ordinary(t, data) && nr == t.getsockopt ==>
                verdict == Some(if args[1] % 0x1_0000_0000 == 1 && args[2] % 0x1_0000_0000 == 28
                                then 0x7fc0_0000 else 0x7fff_0000))
            && (Ordinary(t, data) && nr == t.sendto != t.getsockopt ==>
                verdict == Some(if args[3] % 2 == 1 || args[3] / 0x2000_0000 % 2 == 1 || args[4] != 0
                                then 0x7fc0_0000 else 0x7fff_0000))
            && (Ordinary(t, data) && nr == t.recvfrom && nr != t.getsockopt && nr != t.sendto ==>
                verdict == Some(if args[3] % 2 == 1 || args[4] != 0 then 0x7fc0_0000 else 0x7fff_0000))
            && (Ordinary(t, data) && nr != t.getsockopt && nr != t.sendto && nr != t.recvfrom ==>
                verdict == Some(if nr in t.notified then 0x7fc0_0000 else 0x7fff_0000))
  {
    ProgramImplementsPolicy(t, data);
    MaskBits(data.nr);
    MaskBits(Low(data.args[3]));
    FlagBits(data.args[3]);
  }

  /** A native call with none of the refused numbers. */
  predicate Ordinary(t: Target, data: Data) {
    data.arch == t.arch && data.nr / 0x4000_0000 % 2 == 0 && data.nr !in t.denied
  }


  /** The verdict on one of the usual calls, by the numbers of its architecture. */
  function VerdictOn(data: Data, getsockopt: u32, sendto: u32, recvfrom: u32, notified: set<u32>): u32
    requires data.Valid()
  {
    var nr, args := data.nr, data.args;
    var told :=
      if nr == getsockopt then args[1] % 0x1_0000_0000 == 1 && args[2] % 0x1_0000_0000 == 28
      else if nr == sendto then args[3] % 2 == 1 || args[3] / 0x2000_0000 % 2 == 1 || args[4] != 0
      else if nr == recvfrom then args[3] % 2 == 1 || args[4] != 0
      else nr in notified;
    if nr in {425, 426, 427} then 0x0005_0026 else if told then 0x7fc0_0000 else 0x7fff_0000
  }

  /** open, openat, openat2, socket, connect, getpeername and the message calls; on x86-64. */
  lemma OnX86_64(data: Data)
    requires data.Valid() && data.arch == 0xc000_003e && data.nr < 0x4000_0000
    ensures Exec(Program(X86_64), 0, 0, data) ==
            Some(VerdictOn(data, 55, 44, 45, {2, 257, 437, 41, 42, 52, 46, 307, 47, 299}))
  {
    ProgramDecides(X86_64, data);
  }

  /** The same on 64-bit ARM, which has no open. */
  lemma OnAarch64(data: Data)
    requires data.Valid() && data.arch == 0xc000_00b7 && data.nr < 0x4000_0000
    ensures Exec(Program(AARCH64), 0, 0, data) ==
            Some(VerdictOn(data, 209, 206, 207, {56, 437, 198, 203, 205, 211, 269, 212, 243}))
  {
    ProgramDecides(AARCH64, data);
  }
}
