// speakeasy/windows/api_image.py: the entry code of a synthetic export, run on a model of the few instructions in it.

module ApiStub {
  import opened Options
  import opened Arithmetic
  import opened Bytes

  datatype Arch = X86 | X64

  function Space(arch: Arch): nat {
    if arch == X86 then W32 else W64
  }

  function EncodeStub(arch: Arch, entry: nat, trap: nat): (code: seq<byte>)
    ensures |code| == if arch == X86 then 11 else 16
  {
    match arch
    case X86 => [0x8B, 0xFF, 0x55, 0x8B, 0xEC, 0x5D, 0xE9] + ToLE((trap - entry - 11) % W32, 4)
    case X64 => [0x66, 0x90, 0xFF, 0x25, 0, 0, 0, 0] + ToLE(trap, 8)
  }

  // The registers that the instructions below name, the flags, and memory
  datatype Cpu = Cpu(ip: nat, sp: nat, bp: nat, di: nat, flags: nat, mem: Memory)

  // One instruction: mov edi, edi; mov ebp, esp; push ebp; pop ebp; jmp rel32 (x86), and the two-byte nop; and
  // jmp [rip + disp32] (x64). None for any other code.
  function Step(arch: Arch, c: Cpu): Option<Cpu> {
    if !Mapped(c.mem, c.ip, 2) then None
    else
      var op, next := c.mem[c.ip], c.mem[c.ip + 1];
      match arch
      case X86 =>
        if op == 0x8B && next == 0xFF then Some(c.(ip := (c.ip + 2) % W32))
        else if op == 0x8B && next == 0xEC then Some(c.(bp := c.sp, ip := (c.ip + 2) % W32))
        else if op == 0x55 then
          var sp := (c.sp - 4) % W32;
          Some(c.(sp := sp, mem := Write(c.mem, sp, ToLE(c.bp, 4)), ip := (c.ip + 1) % W32))
        else if op == 0x5D then
          var bp :- ReadU32(c.mem, c.sp);
          Some(c.(bp := bp, sp := (c.sp + 4) % W32, ip := (c.ip + 1) % W32))
        else if op == 0xE9 then
          var rel :- ReadU32(c.mem, c.ip + 1);
          Some(c.(ip := (c.ip + 5 + Signed32(rel)) % W32))
        else None
      case X64 =>
        if op == 0x66 && next == 0x90 then Some(c.(ip := (c.ip + 2) % W64))
        else if op == 0xFF && next == 0x25 then
          var disp :- ReadU32(c.mem, c.ip + 2);
          var target :- ReadU64(c.mem, (c.ip + 6 + Signed32(disp)) % W64);
          Some(c.(ip := target))
        else None
  }

  function Signed32(v: nat): int {
    if v < 0x8000_0000 then v else v - W32
  }

  function Steps(arch: Arch, c: Cpu, n: nat): Option<Cpu>
    decreases n
  {
    if n == 0 then Some(c)
    else
      var next :- Step(arch, c);
      Steps(arch, next, n - 1)
  }

  // The code does not run off the end of the address space, and the stack slot below sp is not part of it.
  predicate Runnable(arch: Arch, c: Cpu) {
    && c.ip + 16 <= Space(arch) && 4 <= c.sp < Space(arch) && c.bp < Space(arch)
    && (c.sp <= c.ip || c.ip + 11 <= c.sp - 4)
  }

  lemma JumpTarget(entry: nat, trap: nat)
    requires trap < W32
    ensures (entry + 11 + Signed32((trap - entry - 11) % W32)) % W32 == trap
  {
    var rel := (trap - entry - 11) % W32;
    var q := (trap - entry - 11) / W32;
    assert trap - entry - 11 == W32 * q + rel;
    if rel < 0x8000_0000 {
      Quotient(entry + 11 + rel, W32, -q, trap);
    } else {
      Quotient(entry + 11 + rel - W32, W32, -q - 1, trap);
    }
  }

  // Memory that differs only in the four bytes below the stack pointer
  ghost predicate SameButBelow(m: Memory, m': Memory, sp: nat) {
    forall k :: !(sp - 4 <= k < sp) ==> (k in m <==> k in m') && (k in m ==> m'[k] == m[k])
  }

  lemma CodeX86(m: Memory, entry: nat, trap: nat)
    requires Holds(m, entry, EncodeStub(X86, entry, trap))
    ensures Mapped(m, entry, 11) && Holds(m, entry + 7, ToLE((trap - entry - 11) % W32, 4))
    ensures m[entry] == 0x8B && m[entry + 1] == 0xFF && m[entry + 2] == 0x55 && m[entry + 3] == 0x8B
    ensures m[entry + 4] == 0xEC && m[entry + 5] == 0x5D && m[entry + 6] == 0xE9
  {
    hide ToLE;
    var code, rel := EncodeStub(X86, entry, trap), ToLE((trap - entry - 11) % W32, 4);
    forall k | entry + 7 <= k < entry + 11 ensures m[k] == rel[k - entry - 7] {
      assert m[k] == code[k - entry];
    }
    assert m[entry] == code[0] && m[entry + 1] == code[1] && m[entry + 2] == code[2] && m[entry + 3] == code[3];
    assert m[entry + 4] == code[4] && m[entry + 5] == code[5] && m[entry + 6] == code[6];
  }

  lemma CodeX64(m: Memory, entry: nat, trap: nat)
    requires Holds(m, entry, EncodeStub(X64, entry, trap))
    ensures Mapped(m, entry, 16) && Holds(m, entry + 4, ToLE(0, 4)) && Holds(m, entry + 8, ToLE(trap, 8))
    ensures m[entry] == 0x66 && m[entry + 1] == 0x90 && m[entry + 2] == 0xFF && m[entry + 3] == 0x25
  {
    assert ToLE(0, 4) == [0, 0, 0, 0];
    hide ToLE;
    var code := EncodeStub(X64, entry, trap);
    var head: seq<byte> := [0x66, 0x90, 0xFF, 0x25];
    assert code == head + (ToLE(0, 4) + ToLE(trap, 8));
    HoldsParts(m, entry, head, ToLE(0, 4) + ToLE(trap, 8));
    HoldsParts(m, entry + 4, ToLE(0, 4), ToLE(trap, 8));
    assert m[entry] == code[0] && m[entry + 1] == code[1] && m[entry + 2] == code[2] && m[entry + 3] == code[3];
  }

  predicate At(c: Cpu, op: byte, next: byte) {
    Mapped(c.mem, c.ip, 2) && c.mem[c.ip] == op && c.mem[c.ip + 1] == next
  }

  lemma StepNop(arch: Arch, c: Cpu)
    requires c.ip + 2 < Space(arch) && if arch == X86 then At(c, 0x8B, 0xFF) else At(c, 0x66, 0x90)
    ensures Step(arch, c) == Some(c.(ip := c.ip + 2))
  {
    hide ReadLE, Write;
  }

  lemma StepMovBp(c: Cpu)
    requires c.ip + 2 < W32 && At(c, 0x8B, 0xEC)
    ensures Step(X86, c) == Some(c.(ip := c.ip + 2, bp := c.sp))
  {
    hide ReadLE, Write;
  }

  lemma StepPush(c: Cpu, next: byte)
    requires c.ip + 1 < W32 && At(c, 0x55, next) && 4 <= c.sp < W32
    ensures Step(X86, c)
         == Some(c.(ip := c.ip + 1, sp := c.sp - 4, mem := Write(c.mem, c.sp - 4, ToLE(c.bp, 4))))
  {
    hide ReadLE, Write, ToLE;
  }

  lemma StepPop(c: Cpu, next: byte, bp: nat)
    requires c.ip + 1 < W32 && c.sp + 4 < W32 && At(c, 0x5D, next) && ReadU32(c.mem, c.sp) == Some(bp)
    ensures Step(X86, c) == Some(c.(ip := c.ip + 1, sp := c.sp + 4, bp := bp))
  {
    hide ReadLE, Write;
  }

  lemma StepJmp(c: Cpu, next: byte, rel: nat, target: nat)
    requires At(c, 0xE9, next) && ReadU32(c.mem, c.ip + 1) == Some(rel)
    requires (c.ip + 5 + Signed32(rel)) % W32 == target
    ensures Step(X86, c) == Some(c.(ip := target))
  {
    hide ReadLE, Write;
  }

  lemma StepJmpIndirect(c: Cpu, target: nat)
    requires c.ip + 6 < W64 && At(c, 0xFF, 0x25)
    requires ReadU32(c.mem, c.ip + 2) == Some(0) && ReadU64(c.mem, c.ip + 6) == Some(target)
    ensures Step(X64, c) == Some(c.(ip := target))
  {
    hide ReadLE, Write, ReadU64;
  }

  predicate JumpAt(c: Cpu) {
    Mapped(c.mem, c.ip, 2) && c.mem[c.ip] == 0xE9
  }

  // push ebp; mov ebp, esp; pop ebp
  lemma PushPop(c: Cpu)
    requires Mapped(c.mem, c.ip, 5) && c.ip + 5 < W32 && 4 <= c.sp < W32 && c.bp < W32
    requires c.sp <= c.ip || c.ip + 5 <= c.sp - 4
    requires c.mem[c.ip] == 0x55 && c.mem[c.ip + 1] == 0x8B && c.mem[c.ip + 2] == 0xEC && c.mem[c.ip + 3] == 0x5D
    ensures var mem := Write(c.mem, c.sp - 4, ToLE(c.bp, 4));
            Steps(X86, c, 3) == Some(c.(ip := c.ip + 4, mem := mem))
  {
    Pow256Values();
    hide Pow256, ToLE, FromLE, Write, Read, ReadLE, Step, Steps;
    var mem := Write(c.mem, c.sp - 4, ToLE(c.bp, 4));
    ReadLEHeld(mem, c.sp - 4, c.bp, 4);
    var c1 := Cpu(c.ip + 1, c.sp - 4, c.bp, c.di, c.flags, mem);
    assert mem[c.ip + 1] == 0x8B && mem[c.ip + 2] == 0xEC && mem[c.ip + 3] == 0x5D && c.ip + 4 in mem;
    StepPush(c, 0x8B);
    StepMovBp(c1);
    var c2 := c1.(bp := c.sp - 4, ip := c.ip + 3);
    StepPop(c2, mem[c.ip + 4], c.bp);
    Three(X86, c, c1, c2, c2.(bp := c.bp, sp := c.sp, ip := c.ip + 4));
  }

  lemma StubX86(c: Cpu, trap: nat)
    requires Runnable(X86, c) && trap < W32 && Holds(c.mem, c.ip, EncodeStub(X86, c.ip, trap))
    ensures var r := Steps(X86, c, 5);
            r.Some? && r.value == c.(ip := trap, mem := r.value.mem) && SameButBelow(c.mem, r.value.mem, c.sp)
  {
    hide *;
    var c4 := StubPrefix(c, trap);
    StubJump(c4, c.ip, trap);
    OneLast(X86, c, c4, c4.(ip := trap), 4);
  }

  lemma KeepsCode(m: Memory, m': Memory, entry: nat, sp: nat, rel: seq<byte>)
    requires 4 <= sp && (sp <= entry || entry + 11 <= sp - 4) && |rel| == 4
    requires exists bp: nat :: m' == Write(m, sp - 4, ToLE(bp, 4))
    requires Mapped(m, entry, 11) && m[entry + 6] == 0xE9 && Holds(m, entry + 7, rel)
    ensures SameButBelow(m, m', sp) && Mapped(m', entry, 11) && m'[entry + 6] == 0xE9 && Holds(m', entry + 7, rel)
  {
    hide ToLE, Write;
  }

  // The first four instructions only write below the stack.
  lemma StubPrefix(c: Cpu, trap: nat) returns (c4: Cpu)
    requires Runnable(X86, c) && trap < W32 && Holds(c.mem, c.ip, EncodeStub(X86, c.ip, trap))
    ensures Steps(X86, c, 4) == Some(c4) && c4 == c.(ip := c.ip + 6, mem := c4.mem) && SameButBelow(c.mem, c4.mem, c.sp)
    ensures JumpAt(c4) && Holds(c4.mem, c.ip + 7, ToLE((trap - c.ip - 11) % W32, 4))
  {
    hide Steps, Step, ToLE, EncodeStub, Write;
    CodeX86(c.mem, c.ip, trap);
    var c1 := c.(ip := c.ip + 2);
    c4 := c1.(ip := c.ip + 6, mem := Write(c.mem, c.sp - 4, ToLE(c.bp, 4)));
    KeepsCode(c.mem, c4.mem, c.ip, c.sp, ToLE((trap - c.ip - 11) % W32, 4));
    hide Holds, SameButBelow;
    StepNop(X86, c);
    PushPop(c1);
    OneMore(X86, c, c1, c4, 3);
  }

  lemma StubJump(c: Cpu, entry: nat, trap: nat)
    requires c.ip == entry + 6 && trap < W32 && JumpAt(c)
    requires Holds(c.mem, entry + 7, ToLE((trap - entry - 11) % W32, 4))
    ensures Step(X86, c) == Some(c.(ip := trap))
  {
    var rel := (trap - entry - 11) % W32;
    Pow256Values();
    JumpTarget(entry, trap);
    ReadLEHeld(c.mem, entry + 7, rel, 4);
    hide ToLE, ReadLE, Step, Signed32, Pow256;
    StepJmp(c, c.mem[c.ip + 1], rel, trap);
  }

  lemma OneMore(arch: Arch, c: Cpu, c1: Cpu, d: Cpu, n: nat)
    requires Step(arch, c) == Some(c1) && Steps(arch, c1, n) == Some(d)
    ensures Steps(arch, c, n + 1) == Some(d)
  {
  }

  lemma {:induction false} OneLast(arch: Arch, c: Cpu, d: Cpu, e: Cpu, n: nat)
    requires Steps(arch, c, n) == Some(d) && Step(arch, d) == Some(e)
    ensures Steps(arch, c, n + 1) == Some(e)
    decreases n
  {
    hide Step;
    if n == 0 {
      assert Steps(arch, e, 0) == Some(e);
    } else {
      OneLast(arch, Step(arch, c).value, d, e, n - 1);
    }
  }

  lemma Three(arch: Arch, c: Cpu, c1: Cpu, c2: Cpu, c3: Cpu)
    requires Step(arch, c) == Some(c1) && Step(arch, c1) == Some(c2) && Step(arch, c2) == Some(c3)
    ensures Steps(arch, c, 3) == Some(c3)
  {
    hide Step;
    OneLast(arch, c, c, c1, 0);
    OneLast(arch, c, c1, c2, 1);
    OneLast(arch, c, c2, c3, 2);
  }

  lemma StubX64(c: Cpu, trap: nat)
    requires Runnable(X64, c) && trap < W64 && Holds(c.mem, c.ip, EncodeStub(X64, c.ip, trap))
    ensures Steps(X64, c, 2) == Some(c.(ip := trap))
  {
    CodeX64(c.mem, c.ip, trap);
    Pow256Values();
    ReadLEHeld(c.mem, c.ip + 4, 0, 4);
    ReadU64Held(c.mem, c.ip + 8, trap);
    hide EncodeStub, ToLE, FromLE, Pow256, Read, ReadLE, ReadU64, Step, Steps;
    var c1 := c.(ip := c.ip + 2);
    StepNop(X64, c);
    StepJmpIndirect(c1, trap);
    Two(X64, c, c1, c1.(ip := trap));
  }

  lemma Two(arch: Arch, c: Cpu, c1: Cpu, c2: Cpu)
    requires Step(arch, c) == Some(c1) && Step(arch, c1) == Some(c2)
    ensures Steps(arch, c, 2) == Some(c2)
  {
    hide Step;
    OneLast(arch, c, c, c1, 0);
    OneLast(arch, c, c1, c2, 1);
  }

  // The entry code reaches the token. It changes no register, no flag, and no memory above the stack pointer.
  lemma StubReachesToken(arch: Arch, c: Cpu, trap: nat)
    requires Runnable(arch, c) && trap < Space(arch) && Holds(c.mem, c.ip, EncodeStub(arch, c.ip, trap))
    ensures var r := Steps(arch, c, if arch == X86 then 5 else 2);
            r.Some? && r.value == c.(ip := trap, mem := r.value.mem) && SameButBelow(c.mem, r.value.mem, c.sp)
  {
    match arch {
      case X86 => StubX86(c, trap);
      case X64 => StubX64(c, trap);
    }
  }
}
