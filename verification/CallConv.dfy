// speakeasy/binemu.py: arguments and returns of guest calls.

module CallConv {
  import opened Options
  import opened Bytes
  import Fp80

  datatype Arch = X86 | AMD64

  // Float is the convention of functions that take and return doubles.
  datatype Conv = Cdecl | Stdcall | Fastcall | Float

  // XMM0 to XMM3
  type XmmRegisters = xs: seq<nat> | |xs| == 4 witness [0, 0, 0, 0]

  // Memory and the registers that calls use. On x86 these are ESP, EIP, EAX, ECX, EDX and the x87 stack.
  datatype Cpu = Cpu(
    mem: Memory, sp: int, pc: int, ax: nat, cx: nat, dx: nat, r8: nat, r9: nat, xmm: XmmRegisters, fpu: Fp80.Fpu)

  function PtrSize(arch: Arch): (n: nat)
    ensures n == 4 || n == 8
  {
    if arch == X86 then 4 else 8
  }

  // The number of arguments that go in registers.
  function RegisterArgs(arch: Arch, conv: Conv): nat {
    if arch == AMD64 then 4 else if conv == Fastcall then 2 else 0
  }

  function StackArgs(arch: Arch, conv: Conv, argc: nat): nat {
    if argc > RegisterArgs(arch, conv) then argc - RegisterArgs(arch, conv) else 0
  }

  // The home space that x64 callers reserve above the return address
  function HomeSpace(arch: Arch, home: bool): nat {
    if arch == AMD64 && home then 0x20 else 0
  }

  function SetRegisters(c: Cpu, arch: Arch, conv: Conv, args: seq<nat>): (r: Cpu)
    ensures r.mem == c.mem && r.sp == c.sp && r.pc == c.pc && r.ax == c.ax && r.xmm == c.xmm && r.fpu == c.fpu
  {
    var n := RegisterArgs(arch, conv);
    var c := if n > 0 && |args| > 0 then c.(cx := args[0]) else c;
    var c := if n > 1 && |args| > 1 then c.(dx := args[1]) else c;
    var c := if n > 2 && |args| > 2 then c.(r8 := args[2]) else c;
    if n > 3 && |args| > 3 then c.(r9 := args[3]) else c
  }

  // The stack pointer after n pushes
  function Below(sp: int, n: nat, size: nat): (r: int)
    ensures r <= sp
  {
    if n == 0 then sp else Below(sp, n - 1, size) - size
  }

  lemma {:induction false} BelowIs(sp: int, n: nat, size: nat)
    ensures Below(sp, n, size) == sp - size * n
  {
    if n > 0 {
      BelowIs(sp, n - 1, size);
    }
  }

  // Push values, the last one first.
  function PushAll(m: Memory, sp: int, values: seq<nat>, size: nat): Memory {
    if values == [] then m
    else Write(PushAll(m, sp, values[1..], size), Below(sp, |values|, size), ToLE(values[0], size))
  }

  // set_func_args
  function SetFuncArgs(c: Cpu, arch: Arch, conv: Conv, stackAddr: int, ret: nat, args: seq<nat>, home: bool): Cpu {
    var size := PtrSize(arch);
    var stack := args[|args| - StackArgs(arch, conv, |args|)..];
    var sp := Below(stackAddr, |stack|, size) - HomeSpace(arch, home) - size;
    var m := Write(PushAll(c.mem, stackAddr, stack, size), sp, ToLE(ret, size));
    SetRegisters(c, arch, conv, args).(mem := m, sp := sp)
  }

  function ReadAll(m: Memory, a: int, n: nat, size: nat): Option<seq<nat>>
    decreases n
  {
    if n == 0 then Some([])
    else
      var v :- ReadLE(m, a, size);
      var rest :- ReadAll(m, a + size, n - 1, size);
      Some([v] + rest)
  }

  function RegisterValues(c: Cpu, arch: Arch, conv: Conv, argc: nat): seq<nat> {
    var n := RegisterArgs(arch, conv);
    [c.cx, c.dx, c.r8, c.r9][..if argc < n then argc else n]
  }

  // The low halves of the first registers
  function LowHalves(xmm: seq<nat>): (r: seq<nat>)
    ensures |r| == |xmm| && forall i :: 0 <= i < |xmm| ==> r[i] == xmm[i] % W64
  {
    if xmm == [] then [] else [xmm[0] % W64] + LowHalves(xmm[1..])
  }

  // get_func_argv at the entry of the callee. Doubles are on the stack on x86, and in registers on x64.
  function GetFuncArgv(c: Cpu, arch: Arch, conv: Conv, argc: nat): Option<seq<nat>> {
    var size := PtrSize(arch);
    if conv == Float && arch == X86 then ReadAll(c.mem, c.sp + size, argc, 8)
    else if conv == Float then Some(LowHalves(c.xmm[..if argc < 4 then argc else 4]))
    else
      var stack :- ReadAll(c.mem, c.sp + HomeSpace(arch, true) + size, StackArgs(arch, conv, argc), size);
      Some(RegisterValues(c, arch, conv, argc) + stack)
  }

  // The stack arguments that the callee removes
  function Cleaned(arch: Arch, conv: Conv, argc: nat): nat {
    if arch == AMD64 || conv == Cdecl || conv == Float then 0 else StackArgs(arch, conv, argc)
  }

  // Where a return value goes
  function SetResult(c: Cpu, arch: Arch, conv: Conv, value: nat): Cpu
    requires Fp80.IsFpu(c.fpu)
  {
    if conv != Float then c.(ax := value)
    else if arch == X86 then c.(fpu := Fp80.Push(c.fpu, value))
    else c.(xmm := c.xmm[0 := value])
  }

  // do_call_return. Without a return address (or with 0), the stack pointer and the pc stay.
  function CallReturn(c: Cpu, arch: Arch, conv: Conv, argc: nat, ret: nat, value: Option<nat>): Cpu
    requires Fp80.IsFpu(c.fpu)
  {
    var c := if ret != 0 then c.(sp := c.sp + PtrSize(arch), pc := ret) else c;
    var c := if value.Some? then SetResult(c, arch, conv, value.value) else c;
    c.(sp := c.sp + PtrSize(arch) * Cleaned(arch, conv, argc))
  }

  // -- What a call does to memory

  // Pushes write only the slots between the new and the old stack pointer.
  lemma {:induction false} PushAllFrame(m: Memory, sp: int, values: seq<nat>, size: nat, k: int)
    requires !(Below(sp, |values|, size) <= k < sp)
    ensures k in PushAll(m, sp, values, size) <==> k in m
    ensures k in m ==> PushAll(m, sp, values, size)[k] == m[k]
  {
    if values != [] {
      PushAllFrame(m, sp, values[1..], size, k);
    }
  }

  ghost predicate SameFrom(m: Memory, m': Memory, lo: int, hi: int) {
    forall k :: lo <= k < hi && k in m ==> k in m' && m'[k] == m[k]
  }

  lemma FirstPushReads(m: Memory, sp: int, values: seq<nat>, size: nat, later: Memory)
    requires values != [] && values[0] < Pow256(size)
    requires SameFrom(PushAll(m, sp, values, size), later, Below(sp, |values|, size), sp)
    ensures ReadLE(later, Below(sp, |values|, size), size) == Some(values[0])
    ensures SameFrom(PushAll(m, sp, values[1..], size), later, Below(sp, |values|, size) + size, sp)
  {
    hide Write, SameFrom, ToLE, ReadLE, Pow256;
    var a, data := Below(sp, |values|, size), ToLE(values[0], size);
    var inner := PushAll(m, sp, values[1..], size);
    assert PushAll(m, sp, values, size) == Write(inner, a, data);
    assert a + size == Below(sp, |values| - 1, size) <= sp;
    hide PushAll, Below;
    PushedHeld(inner, later, a, sp, data);
    ReadLEHeld(later, a, values[0], size);
  }

  lemma {:induction false} PushAllReads(m: Memory, sp: int, values: seq<nat>, size: nat, later: Memory)
    requires forall i :: 0 <= i < |values| ==> values[i] < Pow256(size)
    requires SameFrom(PushAll(m, sp, values, size), later, Below(sp, |values|, size), sp)
    ensures ReadAll(later, Below(sp, |values|, size), |values|, size) == Some(values)
  {
    hide PushAll, SameFrom, ReadLE, Pow256;
    if values != [] {
      var a := Below(sp, |values|, size);
      assert Below(sp, |values| - 1, size) == a + size;
      hide Below;
      FirstPushReads(m, sp, values, size, later);
      PushAllReads(m, sp, values[1..], size, later);
      assert ReadAll(later, a, |values|, size) == Some([values[0]] + values[1..]);
      assert values == [values[0]] + values[1..];
    }
  }

  lemma PushedHeld(m: Memory, later: Memory, a: int, sp: int, data: seq<byte>)
    requires SameFrom(Write(m, a, data), later, a, sp) && a + |data| <= sp
    ensures Holds(later, a, data) && SameFrom(m, later, a + |data|, sp)
  {
  }

  // A callee reads exactly the arguments that its caller set, for every number of arguments, and the return address
  // is on top of the stack. Without home space, that holds of the arguments in registers.
  lemma ArgumentsArrive(c: Cpu, arch: Arch, conv: Conv, stackAddr: int, ret: nat, args: seq<nat>, home: bool)
    requires ret < Pow256(PtrSize(arch)) && forall i :: 0 <= i < |args| ==> args[i] < Pow256(PtrSize(arch))
    requires conv != Float
    ensures var callee := SetFuncArgs(c, arch, conv, stackAddr, ret, args, home);
            && (home || arch == X86 || |args| <= 4 ==> GetFuncArgv(callee, arch, conv, |args|) == Some(args))
            && ReadLE(callee.mem, callee.sp, PtrSize(arch)) == Some(ret)
  {
    hide PushAll, ReadAll, Write, ReadLE, SetFuncArgs, StackArgs, RegisterValues;
    var size, callee := PtrSize(arch), SetFuncArgs(c, arch, conv, stackAddr, ret, args, home);
    var k := |args| - StackArgs(arch, conv, |args|);
    StackArrives(c, arch, conv, stackAddr, ret, args, home);
    RegistersSet(c, arch, conv, stackAddr, ret, args, home);
    NothingRead(callee.mem, callee.sp + HomeSpace(arch, true) + size, size);
    FewInRegisters(arch, conv, |args|);
    assert args[..k] + args[k..] == args;
  }

  lemma FewInRegisters(arch: Arch, conv: Conv, argc: nat)
    ensures StackArgs(arch, conv, argc) <= argc && (arch == AMD64 && argc <= 4 ==> StackArgs(arch, conv, argc) == 0)
  {
  }

  // The stack arguments lie above the return address and the home space.
  lemma StackArrives(c: Cpu, arch: Arch, conv: Conv, stackAddr: int, ret: nat, args: seq<nat>, home: bool)
    requires ret < Pow256(PtrSize(arch)) && forall i :: 0 <= i < |args| ==> args[i] < Pow256(PtrSize(arch))
    ensures var callee := SetFuncArgs(c, arch, conv, stackAddr, ret, args, home);
            var (size, n) := (PtrSize(arch), StackArgs(arch, conv, |args|));
            && ReadLE(callee.mem, callee.sp, size) == Some(ret)
            && ReadAll(callee.mem, callee.sp + HomeSpace(arch, home) + size, n, size) == Some(args[|args| - n..])
  {
    hide PushAll, ReadAll, Write, ReadLE, SetRegisters;
    var size, callee := PtrSize(arch), SetFuncArgs(c, arch, conv, stackAddr, ret, args, home);
    ReadLEHeld(callee.mem, callee.sp, ret, size);
    PushAllReads(c.mem, stackAddr, args[|args| - StackArgs(arch, conv, |args|)..], size, callee.mem);
  }

  lemma NothingRead(m: Memory, a: int, size: nat)
    ensures ReadAll(m, a, 0, size) == Some([])
  {
  }

  lemma RegistersSet(c: Cpu, arch: Arch, conv: Conv, stackAddr: int, ret: nat, args: seq<nat>, home: bool)
    ensures var callee := SetFuncArgs(c, arch, conv, stackAddr, ret, args, home);
            RegisterValues(callee, arch, conv, |args|) == args[..|args| - StackArgs(arch, conv, |args|)]
  {
    hide PushAll, Write;
  }

  // The doubles that a guest passes: on x86 it pushed them as 64-bit values before the return address, and on x64 the
  // first four are in registers. The callee reads exactly them, unless there are more than four on x64.
  lemma DoublesArrive(c: Cpu, arch: Arch, stackAddr: int, doubles: seq<nat>)
    requires forall i :: 0 <= i < |doubles| ==> doubles[i] < W64
    requires arch == X86 ==>
               && c.sp + 4 == Below(stackAddr, |doubles|, 8)
               && exists m :: SameFrom(PushAll(m, stackAddr, doubles, 8), c.mem, c.sp + 4, stackAddr)
    requires arch == AMD64 ==> forall i :: 0 <= i < |doubles| && i < 4 ==> c.xmm[i] % W64 == doubles[i]
    ensures GetFuncArgv(c, arch, Float, |doubles|) == Some(doubles) <==> arch == X86 || |doubles| <= 4
  {
    Pow256Values();
    hide PushAll, SameFrom, ReadAll, Below, Pow256;
    if arch == X86 {
      var m :| SameFrom(PushAll(m, stackAddr, doubles, 8), c.mem, c.sp + 4, stackAddr);
      PushAllReads(m, stackAddr, doubles, 8, c.mem);
    } else if |doubles| <= 4 {
      assert LowHalves(c.xmm[..|doubles|]) == doubles;
    }
  }

  // A call writes nothing at or above the stack address, and nothing below the new stack pointer.
  lemma CallFrame(c: Cpu, arch: Arch, conv: Conv, stackAddr: int, ret: nat, args: seq<nat>, home: bool, k: int)
    requires k >= stackAddr || k < SetFuncArgs(c, arch, conv, stackAddr, ret, args, home).sp
    ensures var m := SetFuncArgs(c, arch, conv, stackAddr, ret, args, home).mem;
            (k in m <==> k in c.mem) && (k in c.mem ==> m[k] == c.mem[k])
  {
    var stack := args[|args| - StackArgs(arch, conv, |args|)..];
    PushAllFrame(c.mem, stackAddr, stack, PtrSize(arch), k);
  }

  // After a call and a return, the stack pointer is where the convention leaves it: the callee removes the stack
  // arguments of stdcall and fastcall on x86, and the caller removes the rest. Without a return address, the callee is
  // not left.
  lemma ReturnBalances(
    c: Cpu, arch: Arch, conv: Conv, stackAddr: int, ret: nat, args: seq<nat>, home: bool, to: nat, value: Option<nat>)
    requires Fp80.IsFpu(c.fpu)
    ensures var callee := SetFuncArgs(c, arch, conv, stackAddr, ret, args, home);
            var back := CallReturn(callee, arch, conv, |args|, to, value);
            var end := if arch == X86 && (conv == Stdcall || conv == Fastcall) then stackAddr
                       else stackAddr - HomeSpace(arch, home) - PtrSize(arch) * StackArgs(arch, conv, |args|);
            && (to != 0 ==> back.pc == to && back.sp == end)
            && (to == 0 ==> back.pc == callee.pc && back.sp == end - PtrSize(arch))
  {
    hide PushAll, Write, SetResult, Fp80.Push;
    BelowIs(stackAddr, StackArgs(arch, conv, |args|), PtrSize(arch));
    ResultKeepsPlace(SetFuncArgs(c, arch, conv, stackAddr, ret, args, home), arch, conv, to, value);
  }

  lemma ResultKeepsPlace(c: Cpu, arch: Arch, conv: Conv, to: nat, value: Option<nat>)
    requires Fp80.IsFpu(c.fpu)
    ensures value.Some? ==> forall d: Cpu :: d == (if to != 0 then c.(sp := c.sp + PtrSize(arch), pc := to) else c) ==>
              SetResult(d, arch, conv, value.value).sp == d.sp && SetResult(d, arch, conv, value.value).pc == d.pc
  {
  }

  // The caller of a function that returns a double gets it: on top of the x87 stack on x86, whose status word is as
  // before when the caller pops it, or in XMM0 on x64. Other functions return in ax. Nothing else changes.
  lemma ResultArrives(c: Cpu, arch: Arch, conv: Conv, argc: nat, ret: nat, value: nat)
    requires Fp80.IsFpu(c.fpu) && (conv == Float && arch == X86 ==> Fp80.IsDouble(value) && !Fp80.IsNaN(value))
    ensures var back := CallReturn(c, arch, conv, argc, ret, Some(value));
            && back.mem == c.mem && back.cx == c.cx && back.dx == c.dx && back.r8 == c.r8 && back.r9 == c.r9
            && (conv == Float && arch == X86 ==>
                  && Fp80.IsFpu(back.fpu) && Fp80.Pop(back.fpu).0 == value
                  && Fp80.Pop(back.fpu).1.status == c.fpu.status
                  && back.ax == c.ax && back.xmm == c.xmm)
            && (conv == Float && arch == AMD64 ==>
                  back.xmm == c.xmm[0 := value] && back.ax == c.ax && back.fpu == c.fpu)
            && (conv != Float ==> back.ax == value && back.xmm == c.xmm && back.fpu == c.fpu)
    ensures CallReturn(c, arch, conv, argc, ret, None)
         == c.(sp := CallReturn(c, arch, conv, argc, ret, None).sp, pc := if ret != 0 then ret else c.pc)
  {
    if conv == Float && arch == X86 {
      OnePushed(c.fpu, value);
    }
    hide Fp80.Push, Fp80.Pop;
  }

  lemma OnePushed(f: Fp80.Fpu, value: nat)
    requires Fp80.IsFpu(f) && Fp80.IsDouble(value) && !Fp80.IsNaN(value)
    ensures Fp80.Pop(Fp80.Push(f, value)).0 == value && Fp80.Pop(Fp80.Push(f, value)).1.status == f.status
  {
    Fp80.PopPushed(f, value, Fp80.Push(f, value));
  }

  // -- The same step by step

  class Processor {
    var mem: Memory
    var sp: int
    var pc: int
    var ax: nat
    var cx: nat
    var dx: nat
    var r8: nat
    var r9: nat
    var xmm: XmmRegisters
    var fpu: Fp80.Fpu

    function Value(): Cpu
      reads this
    {
      Cpu(mem, sp, pc, ax, cx, dx, r8, r9, xmm, fpu)
    }

    method SetRegisterArgs(arch: Arch, conv: Conv, args: seq<nat>) returns (nargs: nat)
      modifies this
      ensures Value() == SetRegisters(old(Value()), arch, conv, args)
      ensures nargs == StackArgs(arch, conv, |args|)
    {
      nargs := |args|;
      var registers := RegisterArgs(arch, conv);
      for i := 0 to registers
        invariant nargs == if i < |args| then |args| - i else 0
        invariant Value() == old(Value()).(
            cx := if 0 < i && 0 < |args| then args[0] else old(cx),
            dx := if 1 < i && 1 < |args| then args[1] else old(dx),
            r8 := if 2 < i && 2 < |args| then args[2] else old(r8),
            r9 := if 3 < i && 3 < |args| then args[3] else old(r9))
      {
        if nargs == 0 {
          break;
        }
        match i {
          case 0 => cx := args[0];
          case 1 => dx := args[1];
          case 2 => r8 := args[2];
          case _ => r9 := args[3];
        }
        nargs := nargs - 1;
      }
    }

    method SetArgs(arch: Arch, conv: Conv, stackAddr: int, ret: nat, args: seq<nat>, home: bool)
      modifies this
      ensures Value() == SetFuncArgs(old(Value()), arch, conv, stackAddr, ret, args, home)
    {
      hide SetRegisters, Write, ToLE, PushAll, Below, StackArgs;
      FewInRegisters(arch, conv, |args|);
      var size := PtrSize(arch);
      var nargs := SetRegisterArgs(arch, conv, args);
      ghost var stack := args[|args| - nargs..];
      var currSp := PushStackArgs(stackAddr, args[|args| - nargs..], size);
      if arch == AMD64 && home {
        currSp := currSp - 0x20;
      }
      currSp := currSp - size;
      mem := Write(mem, currSp, ToLE(ret, size));
      sp := currSp;
    }

    method PushStackArgs(stackAddr: int, stack: seq<nat>, size: nat) returns (currSp: int)
      modifies this`mem
      ensures mem == PushAll(old(mem), stackAddr, stack, size) && currSp == Below(stackAddr, |stack|, size)
    {
      hide Write, ToLE;
      currSp := stackAddr;
      var i := |stack|;
      while i > 0
        invariant 0 <= i <= |stack| && currSp == Below(stackAddr, |stack| - i, size)
        invariant mem == PushAll(old(mem), stackAddr, stack[i..], size)
      {
        i := i - 1;
        currSp := currSp - size;
        mem := Write(mem, currSp, ToLE(stack[i], size));
        assert stack[i..][1..] == stack[i + 1..];
      }
      assert stack[0..] == stack;
    }

    method Return(arch: Arch, conv: Conv, argc: nat, ret: nat, value: Option<nat>)
      requires Fp80.IsFpu(fpu)
      modifies this
      ensures Value() == CallReturn(old(Value()), arch, conv, argc, ret, value)
    {
      hide Fp80.Push;
      if ret != 0 {
        sp := sp + PtrSize(arch);
        pc := ret;
      }
      if value.Some? {
        if conv == Float {
          if arch == X86 {
            fpu := Fp80.Push(fpu, value.value);
          } else {
            xmm := xmm[0 := value.value];
          }
        } else {
          ax := value.value;
        }
      }
      if conv == Cdecl || conv == Float {
        return;
      }
      if conv == Fastcall {
        if arch == X86 && argc > 2 {
          CleanStackArgs(arch, argc - 2);
        }
      } else {
        CleanStackArgs(arch, argc);
      }
    }

    method CleanStackArgs(arch: Arch, argc: nat)
      modifies this`sp
      ensures sp == old(sp) + if arch == X86 then 4 * argc else 0
    {
      if argc == 0 {
        return;
      }
      if arch == X86 {
        sp := sp + PtrSize(arch) * argc;
      }
    }
  }
}
