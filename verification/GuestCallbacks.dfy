// speakeasy/windows/guest_callbacks.py: the stack of callback frames, and the guest stack that handlers use.

module GuestCallbacks {
  import opened Options
  import opened Bytes
  import opened CallConv

  // Data that a handler put on the guest stack.
  datatype Block = Block(address: int, size: nat)

  // scratch is the size of the guest stack below the frame that holds the blocks of its handler. handlerContext is the
  // address of the interrupted CONTEXT, or 0 if the handler has a caller.
  datatype CallbackFrame = CallbackFrame(
    stackPointer: int, returnAddress: int, handlerContext: int, scratch: nat, blocks: seq<Block>)

  function NewFrame(sp: int, returnAddress: int): CallbackFrame {
    CallbackFrame(sp, returnAddress, 0, 0, [])
  }

  // -- The stack of frames

  ghost predicate Descending(cs: seq<CallbackFrame>) {
    forall i, j :: 0 <= i < j < |cs| ==> cs[i].stackPointer > cs[j].stackPointer
  }

  // drop_abandoned: pop the frames at or below sp from the top.
  function DropAbandoned(cs: seq<CallbackFrame>, sp: int): seq<CallbackFrame> {
    if cs == [] || cs[|cs| - 1].stackPointer > sp then cs else DropAbandoned(cs[..|cs| - 1], sp)
  }

  // The frames to drop are exactly those at or below sp, wherever they are.
  lemma {:induction false} DropAbandonedExact(cs: seq<CallbackFrame>, sp: int)
    requires Descending(cs)
    ensures var n := |DropAbandoned(cs, sp)|;
            && n <= |cs| && DropAbandoned(cs, sp) == cs[..n]
            && forall i :: 0 <= i < |cs| ==> (i < n <==> cs[i].stackPointer > sp)
    decreases |cs|
  {
    if cs != [] && cs[|cs| - 1].stackPointer <= sp {
      DropAbandonedExact(cs[..|cs| - 1], sp);
    }
  }

  // Before the handler of a returned guest call goes on: pop the frames inside the stack pointer, but never the last.
  function PopNested(cs: seq<CallbackFrame>, sp: int): seq<CallbackFrame> {
    if |cs| > 1 && cs[|cs| - 1].stackPointer < sp then PopNested(cs[..|cs| - 1], sp) else cs
  }

  // The handler that goes on is frame k exactly when sp is above every frame inside it, and at or below frame k or
  // frame k is the last.
  lemma {:induction false} PopNestedFinds(cs: seq<CallbackFrame>, sp: int, k: nat)
    requires Descending(cs) && k < |cs|
    ensures PopNested(cs, sp) == cs[..k + 1]
       <==> (k == 0 || sp <= cs[k].stackPointer) && forall j :: k < j < |cs| ==> cs[j].stackPointer < sp
    decreases |cs|
  {
    var last := |cs| - 1;
    if |cs| > 1 && cs[last].stackPointer < sp {
      if k < last {
        PopNestedFinds(cs[..last], sp, k);
        assert cs[..last][..k + 1] == cs[..k + 1];
      } else {
        PopNestedShrinks(cs[..last], sp);
      }
    }
  }

  lemma {:induction false} PopNestedShrinks(cs: seq<CallbackFrame>, sp: int)
    ensures |PopNested(cs, sp)| <= |cs|
    decreases |cs|
  {
    if |cs| > 1 {
      PopNestedShrinks(cs[..|cs| - 1], sp);
    }
  }

  // list.remove takes out the first frame that is equal to the running one.
  function Remove(cs: seq<CallbackFrame>, f: CallbackFrame): seq<CallbackFrame> {
    if cs == [] then [] else if cs[0] == f then cs[1..] else [cs[0]] + Remove(cs[1..], f)
  }

  // That is the running frame itself, although frames are compared by value.
  lemma {:induction false} RemoveTakesTop(cs: seq<CallbackFrame>)
    requires Descending(cs) && cs != []
    ensures Remove(cs, cs[|cs| - 1]) == cs[..|cs| - 1]
    decreases |cs|
  {
    if |cs| > 1 {
      RemoveTakesTop(cs[1..]);
      assert cs[..|cs| - 1] == [cs[0]] + cs[1..][..|cs| - 2];
    }
  }

  // guest_callbacks.unwind_frame: the frame with the lowest stack pointer at or above sp.
  function Nearest(cs: seq<CallbackFrame>, sp: int): Option<CallbackFrame> {
    if cs == [] then None
    else
      var rest := Nearest(cs[1..], sp);
      if cs[0].stackPointer >= sp && (rest.None? || cs[0].stackPointer <= rest.value.stackPointer) then Some(cs[0])
      else rest
  }

  // Frame k is at or above sp, and all frames inside it are below.
  ghost predicate IsInnermost(cs: seq<CallbackFrame>, sp: int, k: nat) {
    && k < |cs| && cs[k].stackPointer >= sp
    && forall j :: k < j < |cs| ==> cs[j].stackPointer < sp
  }

  // It is the innermost frame that is not below sp.
  lemma {:induction false} NearestIsInnermost(cs: seq<CallbackFrame>, sp: int)
    requires Descending(cs)
    ensures Nearest(cs, sp).None? <==> forall i :: 0 <= i < |cs| ==> cs[i].stackPointer < sp
    ensures Nearest(cs, sp).Some?
      ==> exists k :: 0 <= k < |cs| && IsInnermost(cs, sp, k) && Nearest(cs, sp).value == cs[k]
    decreases |cs|
  {
    if cs != [] {
      var rest := cs[1..];
      NearestIsInnermost(rest, sp);
      if Nearest(rest, sp).Some? {
        var k :| 0 <= k < |rest| && IsInnermost(rest, sp, k) && Nearest(rest, sp).value == rest[k];
        assert cs[k + 1] == rest[k];
        assert forall j :: k + 1 < j < |cs| ==> cs[j] == rest[j - 1];
        assert IsInnermost(cs, sp, k + 1);
      } else {
        assert forall j :: 1 <= j < |cs| ==> cs[j] == rest[j - 1];
      }
    }
  }

  // -- The guest stack of a handler

  function Align16(a: int): (r: int)
    ensures r % 16 == 0 && a - 16 < r <= a
  {
    a - a % 16
  }

  // alloca: a block of n bytes below the blocks that the frame has.
  function Alloca(f: CallbackFrame, n: nat): CallbackFrame {
    var address := Align16(f.stackPointer - f.scratch - n);
    f.(scratch := f.stackPointer - address, blocks := f.blocks + [Block(address, n)])
  }

  // Blocks are aligned, lie in the scratch area, and do not overlap.
  ghost predicate FrameOk(f: CallbackFrame) {
    && (forall b :: b in f.blocks ==>
          b.address % 16 == 0 && f.stackPointer - f.scratch <= b.address && b.address + b.size <= f.stackPointer)
    && (forall i, j :: 0 <= i < j < |f.blocks| ==> f.blocks[j].address + f.blocks[j].size <= f.blocks[i].address)
  }

  lemma AllocaKeepsFrame(f: CallbackFrame, n: nat)
    requires FrameOk(f)
    ensures FrameOk(Alloca(f, n)) && Alloca(f, n).scratch >= f.scratch && Alloca(f, n).stackPointer == f.stackPointer
  {
  }

  // Where start_guest_callback puts the stack for a call with argc arguments.
  function CallStack(f: CallbackFrame, arch: Arch, argc: nat): int {
    var sp := f.stackPointer - f.scratch;
    if arch == X86 then sp
    else if StackArgs(arch, Stdcall, argc) % 2 == 1 then Align16(sp) - 8
    else Align16(sp)
  }

  // The processor at the entry of the guest function.
  function StartCall(c: Cpu, f: CallbackFrame, arch: Arch, ret: nat, args: seq<nat>): Cpu {
    SetFuncArgs(c, arch, Stdcall, CallStack(f, arch, |args|), ret, args, true)
  }

  // Win64 callees expect rsp + 8 to be 16-byte aligned at entry.
  lemma CallAligned(c: Cpu, f: CallbackFrame, ret: nat, args: seq<nat>)
    ensures (StartCall(c, f, AMD64, ret, args).sp + 8) % 16 == 0
  {
    hide PushAll, Write;
    BelowIs(CallStack(f, AMD64, |args|), StackArgs(AMD64, Stdcall, |args|), 8);
  }

  // A guest call of a frame leaves every byte at or above the frame's scratch area alone, so also its blocks.
  lemma CallKeepsScratch(c: Cpu, f: CallbackFrame, arch: Arch, ret: nat, args: seq<nat>)
    ensures var m := StartCall(c, f, arch, ret, args).mem;
            && StartCall(c, f, arch, ret, args).sp < f.stackPointer - f.scratch
            && forall k :: k >= f.stackPointer - f.scratch && k in c.mem ==> k in m && m[k] == c.mem[k]
  {
    var base, m := CallStack(f, arch, |args|), StartCall(c, f, arch, ret, args).mem;
    hide PushAll, Write;
    forall k | k >= base && k in c.mem ensures k in m && m[k] == c.mem[k] {
      CallFrame(c, arch, Stdcall, base, ret, args, true, k);
    }
  }

  // -- Runs

  // What happens to the frames of a run. The sp of Fault and Enter is that of the guest at the event.
  datatype Event =
    | Fault(sp: int)                       // dispatch_fault starts a handler for a CPU exception
    | Enter(sp: int, returnAddress: int)   // an API handler starts guest calls
    | Save(context: seq<byte>)             // a fault handler puts the interrupted CONTEXT on the stack
    | Push(data: seq<byte>)                // the running handler uses alloca
    | Return(sp: int)                      // a guest call returns
    | Finish                               // the running handler returns to its caller
    | Transfer(sp: int)                    // the guest continues at another context

  datatype Run = Run(callbacks: seq<CallbackFrame>, mem: Memory)

  function Top(r: Run): CallbackFrame
    requires r.callbacks != []
  {
    r.callbacks[|r.callbacks| - 1]
  }

  // A handler runs for save, push and finish. An API frame is entered below the top frame.
  predicate Allowed(r: Run, e: Event) {
    match e
    case Enter(sp, _) => r.callbacks == [] || sp < Top(r).stackPointer
    case Save(_) => r.callbacks != []
    case Push(_) => r.callbacks != []
    case Finish => r.callbacks != []
    case _ => true
  }

  function Apply(r: Run, e: Event): Run
    requires Allowed(r, e)
  {
    match e
    case Fault(sp) => r.(callbacks := DropAbandoned(r.callbacks, sp) + [NewFrame(sp, 0)])
    case Enter(sp, ret) => r.(callbacks := r.callbacks + [NewFrame(sp, ret)])
    case Save(context) =>
      var f := Alloca(Top(r), |context|);
      var address := f.stackPointer - f.scratch;
      Run(r.callbacks[|r.callbacks| - 1 := f.(handlerContext := address)], Write(r.mem, address, context))
    case Push(data) =>
      var f := Alloca(Top(r), |data|);
      Run(r.callbacks[|r.callbacks| - 1 := f], Write(r.mem, f.stackPointer - f.scratch, data))
    case Return(sp) => r.(callbacks := PopNested(r.callbacks, sp))
    case Finish => r.(callbacks := Remove(r.callbacks, Top(r)))
    case Transfer(sp) => r.(callbacks := DropAbandoned(r.callbacks, sp))
  }

  ghost predicate Valid(r: Run) {
    Descending(r.callbacks) && forall i :: 0 <= i < |r.callbacks| ==> FrameOk(r.callbacks[i])
  }

  lemma {:induction false} PopNestedPrefix(cs: seq<CallbackFrame>, sp: int)
    ensures PopNested(cs, sp) <= cs
    decreases |cs|
  {
    if |cs| > 1 {
      PopNestedPrefix(cs[..|cs| - 1], sp);
    }
  }

  lemma StepKeepsValid(r: Run, e: Event)
    requires Valid(r) && Allowed(r, e)
    ensures Valid(Apply(r, e))
  {
    hide Write, FrameOk, Alloca, Remove, PopNested, DropAbandoned;
    assert forall sp, ret :: FrameOk(NewFrame(sp, ret)) by {
      NewFrameOk();
    }
    match e
    case Fault(sp) => DropAbandonedExact(r.callbacks, sp);
    case Enter(_, _) =>
    case Save(context) =>
      AllocaKeepsFrame(Top(r), |context|);
      ContextKeepsFrame(Alloca(Top(r), |context|));
    case Push(data) => AllocaKeepsFrame(Top(r), |data|);
    case Return(sp) => PopNestedPrefix(r.callbacks, sp);
    case Finish => RemoveTakesTop(r.callbacks);
    case Transfer(sp) => DropAbandonedExact(r.callbacks, sp);
  }

  lemma ContextKeepsFrame(f: CallbackFrame)
    requires FrameOk(f)
    ensures forall address :: FrameOk(f.(handlerContext := address))
  {
  }

  lemma NewFrameOk()
    ensures forall sp, ret :: FrameOk(NewFrame(sp, ret))
  {
  }

  ghost predicate AllowedAll(r: Run, es: seq<Event>)
    decreases |es|
  {
    es == [] || (Allowed(r, es[0]) && AllowedAll(Apply(r, es[0]), es[1..]))
  }

  function ApplyAll(r: Run, es: seq<Event>): Run
    requires AllowedAll(r, es)
    decreases |es|
  {
    if es == [] then r else ApplyAll(Apply(r, es[0]), es[1..])
  }

  // Over every run, the frames are strictly decreasing in stack pointer, and each frame's blocks are aligned and apart.
  lemma {:induction false} RunKeepsValid(r: Run, es: seq<Event>)
    requires Valid(r) && AllowedAll(r, es)
    ensures Valid(ApplyAll(r, es))
    decreases |es|
  {
    if es != [] {
      StepKeepsValid(r, es[0]);
      RunKeepsValid(Apply(r, es[0]), es[1..]);
    }
  }

  // -- Guests that keep to their stack

  // Each frame is below the scratch area of the one outside it.
  ghost predicate Nested(cs: seq<CallbackFrame>) {
    forall i, j :: 0 <= i < j < |cs| ==> cs[j].stackPointer <= cs[i].stackPointer - cs[i].scratch
  }

  // A guest that an exception or an API call interrupts is below the data of the handler that called it.
  predicate Disciplined(r: Run, e: Event) {
    match e
    case Fault(sp) =>
      var cs := DropAbandoned(r.callbacks, sp);
      cs == [] || sp <= cs[|cs| - 1].stackPointer - cs[|cs| - 1].scratch
    case Enter(sp, _) => r.callbacks == [] || sp <= Top(r).stackPointer - Top(r).scratch
    case _ => true
  }

  lemma StepKeepsNested(r: Run, e: Event)
    requires Valid(r) && Nested(r.callbacks) && Allowed(r, e) && Disciplined(r, e)
    ensures Nested(Apply(r, e).callbacks)
  {
    hide Write, FrameOk;
    match e
    case Fault(sp) => DropAbandonedExact(r.callbacks, sp);
    case Enter(_, _) =>
    case Save(context) => AllocaKeepsFrame(Top(r), |context|);
    case Push(data) => AllocaKeepsFrame(Top(r), |data|);
    case Return(sp) => PopNestedPrefix(r.callbacks, sp);
    case Finish => RemoveTakesTop(r.callbacks);
    case Transfer(sp) => DropAbandonedExact(r.callbacks, sp);
  }

  ghost predicate DisciplinedAll(r: Run, es: seq<Event>)
    requires AllowedAll(r, es)
    decreases |es|
  {
    es == [] || (Disciplined(r, es[0]) && DisciplinedAll(Apply(r, es[0]), es[1..]))
  }

  lemma {:induction false} RunKeepsNested(r: Run, es: seq<Event>)
    requires Valid(r) && Nested(r.callbacks) && AllowedAll(r, es) && DisciplinedAll(r, es)
    ensures Nested(ApplyAll(r, es).callbacks)
    decreases |es|
  {
    if es != [] {
      StepKeepsValid(r, es[0]);
      StepKeepsNested(r, es[0]);
      RunKeepsNested(Apply(r, es[0]), es[1..]);
    }
  }

  ghost predicate SameBytes(m: Memory, m': Memory, b: Block) {
    forall k :: b.address <= k < b.address + b.size && k in m ==> k in m' && m'[k] == m[k]
  }

  // Blocks of different frames do not overlap either.
  lemma BlocksApart(r: Run, i: nat, j: nat, a: Block, b: Block)
    requires Valid(r) && Nested(r.callbacks) && i < j < |r.callbacks|
    requires a in r.callbacks[i].blocks && b in r.callbacks[j].blocks
    ensures b.address + b.size <= a.address
  {
    assert FrameOk(r.callbacks[i]) && FrameOk(r.callbacks[j]);
  }

  // Neither a new block nor a guest call of the running handler changes a block of any frame.
  lemma BlocksKept(r: Run, c: Cpu, arch: Arch, ret: nat, args: seq<nat>, data: seq<byte>, i: nat, b: Block)
    requires Valid(r) && Nested(r.callbacks) && c.mem == r.mem
    requires i < |r.callbacks| && b in r.callbacks[i].blocks
    ensures SameBytes(r.mem, Apply(r, Push(data)).mem, b)
    ensures SameBytes(r.mem, StartCall(c, Top(r), arch, ret, args).mem, b)
    ensures Holds(Apply(r, Push(data)).mem, Alloca(Top(r), |data|).stackPointer - Alloca(Top(r), |data|).scratch, data)
  {
    hide StartCall;
    var f := Top(r);
    assert FrameOk(r.callbacks[i]) && FrameOk(f);
    assert b.address >= f.stackPointer - f.scratch;
    CallKeepsScratch(c, f, arch, ret, args);
  }

  // -- Faults

  // What dispatch_fault does before the first guest call. If no handler gets the exception, it takes its frame back.
  function FaultEvents(sp: int, context: seq<byte>, record: seq<byte>, failed: bool): seq<Event> {
    [Fault(sp), Save(context), Push(record)] + if failed then [Finish] else []
  }

  lemma FaultAllowed(r: Run, sp: int, context: seq<byte>, record: seq<byte>, failed: bool)
    ensures var es := FaultEvents(sp, context, record, failed);
            var r2 := Apply(Apply(r, Fault(sp)), Save(context));
            var r3 := Apply(r2, Push(record));
            AllowedAll(r, es) && ApplyAll(r, es) == if failed then Apply(r3, Finish) else r3
  {
    hide DropAbandoned, Alloca, Remove, Write;
    var es := FaultEvents(sp, context, record, failed);
    var r1 := Apply(r, Fault(sp));
    var r2 := Apply(r1, Save(context));
    var r3 := Apply(r2, Push(record));
    Unfold(r, es);
    Unfold(r1, es[1..]);
    Unfold(r2, es[2..]);
    assert es[1..][1..] == es[2..] && es[2..][1..] == es[3..];
    if failed {
      Unfold(r3, es[3..]);
      assert es[3..][1..] == [];
    }
  }

  lemma Unfold(r: Run, es: seq<Event>)
    requires es != []
    ensures AllowedAll(r, es) <==> Allowed(r, es[0]) && AllowedAll(Apply(r, es[0]), es[1..])
    ensures AllowedAll(r, es) ==> ApplyAll(r, es) == ApplyAll(Apply(r, es[0]), es[1..])
  {
  }

  // The frame of a fault leads to the interrupted context: it is in a block of the frame, and the exception record does
  // not overlap it. If the dispatch fails, only the abandoned frames are gone.
  lemma FaultSavesContext(r: Run, sp: int, context: seq<byte>, record: seq<byte>)
    requires Valid(r)
    ensures AllowedAll(r, FaultEvents(sp, context, record, false))
      && AllowedAll(r, FaultEvents(sp, context, record, true))
    ensures var r' := ApplyAll(r, FaultEvents(sp, context, record, false));
            && r'.callbacks != [] && Top(r').stackPointer == sp
            && r'.callbacks[..|r'.callbacks| - 1] == DropAbandoned(r.callbacks, sp)
            && Block(Top(r').handlerContext, |context|) in Top(r').blocks
            && Holds(r'.mem, Top(r').handlerContext, context)
    ensures ApplyAll(r, FaultEvents(sp, context, record, true)).callbacks == DropAbandoned(r.callbacks, sp)
  {
    FaultAllowed(r, sp, context, record, false);
    FaultAllowed(r, sp, context, record, true);
    hide FaultEvents, AllowedAll, ApplyAll, Write, FrameOk, Valid;
    var r1 := Apply(r, Fault(sp));
    var r2 := Apply(r1, Save(context));
    var r3 := Apply(r2, Push(record));
    StepKeepsValid(r, Fault(sp));
    StepKeepsValid(r1, Save(context));
    StepKeepsValid(r2, Push(record));
    TopRemoved(r3);
    hide DropAbandoned, Remove;
    var f, f2 := Alloca(NewFrame(sp, 0), |context|), Top(r2);
    assert f2 == f.(handlerContext := f.stackPointer - f.scratch) && f.blocks == [Block(f2.handlerContext, |context|)];
    assert Top(r3) == Alloca(f2, |record|);
  }

  lemma TopRemoved(r: Run)
    requires Valid(r) && r.callbacks != []
    ensures Apply(r, Finish).callbacks == r.callbacks[..|r.callbacks| - 1]
  {
    RemoveTakesTop(r.callbacks);
  }

  // The flags register without the trap flag
  function ClearTrap(flags: nat): (r: nat)
    ensures r / 0x100 % 2 == 0 && r % 0x100 == flags % 0x100 && r / 0x200 == flags / 0x200
  {
    if flags / 0x100 % 2 == 1 then flags - 0x100 else flags
  }

  // -- The same in place

  class CallbackStack {
    var callbacks: seq<CallbackFrame>
    var mem: Memory
    var flags: nat

    function Value(): Run
      reads this
    {
      Run(callbacks, mem)
    }

    constructor (r: Run)
      ensures Value() == r
    {
      callbacks, mem, flags := r.callbacks, r.mem, 0;
    }

    method DropFrames(sp: int)
      modifies this`callbacks
      ensures callbacks == DropAbandoned(old(callbacks), sp)
    {
      while callbacks != [] && callbacks[|callbacks| - 1].stackPointer <= sp
        invariant DropAbandoned(callbacks, sp) == DropAbandoned(old(callbacks), sp)
        decreases |callbacks|
      {
        callbacks := callbacks[..|callbacks| - 1];
      }
    }

    // Start a handler for a CPU exception. contextOf gives the bytes of the CONTEXT with some flags; failed says that
    // the dispatch fails before it calls a guest handler. Handlers run with the trap flag clear, and a single step
    // ends it.
    method DispatchFault(sp: int, singleStep: bool, contextOf: nat -> seq<byte>, record: seq<byte>, failed: bool)
      returns (ok: bool)
      modifies this
      ensures var context := contextOf(if singleStep then ClearTrap(old(flags)) else old(flags));
              && AllowedAll(old(Value()), FaultEvents(sp, context, record, failed))
              && Value() == ApplyAll(old(Value()), FaultEvents(sp, context, record, failed))
      ensures ok == !failed && flags == ClearTrap(old(flags))
    {
      var context := contextOf(if singleStep then ClearTrap(flags) else flags);
      FaultAllowed(Value(), sp, context, record, failed);
      hide AllowedAll, ApplyAll, FaultEvents, ClearTrap, Apply;
      flags := ClearTrap(flags);
      PushFrame(sp);
      SaveContext(context);
      var _ := AllocaBytes(record);
      if failed {
        RemoveFrame(callbacks[|callbacks| - 1]);
      }
      return !failed;
    }

    method PushFrame(sp: int)
      modifies this`callbacks
      ensures Value() == Apply(old(Value()), Fault(sp)) && callbacks != []
    {
      DropFrames(sp);
      callbacks := callbacks + [NewFrame(sp, 0)];
    }

    method SaveContext(context: seq<byte>)
      requires callbacks != []
      modifies this`callbacks, this`mem
      ensures Value() == Apply(old(Value()), Save(context)) && callbacks != []
    {
      var address := AllocaBytes(context);
      hide Alloca, Write;
      var top := callbacks[|callbacks| - 1];
      callbacks := callbacks[|callbacks| - 1 := top.(handlerContext := address)];
    }

    method RemoveFrame(f: CallbackFrame)
      requires callbacks != [] && f == callbacks[|callbacks| - 1]
      modifies this`callbacks
      ensures Value() == Apply(old(Value()), Finish)
    {
      callbacks := Remove(callbacks, f);
    }

    method StartApi(sp: int, returnAddress: int)
      requires Allowed(Value(), Enter(sp, returnAddress))
      modifies this
      ensures Value() == Apply(old(Value()), Enter(sp, returnAddress))
    {
      callbacks := callbacks + [NewFrame(sp, returnAddress)];
    }

    method AllocaBytes(data: seq<byte>) returns (address: int)
      requires callbacks != []
      modifies this`callbacks, this`mem
      ensures Value() == Apply(old(Value()), Push(data)) && callbacks != []
      ensures var f := Alloca(old(callbacks[|callbacks| - 1]), |data|);
              callbacks == old(callbacks)[|old(callbacks)| - 1 := f] && address == f.stackPointer - f.scratch
    {
      var f := callbacks[|callbacks| - 1];
      address := Align16(f.stackPointer - f.scratch - |data|);
      callbacks := callbacks[|callbacks| - 1 :=
        f.(scratch := f.stackPointer - address, blocks := f.blocks + [Block(address, |data|)])];
      mem := Write(mem, address, data);
    }

    method ContinueCallback(sp: int) returns (running: CallbackFrame)
      requires callbacks != []
      modifies this`callbacks
      ensures Value() == Apply(old(Value()), Return(sp))
      ensures callbacks != [] && running == callbacks[|callbacks| - 1]
    {
      while |callbacks| > 1 && callbacks[|callbacks| - 1].stackPointer < sp
        invariant callbacks != [] && PopNested(callbacks, sp) == PopNested(old(callbacks), sp)
        decreases |callbacks|
      {
        callbacks := callbacks[..|callbacks| - 1];
      }
      running := callbacks[|callbacks| - 1];
    }
  }
}
