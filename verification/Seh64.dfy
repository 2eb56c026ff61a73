// speakeasy/windows/seh64.py: x64 exception dispatch over the frames of a guest stack.

module Seh64 {
  import opened Options
  import opened Bytes
  import opened Sequences
  import opened Unwind
  import opened FunctionTable
  import opened Prologue
  import GuestCallbacks

  const MAX_FRAMES: nat := 4096

  const EMU_RESERVED: int := 0xFEEDF000
  const EMU_RESERVED_END: int := 0xFEEDF000 + 0x4000
  const GUEST_CALLBACK_RETURN_ADDR: int := 0xFEEDF000 + 8

  datatype Module = Module(base: int, size: int)

  // A table that the sample added; callback tables have no rows to search.
  datatype Table = Table(identifier: int, base: int, begin: int, end: int, count: nat, callback: int)

  datatype Env = Env(modules: seq<Module>, tables: seq<Table>, callbacks: seq<GuestCallbacks.CallbackFrame>)

  function ModuleAt(modules: seq<Module>, pc: int): Option<Module> {
    if modules == [] then None
    else if modules[0].base <= pc <= modules[0].base + modules[0].size then Some(modules[0])
    else ModuleAt(modules[1..], pc)
  }

  function TableAt(tables: seq<Table>, pc: int): Option<Table> {
    if tables == [] then None
    else if tables[0].begin <= pc < tables[0].end && tables[0].callback == 0 then Some(tables[0])
    else TableAt(tables[1..], pc)
  }

  // find_function: the unwind data at pc, from the image there, or else from the first table that covers pc.
  function FindFunction(env: Env, m: Memory, pc: int): Result<Option<RuntimeFunction>, ReadError> {
    var image := ModuleAt(env.modules, pc);
    var found := if image.None? then Ok(None) else BisectLookup(m, image.value.base, pc);
    if found != Ok(None) then found
    else
      match TableAt(env.tables, pc)
      case None => Ok(None)
      case Some(t) => SearchPages(m, t.identifier, t.count, t.base, pc, 0)
  }

  // -- The CONTEXT record in guest memory

  function ReadGprs(m: Memory, a: int, n: nat): (r: Option<seq<u64>>)
    ensures r.Some? ==> |r.value| == n
  {
    if n == 0 then Some([])
    else
      var first :- ReadGprs(m, a, n - 1);
      var v :- ReadU64(m, a + 8 * (n - 1));
      Some(first + [v])
  }

  function ReadXmms(m: Memory, a: int, n: nat): (r: Option<seq<Xmm>>)
    ensures r.Some? ==> |r.value| == n
  {
    if n == 0 then Some([])
    else
      var first :- ReadXmms(m, a, n - 1);
      var low :- ReadU64(m, a + 16 * (n - 1));
      var high :- ReadU64(m, a + 16 * (n - 1) + 8);
      Some(first + [Xmm(low, high)])
  }

  function ReadContext(m: Memory, a: int): Option<Context> {
    var gpr :- ReadGprs(m, a + 0x78, 16);
    var rip :- ReadU64(m, a + 0xF8);
    var xmm :- ReadXmms(m, a + 0x1A0, 16);
    Some(Registers(gpr, xmm, rip))
  }

  // -- Guest callback frames (guest_callbacks.unwind_frame)

  // The guest state that the frame at rsp interrupted. None is a read fault.
  function UnwindCallback(env: Env, m: Memory, ctx: Context): Option<Context> {
    match GuestCallbacks.Nearest(env.callbacks, ctx.gpr[RSP])
    case None => Some(ctx.(rip := 0))
    case Some(f) =>
      if f.handlerContext != 0 then ReadContext(m, f.handlerContext)
      else Some(SetGpr(ctx, RSP, Wrap64(f.stackPointer + 8)).(rip := Wrap64(f.returnAddress)))
  }

  // -- The walk

  datatype Frame = Frame(ctx: Context, fn: RuntimeFunction, info: FrameInfo)

  // One step of walk_frames: the end, a read fault, a frame without unwind data, or a frame that it yields.
  datatype WalkStep = Ended | Faulted | Moved(ctx: Context) | Yielded(frame: Frame, ctx: Context)

  predicate AtEnd(pc: int) {
    pc == 0 || (EMU_RESERVED <= pc < EMU_RESERVED_END && pc != GUEST_CALLBACK_RETURN_ADDR)
  }

  function WalkOnce(env: Env, m: Memory, ctx: Context, handlerType: nat): WalkStep {
    if ctx.rip == GUEST_CALLBACK_RETURN_ADDR then
      var c := UnwindCallback(env, m, ctx);
      if c.None? then Faulted else Moved(c.value)
    else if AtEnd(ctx.rip) then Ended
    else
      match FindFunction(env, m, ctx.rip)
      case Err(_) => Ended
      case Ok(None) =>
        var c := UnwindLeaf(m, ctx);
        if c.None? then Ended else Moved(c.value)
      case Ok(Some(fn)) =>
        var u := VirtualUnwind(m, fn, ctx.rip, ctx, handlerType);
        if u.result.Err? then Ended else Yielded(Frame(ctx, fn, u.result.value), u.ctx)
  }

  function WalkFrames(env: Env, m: Memory, ctx: Context, handlerType: nat, fuel: nat): (seq<Frame>, bool)
    decreases fuel, handlerType
  {
    if fuel == 0 then ([], false)
    else
      match WalkOnce(env, m, ctx, handlerType)
      case Ended => ([], false)
      case Faulted => ([], true)
      case Moved(c) => WalkFrames(env, m, c, handlerType, fuel - 1)
      case Yielded(f, c) =>
        var (rest, fault) := WalkFrames(env, m, c, handlerType, fuel - 1);
        ([f] + rest, fault)
  }

  // -- Call stacks

  // One frame of a call stack: a function with unwind data that ran k steps of its prologue, a leaf function, or
  // the return address of a guest callback.
  datatype Activation =
    | Function(p: Prologue, e: Entry, links: seq<Link>, k: nat, entry: Context, handler: int, handlerData: int)
    | LeafFunction
    | CallbackReturn

  // Equal in everything that an unwind restores.
  ghost predicate SameState(x: Context, c: Context) {
    && x.rip == c.rip && x.gpr[RSP] == c.gpr[RSP]
    && (forall r: nibble :: Nonvolatile(r) ==> x.gpr[r] == c.gpr[r])
    && (forall r: nibble :: NonvolatileXmm(r) ==> x.xmm[r] == c.xmm[r])
  }

  // Activation a is in state c, and its caller is in state next.
  ghost predicate Linked(env: Env, m: Memory, a: Activation, c: Context, next: Context, handlerType: nat) {
    match a
    case Function(p, e, links, k, entry, handler, handlerData) =>
      && c.rip != GUEST_CALLBACK_RETURN_ADDR && !AtEnd(c.rip)
      && InFrame(m, p, e, links, c.rip, k, entry, next.rip, next.gpr[RSP], c)
      && (FrameIndex(p) < |p.steps| ==> Nonvolatile(p.fp))
      && FindFunction(env, m, c.rip) == Ok(Some(links[0].fn))
      && HandlerOf(m, links[|links| - 1], c.rip, handlerType) == Some((handler, handlerData))
      && (forall r: nibble :: Nonvolatile(r) ==> next.gpr[r] == entry.gpr[r])
      && (forall r: nibble :: NonvolatileXmm(r) ==> next.xmm[r] == entry.xmm[r])
    case LeafFunction =>
      && c.rip != GUEST_CALLBACK_RETURN_ADDR && !AtEnd(c.rip)
      && FindFunction(env, m, c.rip) == Ok(None)
      && ReadU64(m, c.gpr[RSP]) == Some(next.rip)
      && SameState(next, AddRsp(c, 8).(rip := next.rip))
    case CallbackReturn =>
      && c.rip == GUEST_CALLBACK_RETURN_ADDR
      && var u := UnwindCallback(env, m, c); u.Some? && SameState(next, u.value)
  }

  ghost predicate StackOk(env: Env, m: Memory, stack: seq<Activation>, cs: seq<Context>, handlerType: nat) {
    |cs| == |stack| + 1 && forall i :: 0 <= i < |stack| ==> Linked(env, m, stack[i], cs[i], cs[i + 1], handlerType)
  }

  // The frame that a walk yields for a function in state c.
  function FrameOf(a: Activation, c: Context): Frame
    requires a.Function? && |a.links| > 0
  {
    var fn, info := a.links[0].fn, a.links[0].info;
    Frame(c, fn, FrameInfo(EstablisherFrame(info, PrologOffset(fn, c.rip), c), a.handler, a.handlerData))
  }

  // The frames with unwind data, innermost first.
  function FramesOf(stack: seq<Activation>, cs: seq<Context>): (frames: seq<Frame>)
    requires |cs| >= |stack|
  {
    if stack == [] then []
    else if stack[0].Function? && |stack[0].links| > 0 then [FrameOf(stack[0], cs[0])] + FramesOf(stack[1..], cs[1..])
    else FramesOf(stack[1..], cs[1..])
  }

  ghost predicate SameFrame(y: Frame, f: Frame) {
    y.fn == f.fn && y.info == f.info && SameState(y.ctx, f.ctx)
  }

  ghost predicate SameFrames(ys: seq<Frame>, fs: seq<Frame>) {
    |ys| == |fs| && forall i :: 0 <= i < |ys| ==> SameFrame(ys[i], fs[i])
  }

  lemma IntactTransfers(p: Prologue, k: nat, entry: Context, c: Context, x: Context, m: Memory)
    requires k <= |p.steps| && Intact(p, k, entry, c, m) && SameState(x, c)
    requires FrameIndex(p) < |p.steps| ==> Nonvolatile(p.fp)
    ensures Intact(p, k, entry, x, m)
  {
    hide Cell, Content, Depth;
  }

  lemma SameEstablisher(p: Prologue, link: Link, k: nat, offset: nat, c: Context, x: Context)
    requires NamesFrame(p, link, k) && SameState(x, c)
    requires FrameIndex(p) < |p.steps| ==> Nonvolatile(p.fp)
    ensures EstablisherFrame(link.info, offset, x) == EstablisherFrame(link.info, offset, c)
  {
  }

  lemma UnwindReportsFrame(m: Memory, fn: RuntimeFunction, info: UnwindInfo, pc: int, ctx: Context, handlerType: nat)
    requires ReadUnwindInfo(m, fn.imageBase + fn.unwindInfo) == Some(info)
    requires VirtualUnwind(m, fn, pc, ctx, handlerType).result.Ok?
    ensures VirtualUnwind(m, fn, pc, ctx, handlerType).result.value.establisherFrame
         == EstablisherFrame(info, PrologOffset(fn, pc), ctx)
  {
    hide EstablisherFrame, PrologOffset, UnwindChain;
    ChainReportsFrame(m, fn, info, pc, EstablisherFrame(info, PrologOffset(fn, pc), ctx), Walk(ctx, false), MAX_CHAIN,
      handlerType);
  }

  lemma {:induction false} ChainReportsFrame(
    m: Memory, fn: RuntimeFunction, info: UnwindInfo, pc: int, frame: int, w: Walk, fuel: nat, handlerType: nat)
    ensures var r := UnwindChain(m, fn, info, pc, frame, w, fuel, handlerType).result;
            r.Ok? ==> r.value.establisherFrame == frame
    decreases fuel
  {
    hide UndoCodes, PrologOffset, ReadLink, UnwindLeaf, ShareBit;
    if fuel > 0 && info.Chained() {
      var (w', _) := UndoCodes(m, info, frame, info.codes, PrologOffset(fn, pc), w);
      var next := ReadLink(m, fn.imageBase, info.trailer);
      if next.Some? {
        ChainReportsFrame(m, next.value.0, next.value.1, pc, frame, w', fuel - 1, handlerType);
      }
    }
  }

  // One step of the walk on a well-formed stack, from any state that is the same to an unwind.
  lemma StepOnFunction(
    env: Env, m: Memory, a: Activation, c: Context, next: Context, x: Context, handlerType: nat)
    requires a.Function? && Linked(env, m, a, c, next, handlerType) && SameState(x, c)
    ensures var step := WalkOnce(env, m, x, handlerType);
            step.Yielded? && SameFrame(step.frame, FrameOf(a, c)) && SameState(step.ctx, next)
  {
    hide WellFormed, Home, ChainOf, NamesFrame, Intact, VirtualUnwind, EstablisherFrame, FindFunction, HandlerOf,
      PrologOffset, Depth, ReadUnwindInfo;
    IntactTransfers(a.p, a.k, a.entry, c, x, m);
    SameEstablisher(a.p, a.links[0], a.k, PrologOffset(a.links[0].fn, c.rip), c, x);
    VirtualUnwindRecovers(m, a.p, a.e, a.links, c.rip, a.k, a.entry, next.rip, next.gpr[RSP], x, handlerType);
    UnwindReportsFrame(m, a.links[0].fn, a.links[0].info, c.rip, x, handlerType);
  }

  lemma StepOnOther(env: Env, m: Memory, a: Activation, c: Context, next: Context, x: Context, handlerType: nat)
    requires !a.Function? && Linked(env, m, a, c, next, handlerType) && SameState(x, c)
    ensures var step := WalkOnce(env, m, x, handlerType); step.Moved? && SameState(step.ctx, next)
  {
    hide FindFunction, ReadContext, GuestCallbacks.Nearest, ReadU64;
  }

  lemma StackTail(env: Env, m: Memory, stack: seq<Activation>, cs: seq<Context>, handlerType: nat)
    requires StackOk(env, m, stack, cs, handlerType) && |stack| > 0
    ensures StackOk(env, m, stack[1..], cs[1..], handlerType)
    ensures Linked(env, m, stack[0], cs[0], cs[1], handlerType)
    ensures stack[0].Function? ==> |stack[0].links| > 0
  {
    hide InFrame, SameState, UnwindCallback, FindFunction, HandlerOf;
    assert Linked(env, m, stack[0], cs[0], cs[1], handlerType);
    if stack[0].Function? {
      HasLinks(env, m, stack[0], cs[0], cs[1], handlerType);
    }
  }

  lemma HasLinks(env: Env, m: Memory, a: Activation, c: Context, next: Context, handlerType: nat)
    requires a.Function? && Linked(env, m, a, c, next, handlerType)
    ensures |a.links| > 0
  {
  }

  lemma FirstFrame(stack: seq<Activation>, cs: seq<Context>)
    requires stack != [] && |cs| == |stack| + 1 && (stack[0].Function? ==> |stack[0].links| > 0)
    ensures FramesOf(stack, cs) ==
              (if stack[0].Function? then [FrameOf(stack[0], cs[0])] else []) + FramesOf(stack[1..], cs[1..])
  {
    hide FrameOf;
  }

  // The walk of a stack of any depth yields exactly its frames with unwind data, innermost first.
  lemma {:induction false} WalkFramesExact(
    env: Env, m: Memory, stack: seq<Activation>, cs: seq<Context>, x: Context, handlerType: nat, fuel: nat)
    requires |cs| == |stack| + 1 && StackOk(env, m, stack, cs, handlerType) && SameState(x, cs[0])
    requires |stack| <= fuel && (|stack| == fuel || AtEnd(cs[|stack|].rip))
    ensures var (ys, fault) := WalkFrames(env, m, x, handlerType, fuel);
            !fault && SameFrames(ys, FramesOf(stack, cs))
    decreases |stack|
  {
    hide WalkOnce, Linked, StackOk, SameState, AtEnd;
    if stack == [] {
      EndOfWalk(env, m, x, cs[0], handlerType);
    } else {
      StackTail(env, m, stack, cs, handlerType);
      if stack[0].Function? {
        StepOnFunction(env, m, stack[0], cs[0], cs[1], x, handlerType);
      } else {
        StepOnOther(env, m, stack[0], cs[0], cs[1], x, handlerType);
      }
      var step := WalkOnce(env, m, x, handlerType);
      WalkFramesExact(env, m, stack[1..], cs[1..], step.ctx, handlerType, fuel - 1);
    }
  }

  lemma EndOfWalk(env: Env, m: Memory, x: Context, c: Context, handlerType: nat)
    requires SameState(x, c)
    ensures AtEnd(c.rip) ==> WalkOnce(env, m, x, handlerType) == Ended
  {
    hide FindFunction;
  }

  // -- Phase two: unwinding to a target frame

  // What guest call n does to memory.
  type Guest = (nat, Memory) -> Memory

  // The flags of an EXCEPTION_RECORD for an unwind
  datatype Flags = Flags(unwinding: bool, exitUnwind: bool, targetUnwind: bool)

  // flags is what the record of the caller has.
  function UnwindFlags(flags: Flags, target: int, isTarget: bool): Flags {
    Flags(true, flags.exitUnwind || target == 0, flags.targetUnwind || isTarget)
  }

  // A DISPATCHER_CONTEXT. The scope index is where the language handler starts.
  datatype Dispatcher = Dispatcher(
    controlPc: int, imageBase: int, functionEntry: int, establisherFrame: int, targetIp: int, handler: int,
    handlerData: int, scopeIndex: nat)

  function DispatcherOf(f: Frame, targetIp: int): Dispatcher {
    Dispatcher(f.ctx.rip, f.fn.imageBase, f.fn.address, f.info.establisherFrame, targetIp, f.info.handler,
               f.info.handlerData, 0)
  }

  // A call of a language handler: what its arguments point at, and the memory that the guest gets.
  datatype HandlerCall = HandlerCall(flags: Flags, dispatcher: Dispatcher, context: Context, at: Memory)

  datatype UnwindResult = Resumed(ctx: Context) | InvalidTarget | ReadFailed

  function ResumeAt(ctx: Context, ip: int, value: int): Context {
    SetGpr(ctx, RAX, Wrap64(value)).(rip := Wrap64(ip))
  }

  // The arguments of RtlUnwindEx, and the flags of the record that it gets
  datatype Request = Request(target: int, ip: int, value: int, flags: Flags)

  function HandlerCalls(f: Frame, r: Request, m: Memory): seq<HandlerCall> {
    if f.info.handler == 0 then []
    else
      [HandlerCall(
        UnwindFlags(r.flags, r.target, f.info.establisherFrame == r.target), DispatcherOf(f, r.ip), f.ctx, m)]
  }

  // n counts the guest calls made so far.
  function UnwindTo(env: Env, guest: Guest, m: Memory, ctx: Context, r: Request, fuel: nat, n: nat)
    : (seq<HandlerCall>, UnwindResult)
    decreases fuel, n
  {
    if fuel == 0 then ([], InvalidTarget)
    else
      match WalkOnce(env, m, ctx, UNW_FLAG_UHANDLER)
      case Ended => ([], InvalidTarget)
      case Faulted => ([], ReadFailed)
      case Moved(c) => UnwindTo(env, guest, m, c, r, fuel - 1, n)
      case Yielded(f, c) =>
        var calls := HandlerCalls(f, r, m);
        if f.info.establisherFrame == r.target then (calls, Resumed(ResumeAt(f.ctx, r.ip, r.value)))
        else
          var m' := if calls == [] then m else guest(n, m);
          var (rest, result) := UnwindTo(env, guest, m', c, r, fuel - 1, n + |calls|);
          (calls + rest, result)
  }

  // The frames that have a handler
  function Handled(fs: seq<Frame>): seq<Frame> {
    if fs == [] then [] else (if fs[0].info.handler == 0 then [] else [fs[0]]) + Handled(fs[1..])
  }

  // The call of the handler of a frame
  ghost predicate CallMade(inv: Memory -> bool, r: Request, call: HandlerCall, f: Frame) {
    && call.flags == UnwindFlags(r.flags, r.target, f.info.establisherFrame == r.target)
    && call.dispatcher == DispatcherOf(f, r.ip) && SameState(call.context, f.ctx) && inv(call.at)
  }

  ghost predicate CallsMade(inv: Memory -> bool, r: Request, calls: seq<HandlerCall>, fs: seq<Frame>) {
    |calls| == |fs| && forall i :: 0 <= i < |calls| ==> CallMade(inv, r, calls[i], fs[i])
  }

  // The first frame from i on that is the target.
  function TargetIndex(fs: seq<Frame>, target: int): (t: nat)
    ensures t <= |fs|
    ensures t < |fs| ==> fs[t].info.establisherFrame == target
    ensures forall j :: 0 <= j < t ==> fs[j].info.establisherFrame != target
  {
    if fs == [] || fs[0].info.establisherFrame == target then 0 else 1 + TargetIndex(fs[1..], target)
  }

  // Guest calls keep the frames of the stack: inv holds of memory throughout, and implies that they are intact.
  ghost predicate StackKept(
    env: Env, guest: Guest, inv: Memory -> bool, stack: seq<Activation>, cs: seq<Context>, handlerType: nat)
  {
    && (forall m :: inv(m) ==> StackOk(env, m, stack, cs, handlerType))
    && (forall n, m :: inv(m) ==> inv(guest(n, m)))
  }

  // The frames up to the target, or all of them
  function UpToTarget(fs: seq<Frame>, target: int): seq<Frame> {
    var t := TargetIndex(fs, target);
    if t < |fs| then fs[..t + 1] else fs
  }

  // What the unwind must do: one call for each handler up to the target, then resume in the target frame.
  ghost predicate UnwindsFrames(
    inv: Memory -> bool, fs: seq<Frame>, r: Request, calls: seq<HandlerCall>, result: UnwindResult)
  {
    var t := TargetIndex(fs, r.target);
    && CallsMade(inv, r, calls, Handled(UpToTarget(fs, r.target)))
    && if t < |fs| then
         result.Resumed? && exists x :: SameState(x, fs[t].ctx) && result.ctx == ResumeAt(x, r.ip, r.value)
       else result == InvalidTarget
  }

  lemma UnwindsHere(inv: Memory -> bool, y: Frame, f: Frame, rest: seq<Frame>, r: Request, m: Memory)
    requires f.info.establisherFrame == r.target && SameFrame(y, f) && inv(m)
    ensures UnwindsFrames(inv, [f] + rest, r, HandlerCalls(y, r, m), Resumed(ResumeAt(y.ctx, r.ip, r.value)))
  {
    SameCalls(inv, y, f, r, m);
    hide SameState, ResumeAt, HandlerCalls, CallsMade;
    var fs := [f] + rest;
    assert TargetIndex(fs, r.target) == 0;
    assert UpToTarget(fs, r.target) == [f];
  }

  lemma UnwindsOn(
    inv: Memory -> bool, y: Frame, f: Frame, rest: seq<Frame>, r: Request, m: Memory, calls: seq<HandlerCall>,
    result: UnwindResult)
    requires f.info.establisherFrame != r.target && SameFrame(y, f) && inv(m)
    requires UnwindsFrames(inv, rest, r, calls, result)
    ensures UnwindsFrames(inv, [f] + rest, r, HandlerCalls(y, r, m) + calls, result)
  {
    SameCalls(inv, y, f, r, m);
    var fs, t := [f] + rest, TargetIndex(rest, r.target);
    assert fs[1..] == rest;
    hide SameState, ResumeAt, HandlerCalls, CallsMade;
    var up := UpToTarget(fs, r.target);
    assert up == [f] + UpToTarget(rest, r.target);
    assert Handled(up) == Handled([f]) + Handled(UpToTarget(rest, r.target)) by {
      assert up[1..] == UpToTarget(rest, r.target);
      assert Handled([f]) == if f.info.handler == 0 then [] else [f];
    }
    CallsJoin(inv, r, HandlerCalls(y, r, m), calls, Handled([f]), Handled(UpToTarget(rest, r.target)));
  }

  lemma CallsJoin(
    inv: Memory -> bool, r: Request, calls: seq<HandlerCall>, calls': seq<HandlerCall>, fs: seq<Frame>, fs': seq<Frame>)
    requires CallsMade(inv, r, calls, fs) && CallsMade(inv, r, calls', fs')
    ensures CallsMade(inv, r, calls + calls', fs + fs')
  {
    hide CallMade;
  }

  lemma SameCalls(inv: Memory -> bool, y: Frame, f: Frame, r: Request, m: Memory)
    requires SameFrame(y, f) && inv(m)
    ensures CallsMade(inv, r, HandlerCalls(y, r, m), Handled([f]))
    ensures y.info == f.info && SameState(y.ctx, f.ctx)
    ensures HandlerCalls(y, r, m) == [] <==> f.info.handler == 0
  {
  }

  // RtlUnwindEx on a stack of any depth.
  lemma {:induction false} UnwindToExact(
    env: Env, guest: Guest, inv: Memory -> bool, m: Memory, stack: seq<Activation>, cs: seq<Context>, x: Context,
    r: Request, fuel: nat, n: nat)
    requires inv(m) && StackKept(env, guest, inv, stack, cs, UNW_FLAG_UHANDLER) && |cs| == |stack| + 1
    requires SameState(x, cs[0]) && |stack| <= fuel && (|stack| == fuel || AtEnd(cs[|stack|].rip))
    ensures var (calls, result) := UnwindTo(env, guest, m, x, r, fuel, n);
            UnwindsFrames(inv, FramesOf(stack, cs), r, calls, result)
    decreases |stack|
  {
    hide WalkOnce, Linked, StackOk, SameState, AtEnd, ResumeAt, FrameOf, HandlerCalls, CallsMade, UnwindTo,
      UnwindsFrames, SameFrame, FramesOf;
    if stack == [] {
      NoUnwind(env, guest, inv, m, cs, x, r, fuel, n);
    } else {
      KeptTail(env, guest, inv, stack, cs, UNW_FLAG_UHANDLER);
      KeptHere(env, guest, inv, stack, cs, UNW_FLAG_UHANDLER, m, n);
      hide StackKept;
      StackTail(env, m, stack, cs, UNW_FLAG_UHANDLER);
      FirstFrame(stack, cs);
      var rest := FramesOf(stack[1..], cs[1..]);
      if stack[0].Function? {
        StepOnFunction(env, m, stack[0], cs[0], cs[1], x, UNW_FLAG_UHANDLER);
        var step, f := WalkOnce(env, m, x, UNW_FLAG_UHANDLER), FrameOf(stack[0], cs[0]);
        UnwindFrame(env, guest, m, x, r, fuel, n);
        var calls := HandlerCalls(step.frame, r, m);
        SameCalls(inv, step.frame, f, r, m);
        if f.info.establisherFrame == r.target {
          UnwindsHere(inv, step.frame, f, rest, r, m);
        } else {
          var m' := if calls == [] then m else guest(n, m);
          UnwindToExact(env, guest, inv, m', stack[1..], cs[1..], step.ctx, r, fuel - 1, n + |calls|);
          var (calls', result) := UnwindTo(env, guest, m', step.ctx, r, fuel - 1, n + |calls|);
          UnwindsOn(inv, step.frame, f, rest, r, m, calls', result);
        }
      } else {
        StepOnOther(env, m, stack[0], cs[0], cs[1], x, UNW_FLAG_UHANDLER);
        var step := WalkOnce(env, m, x, UNW_FLAG_UHANDLER);
        assert [] + rest == rest;
        UnwindMoved(env, guest, m, x, r, fuel, n);
        UnwindToExact(env, guest, inv, m, stack[1..], cs[1..], step.ctx, r, fuel - 1, n);
      }
    }
  }

  // A step of the unwind without a frame
  lemma UnwindMoved(env: Env, guest: Guest, m: Memory, x: Context, r: Request, fuel: nat, n: nat)
    requires fuel > 0 && WalkOnce(env, m, x, UNW_FLAG_UHANDLER).Moved?
    ensures UnwindTo(env, guest, m, x, r, fuel, n)
         == UnwindTo(env, guest, m, WalkOnce(env, m, x, UNW_FLAG_UHANDLER).ctx, r, fuel - 1, n)
  {
    hide WalkOnce;
  }

  lemma NoUnwind(
    env: Env, guest: Guest, inv: Memory -> bool, m: Memory, cs: seq<Context>, x: Context, r: Request, fuel: nat, n: nat)
    requires |cs| == 1 && SameState(x, cs[0]) && (fuel == 0 || AtEnd(cs[0].rip))
    ensures var (calls, result) := UnwindTo(env, guest, m, x, r, fuel, n);
            UnwindsFrames(inv, FramesOf([], cs), r, calls, result)
  {
    hide WalkOnce, AtEnd;
    EndOfWalk(env, m, x, cs[0], UNW_FLAG_UHANDLER);
    NoCalls(inv, r);
  }

  // A frame on the way of the unwind
  lemma UnwindFrame(env: Env, guest: Guest, m: Memory, x: Context, r: Request, fuel: nat, n: nat)
    requires fuel > 0 && WalkOnce(env, m, x, UNW_FLAG_UHANDLER).Yielded?
    ensures var step := WalkOnce(env, m, x, UNW_FLAG_UHANDLER);
            var calls := HandlerCalls(step.frame, r, m);
            UnwindTo(env, guest, m, x, r, fuel, n) ==
              if step.frame.info.establisherFrame == r.target then
                (calls, Resumed(ResumeAt(step.frame.ctx, r.ip, r.value)))
              else
                var m' := if calls == [] then m else guest(n, m);
                var (rest, result) := UnwindTo(env, guest, m', step.ctx, r, fuel - 1, n + |calls|);
                (calls + rest, result)
  {
    hide WalkOnce, HandlerCalls, ResumeAt;
  }

  lemma NoCalls(inv: Memory -> bool, r: Request)
    ensures CallsMade(inv, r, [], [])
  {
  }

  // Each handler gets the memory that the handler before it left.
  ghost predicate Follows(guest: Guest, m: Memory, calls: seq<HandlerCall>, n: nat)
    decreases |calls|
  {
    calls == [] || (calls[0].at == m && Follows(guest, guest(n, m), calls[1..], n + 1))
  }

  lemma {:induction false} UnwindToFollows(
    env: Env, guest: Guest, m: Memory, ctx: Context, r: Request, fuel: nat, n: nat)
    ensures Follows(guest, m, UnwindTo(env, guest, m, ctx, r, fuel, n).0, n)
    decreases fuel
  {
    hide WalkOnce, ResumeAt;
    if fuel > 0 {
      match WalkOnce(env, m, ctx, UNW_FLAG_UHANDLER) {
        case Moved(c) => UnwindToFollows(env, guest, m, c, r, fuel - 1, n);
        case Yielded(f, c) =>
          var calls := HandlerCalls(f, r, m);
          var m' := if calls == [] then m else guest(n, m);
          UnwindToFollows(env, guest, m', c, r, fuel - 1, n + |calls|);
          assert calls != [] ==> (calls + UnwindTo(env, guest, m', c, r, fuel - 1, n + |calls|).0)[1..]
                                 == UnwindTo(env, guest, m', c, r, fuel - 1, n + |calls|).0;
          assert calls == [] ==> calls + UnwindTo(env, guest, m', c, r, fuel - 1, n).0
                                 == UnwindTo(env, guest, m', c, r, fuel - 1, n).0;
        case _ =>
      }
    }
  }

  lemma KeptTail(
    env: Env, guest: Guest, inv: Memory -> bool, stack: seq<Activation>, cs: seq<Context>, handlerType: nat)
    requires StackKept(env, guest, inv, stack, cs, handlerType) && |stack| > 0 && |cs| == |stack| + 1
    ensures StackKept(env, guest, inv, stack[1..], cs[1..], handlerType)
  {
    hide StackOk;
    forall m | inv(m) ensures StackOk(env, m, stack[1..], cs[1..], handlerType) {
      StackTail(env, m, stack, cs, handlerType);
    }
  }

  // -- Phase one: the search for a handler that takes the exception

  const CONTINUE_EXECUTION: int := 0

  datatype SearchResult = Accepted | Declined | SearchFailed

  // A call of a language handler in the search
  function SearchCalls(f: Frame): seq<Dispatcher> {
    if f.info.handler == 0 then [] else [DispatcherOf(f, 0)]
  }

  function SearchCallsOf(fs: seq<Frame>): seq<Dispatcher> {
    if fs == [] then [] else SearchCalls(fs[0]) + SearchCallsOf(fs[1..])
  }

  // verdict is the disposition that guest call n returns.
  function SearchFrames(
    env: Env, guest: Guest, verdict: nat -> int, m: Memory, ctx: Context, fuel: nat, n: nat)
    : (seq<Dispatcher>, SearchResult)
    decreases fuel, n
  {
    if fuel == 0 then ([], Declined)
    else
      match WalkOnce(env, m, ctx, UNW_FLAG_EHANDLER)
      case Ended => ([], Declined)
      case Faulted => ([], SearchFailed)
      case Moved(c) => SearchFrames(env, guest, verdict, m, c, fuel - 1, n)
      case Yielded(f, c) =>
        var calls := SearchCalls(f);
        if calls == [] then SearchFrames(env, guest, verdict, m, c, fuel - 1, n)
        else if verdict(n) == CONTINUE_EXECUTION then (calls, Accepted)
        else
          var (rest, result) := SearchFrames(env, guest, verdict, guest(n, m), c, fuel - 1, n + 1);
          (calls + rest, result)
  }

  lemma SameSearch(y: Frame, f: Frame)
    requires SameFrame(y, f)
    ensures SearchCalls(y) == SearchCalls(f)
  {
  }

  // The handlers are called in order, up to the first that takes the exception.
  ghost predicate SearchesCalls(
    all: seq<Dispatcher>, verdict: nat -> int, n: nat, calls: seq<Dispatcher>, result: SearchResult) {
    && calls <= all
    && (forall j :: n <= j < n + |calls| - 1 ==> verdict(j) != CONTINUE_EXECUTION)
    && match result
       case Accepted => calls != [] && verdict(n + |calls| - 1) == CONTINUE_EXECUTION
       case Declined => calls == all && (calls != [] ==> verdict(n + |calls| - 1) != CONTINUE_EXECUTION)
       case SearchFailed => false
  }

  lemma SearchesOn(
    call: seq<Dispatcher>, all: seq<Dispatcher>, verdict: nat -> int, n: nat, calls: seq<Dispatcher>,
    result: SearchResult)
    requires |call| == 1 && verdict(n) != CONTINUE_EXECUTION && SearchesCalls(all, verdict, n + 1, calls, result)
    ensures SearchesCalls(call + all, verdict, n, call + calls, result)
  {
  }

  // A frame on the way of the search
  lemma SearchFrame(env: Env, guest: Guest, verdict: nat -> int, m: Memory, x: Context, fuel: nat, n: nat)
    requires fuel > 0 && WalkOnce(env, m, x, UNW_FLAG_EHANDLER).Yielded?
    ensures var step := WalkOnce(env, m, x, UNW_FLAG_EHANDLER);
            var calls := SearchCalls(step.frame);
            && |calls| <= 1
            && SearchFrames(env, guest, verdict, m, x, fuel, n) ==
                 if calls == [] then SearchFrames(env, guest, verdict, m, step.ctx, fuel - 1, n)
                 else if verdict(n) == CONTINUE_EXECUTION then (calls, Accepted)
                 else
                   var (rest, result) := SearchFrames(env, guest, verdict, guest(n, m), step.ctx, fuel - 1, n + 1);
                   (calls + rest, result)
  {
    hide WalkOnce;
  }

  lemma {:induction false} SearchExact(
    env: Env, guest: Guest, verdict: nat -> int, inv: Memory -> bool, m: Memory, stack: seq<Activation>,
    cs: seq<Context>, x: Context, fuel: nat, n: nat)
    requires inv(m) && StackKept(env, guest, inv, stack, cs, UNW_FLAG_EHANDLER) && |cs| == |stack| + 1
    requires SameState(x, cs[0]) && |stack| <= fuel && (|stack| == fuel || AtEnd(cs[|stack|].rip))
    ensures var (calls, result) := SearchFrames(env, guest, verdict, m, x, fuel, n);
            SearchesCalls(SearchCallsOf(FramesOf(stack, cs)), verdict, n, calls, result)
    decreases |stack|
  {
    hide WalkOnce, Linked, StackOk, SameState, AtEnd, FrameOf, SearchesCalls, StackKept, FramesOf, SearchFrames,
      SearchCalls, SearchCallsOf, SameFrame;
    if stack == [] {
      NoSearch(env, guest, verdict, m, cs, x, fuel, n);
    } else {
      KeptTail(env, guest, inv, stack, cs, UNW_FLAG_EHANDLER);
      KeptHere(env, guest, inv, stack, cs, UNW_FLAG_EHANDLER, m, n);
      StackTail(env, m, stack, cs, UNW_FLAG_EHANDLER);
      FirstFrame(stack, cs);
      var rest := FramesOf(stack[1..], cs[1..]);
      if !stack[0].Function? {
        assert [] + rest == rest;
        StepOnOther(env, m, stack[0], cs[0], cs[1], x, UNW_FLAG_EHANDLER);
        SearchMoved(env, guest, verdict, m, x, fuel, n);
        var step := WalkOnce(env, m, x, UNW_FLAG_EHANDLER);
        SearchExact(env, guest, verdict, inv, m, stack[1..], cs[1..], step.ctx, fuel - 1, n);
      } else {
        StepOnFunction(env, m, stack[0], cs[0], cs[1], x, UNW_FLAG_EHANDLER);
        var step, f := WalkOnce(env, m, x, UNW_FLAG_EHANDLER), FrameOf(stack[0], cs[0]);
        SameSearch(step.frame, f);
        FirstSearched(f, rest);
        var all := SearchCallsOf(rest);
        if SearchCalls(f) == [] {
          SearchExact(env, guest, verdict, inv, m, stack[1..], cs[1..], step.ctx, fuel - 1, n);
        } else if verdict(n) != CONTINUE_EXECUTION {
          SearchExact(env, guest, verdict, inv, guest(n, m), stack[1..], cs[1..], step.ctx, fuel - 1, n + 1);
        }
        FrameSearched(env, guest, verdict, m, x, all, fuel, n);
      }
    }
  }

  lemma SearchMoved(env: Env, guest: Guest, verdict: nat -> int, m: Memory, x: Context, fuel: nat, n: nat)
    requires fuel > 0 && WalkOnce(env, m, x, UNW_FLAG_EHANDLER).Moved?
    ensures SearchFrames(env, guest, verdict, m, x, fuel, n)
         == SearchFrames(env, guest, verdict, m, WalkOnce(env, m, x, UNW_FLAG_EHANDLER).ctx, fuel - 1, n)
  {
    hide WalkOnce;
  }

  lemma NoSearch(
    env: Env, guest: Guest, verdict: nat -> int, m: Memory, cs: seq<Context>, x: Context, fuel: nat, n: nat)
    requires |cs| == 1 && SameState(x, cs[0]) && (fuel == 0 || AtEnd(cs[0].rip))
    ensures var (calls, result) := SearchFrames(env, guest, verdict, m, x, fuel, n);
            SearchesCalls(SearchCallsOf(FramesOf([], cs)), verdict, n, calls, result)
  {
    hide WalkOnce, AtEnd;
    EndOfWalk(env, m, x, cs[0], UNW_FLAG_EHANDLER);
    SearchesNothing(verdict, n);
  }

  lemma FirstSearched(f: Frame, fs: seq<Frame>)
    ensures SearchCallsOf([f] + fs) == SearchCalls(f) + SearchCallsOf(fs)
  {
    hide SearchCalls;
    assert ([f] + fs)[1..] == fs;
  }

  lemma FrameSearched(
    env: Env, guest: Guest, verdict: nat -> int, m: Memory, x: Context, all: seq<Dispatcher>, fuel: nat, n: nat)
    requires fuel > 0 && WalkOnce(env, m, x, UNW_FLAG_EHANDLER).Yielded?
    requires var step := WalkOnce(env, m, x, UNW_FLAG_EHANDLER);
             var (calls, result) := SearchFrames(env, guest, verdict, m, step.ctx, fuel - 1, n);
             SearchCalls(step.frame) == [] ==> SearchesCalls(all, verdict, n, calls, result)
    requires var step := WalkOnce(env, m, x, UNW_FLAG_EHANDLER);
             var (calls, result) := SearchFrames(env, guest, verdict, guest(n, m), step.ctx, fuel - 1, n + 1);
             SearchCalls(step.frame) != [] && verdict(n) != CONTINUE_EXECUTION ==>
               SearchesCalls(all, verdict, n + 1, calls, result)
    ensures var (calls, result) := SearchFrames(env, guest, verdict, m, x, fuel, n);
            SearchesCalls(SearchCalls(WalkOnce(env, m, x, UNW_FLAG_EHANDLER).frame) + all, verdict, n, calls, result)
  {
    SearchFrame(env, guest, verdict, m, x, fuel, n);
    hide SearchFrames, SearchesCalls, SearchCalls, WalkOnce;
    var step := WalkOnce(env, m, x, UNW_FLAG_EHANDLER);
    var here := SearchCalls(step.frame);
    if here == [] {
      assert here + all == all;
    } else if verdict(n) != CONTINUE_EXECUTION {
      var (calls, result) := SearchFrames(env, guest, verdict, guest(n, m), step.ctx, fuel - 1, n + 1);
      SearchesOn(here, all, verdict, n, calls, result);
    } else {
      SearchEnds(here, all, verdict, n);
    }
  }

  lemma KeptHere(
    env: Env, guest: Guest, inv: Memory -> bool, stack: seq<Activation>, cs: seq<Context>, handlerType: nat, m: Memory,
    n: nat)
    requires StackKept(env, guest, inv, stack, cs, handlerType) && inv(m)
    ensures StackOk(env, m, stack, cs, handlerType) && inv(guest(n, m))
  {
    hide StackOk;
  }

  lemma SearchesNothing(verdict: nat -> int, n: nat)
    ensures SearchesCalls([], verdict, n, [], Declined)
  {
  }

  lemma SearchEnds(call: seq<Dispatcher>, all: seq<Dispatcher>, verdict: nat -> int, n: nat)
    requires |call| == 1 && verdict(n) == CONTINUE_EXECUTION
    ensures SearchesCalls(call + all, verdict, n, call, Accepted)
  {
  }

  // -- The same in place, as the generators do it

  method FindEntry(env: Env, m: Memory, pc: int) returns (found: Result<Option<RuntimeFunction>, ReadError>)
    ensures found == FindFunction(env, m, pc)
  {
    hide BisectLookup, LinearLookup, SortedImage, SearchPages;
    found := Ok(None);
    var image := ModuleAt(env.modules, pc);
    if image.Some? {
      found := LookupFunctionEntry(m, image.value.base, pc);
    }
    if found != Ok(None) {
      return;
    }
    var i := 0;
    while i < |env.tables|
      invariant i <= |env.tables| && TableAt(env.tables, pc) == TableAt(env.tables[i..], pc)
    {
      var t := env.tables[i];
      assert env.tables[i..][1..] == env.tables[i + 1..];
      if t.begin <= pc < t.end && t.callback == 0 {
        ghost var rows;
        found, rows := SearchFunctionTable(m, t.identifier, t.count, t.base, pc);
        return;
      }
      i := i + 1;
    }
  }

  method StepInPlace(env: Env, m: Memory, ctx: Context64, handlerType: nat) returns (step: WalkStep)
    requires ctx.Valid()
    modifies ctx
    ensures ctx.Valid() && step == WalkOnce(env, m, old(ctx.Value()), handlerType)
    ensures step.Moved? || step.Yielded? ==> ctx.Value() == step.ctx
  {
    hide FindFunction, VirtualUnwind, UnwindCallback, UnwindLeaf;
    var frameCtx := ctx.Value();
    var pc := ctx.rip;
    if pc == GUEST_CALLBACK_RETURN_ADDR {
      var c := UnwindCallback(env, m, frameCtx);
      if c.None? {
        return Faulted;
      }
      ctx.gpr, ctx.xmm, ctx.rip := c.value.gpr, c.value.xmm, c.value.rip;
      return Moved(c.value);
    }
    if AtEnd(pc) {
      return Ended;
    }
    var found := FindEntry(env, m, pc);
    if found.Err? {
      return Ended;
    }
    if found.value.None? {
      var ok := ctx.Leaf(m);
      return if ok then Moved(ctx.Value()) else Ended;
    }
    var info := ctx.UnwindFrame(m, found.value.value, pc, handlerType);
    return if info.Err? then Ended else Yielded(Frame(frameCtx, found.value.value, info.value), ctx.Value());
  }

  method UnwindInPlace(env: Env, guest: Guest, m0: Memory, ctx: Context64, r: Request, limit: nat)
    returns (calls: seq<HandlerCall>, result: UnwindResult)
    requires ctx.Valid()
    modifies ctx
    ensures ctx.Valid()
    ensures (calls, result) == UnwindTo(env, guest, m0, old(ctx.Value()), r, limit, 0)
  {
    hide WalkOnce, ResumeAt, DispatcherOf;
    var m, steps, flags := m0, 0, Flags(true, r.flags.exitUnwind || r.target == 0, r.flags.targetUnwind);
    calls := [];
    ghost var all := UnwindTo(env, guest, m, ctx.Value(), r, limit, 0);
    assert [] + all.0 == all.0;
    while steps < limit
      invariant ctx.Valid() && steps <= limit && flags == UnwindFlags(r.flags, r.target, false)
      invariant var rest := UnwindTo(env, guest, m, ctx.Value(), r, limit - steps, |calls|);
                all == (calls + rest.0, rest.1)
    {
      ghost var before, left := calls, UnwindTo(env, guest, m, ctx.Value(), r, limit - steps, |calls|);
      var step := StepInPlace(env, m, ctx, UNW_FLAG_UHANDLER);
      steps := steps + 1;
      match step {
        case Ended => assert calls + [] == calls; return calls, InvalidTarget;
        case Faulted => assert calls + [] == calls; return calls, ReadFailed;
        case Moved(_) =>
        case Yielded(f, _) =>
          var isTarget := f.info.establisherFrame == r.target;
          if f.info.handler != 0 {
            if isTarget {
              flags := flags.(targetUnwind := true);
            }
            calls := calls + [HandlerCall(flags, DispatcherOf(f, r.ip), f.ctx, m)];
          }
          assert calls == before + HandlerCalls(f, r, m);
          if isTarget {
            return calls, Resumed(ResumeAt(f.ctx, r.ip, r.value));
          }
          ghost var here := HandlerCalls(f, r, m);
          if f.info.handler != 0 {
            m := guest(|calls| - 1, m);
          }
          ghost var rest := UnwindTo(env, guest, m, ctx.Value(), r, limit - steps, |calls|);
          assert left == (here + rest.0, rest.1);
          Regroup(before, here, rest.0);
      }
    }
    assert calls + [] == calls;
    return calls, InvalidTarget;
  }
}
