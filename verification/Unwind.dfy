// speakeasy/windows/unwind.py: UNWIND_INFO and RtlVirtualUnwind.
//
// The functions give the meaning of each routine on values. The class Context64 and its methods
// do the same work in place, as the emulator does, and are proved equal to the functions.

module Unwind {
  import opened Options
  import opened Bytes
  import opened Sequences

  type u64 = x: int | 0 <= x < W64
  type nibble = x: int | 0 <= x < 16

  const UNW_FLAG_EHANDLER: nat := 1
  const UNW_FLAG_UHANDLER: nat := 2

  const UWOP_PUSH_NONVOL: nat := 0
  const UWOP_ALLOC_LARGE: nat := 1
  const UWOP_ALLOC_SMALL: nat := 2
  const UWOP_SET_FPREG: nat := 3
  const UWOP_SAVE_NONVOL: nat := 4
  const UWOP_SAVE_NONVOL_FAR: nat := 5
  const UWOP_SAVE_XMM128: nat := 8
  const UWOP_SAVE_XMM128_FAR: nat := 9
  const UWOP_PUSH_MACHFRAME: nat := 10

  const MAX_CHAIN: nat := 32

  // Register numbers of an UNWIND_CODE
  const RAX: nibble := 0
  const RSP: nibble := 4

  datatype Xmm = Xmm(low: u64, high: u64)

  datatype Registers = Registers(gpr: seq<u64>, xmm: seq<Xmm>, rip: u64)

  type Context = c: Registers | |c.gpr| == 16 && |c.xmm| == 16
    witness Registers(seq(16, _ => 0), seq(16, _ => Xmm(0, 0)), 0)

  // A CONTEXT64 field keeps the low 64 bits of what is stored in it.
  function Wrap64(x: int): (r: u64)
    ensures 0 <= x < W64 ==> r == x
  {
    x % W64
  }

  function SetGpr(c: Context, r: nibble, v: u64): Context {
    c.(gpr := c.gpr[r := v])
  }

  function AddRsp(c: Context, n: int): Context {
    SetGpr(c, RSP, Wrap64(c.gpr[RSP] + n))
  }

  datatype RuntimeFunction = RuntimeFunction(imageBase: int, address: int, begin: nat, end: nat, unwindInfo: nat)

  datatype FrameInfo = FrameInfo(establisherFrame: int, handler: int, handlerData: int)

  datatype UnwindCode = UnwindCode(prologOffset: byte, op: nibble, info: nibble, operand: nat)

  datatype UnwindInfo = UnwindInfo(
    flags: nat, prologSize: byte, frameReg: nibble, frameOffset: nibble, codes: seq<UnwindCode>, trailer: int)
  {
    predicate Chained() {
      flags / 4 % 2 == 1
    }
  }

  datatype UnwindError = ReadFault | ChainTooLong

  // The context after an unwind, also after one that failed on the way.
  datatype Unwound = Unwound(ctx: Context, result: Result<FrameInfo, UnwindError>)

  // a & b != 0
  predicate ShareBit(a: nat, b: nat) {
    a > 0 && b > 0 && (a % 2 == 1 == b % 2 || ShareBit(a / 2, b / 2))
  }

  function ReadRuntimeFunction(m: Memory, imageBase: int, address: int): Option<RuntimeFunction> {
    var begin :- ReadU32(m, address);
    var end :- ReadU32(m, address + 4);
    var unwindInfo :- ReadU32(m, address + 8);
    Some(RuntimeFunction(imageBase, address, begin, end, unwindInfo))
  }

  // -- Unwind codes as 16-bit slots

  function Slots(op: nibble, info: nibble): (n: nat)
    ensures 1 <= n <= 3
  {
    if op == UWOP_ALLOC_LARGE then if info != 0 then 3 else 2
    else if op == UWOP_SAVE_NONVOL || op == UWOP_SAVE_XMM128 then 2
    else if op == UWOP_SAVE_NONVOL_FAR || op == UWOP_SAVE_XMM128_FAR then 3
    else 1
  }

  // The code at slot i. Slots past the end of the array read as nothing.
  function CodeAt(raw: seq<byte>, i: nat): UnwindCode
    requires 2 * i + 2 <= |raw|
  {
    var op, info := raw[2 * i + 1] % 16, raw[2 * i + 1] / 16;
    var end := 2 * (i + Slots(op, info));
    UnwindCode(raw[2 * i], op, info, FromLE(raw[2 * i + 2..if end <= |raw| then end else |raw|]))
  }

  function DecodeCodes(raw: seq<byte>, i: nat): seq<UnwindCode>
    decreases |raw| - 2 * i
  {
    if 2 * i + 2 > |raw| then []
    else var c := CodeAt(raw, i); [c] + DecodeCodes(raw, i + Slots(c.op, c.info))
  }

  // The four header bytes and the code array.
  function ReadRaw(m: Memory, address: int): (r: Option<(seq<byte>, seq<byte>)>)
    ensures r.Some? ==> |r.value.0| == 4 && |r.value.1| == 2 * (r.value.0[2] as int)
  {
    var head :- Read(m, address, 4);
    var count: nat := head[2];
    var raw :- Read(m, address + 4, 2 * count);
    Some((head, raw))
  }

  function InfoOf(address: int, head: seq<byte>, codes: seq<UnwindCode>): UnwindInfo
    requires |head| == 4
  {
    UnwindInfo(head[0] / 8, head[1], head[3] % 16, head[3] / 16, codes, TrailerOf(address, head[2]))
  }

  function ReadUnwindInfo(m: Memory, address: int): Option<UnwindInfo> {
    var raw :- ReadRaw(m, address);
    Some(InfoOf(address, raw.0, DecodeCodes(raw.1, 0)))
  }

  // The code array has an even number of slots.
  function TrailerOf(address: int, count: nat): int {
    address + 4 + 2 * (count + count % 2)
  }

  method DecodeLoop(raw: seq<byte>, count: nat) returns (codes: seq<UnwindCode>)
    requires |raw| == 2 * count
    ensures codes == DecodeCodes(raw, 0)
  {
    hide CodeAt, Slots;
    codes := [];
    var i := 0;
    while i < count
      invariant DecodeCodes(raw, 0) == codes + DecodeCodes(raw, i)
    {
      ghost var before := codes;
      var c := CodeAt(raw, i);
      codes := codes + [c];
      i := i + Slots(c.op, c.info);
      Regroup(before, [c], DecodeCodes(raw, i));
    }
    assert codes + [] == codes;
  }

  method ReadInfo(m: Memory, address: int) returns (r: Option<UnwindInfo>)
    ensures r == ReadUnwindInfo(m, address)
  {
    var raw := ReadRaw(m, address);
    if raw.None? {
      return None;
    }
    var codes := DecodeLoop(raw.value.1, raw.value.0[2]);
    return Some(InfoOf(address, raw.value.0, codes));
  }

  // -- The encoder of the format, to prove the decoder against

  predicate Encodable(c: UnwindCode) {
    c.operand < Pow256(2 * (Slots(c.op, c.info) - 1))
  }

  function EncodeCode(c: UnwindCode): (s: seq<byte>)
    ensures |s| == 2 * Slots(c.op, c.info)
  {
    [c.prologOffset, c.op + 16 * c.info] + ToLE(c.operand, 2 * (Slots(c.op, c.info) - 1))
  }

  function EncodeCodes(codes: seq<UnwindCode>): (s: seq<byte>)
    ensures |s| % 2 == 0
  {
    if codes == [] then [] else EncodeCode(codes[0]) + EncodeCodes(codes[1..])
  }

  function EncodeInfo(info: UnwindInfo): seq<byte>
    requires info.flags < 32 && |EncodeCodes(info.codes)| / 2 < 256
  {
    var codes := EncodeCodes(info.codes);
    [1 + 8 * info.flags, info.prologSize, |codes| / 2, info.frameReg + 16 * info.frameOffset] + codes
  }

  lemma CodeAtEncoded(raw: seq<byte>, i: nat, c: UnwindCode)
    requires 2 * (i + Slots(c.op, c.info)) <= |raw| && Encodable(c)
    requires raw[2 * i..2 * (i + Slots(c.op, c.info))] == EncodeCode(c)
    ensures CodeAt(raw, i) == c
  {
    var code, n := EncodeCode(c), 2 * (Slots(c.op, c.info) - 1);
    FromToLE(c.operand, n);
    assert raw[2 * i] == code[0] && raw[2 * i + 1] == code[1];
    assert raw[2 * i + 2..2 * i + 2 + n] == code[2..] == ToLE(c.operand, n);
  }

  lemma FirstEncoded(raw: seq<byte>, i: nat, next: nat, first: seq<byte>, rest: seq<byte>)
    requires 2 * i <= |raw| && raw[2 * i..] == first + rest && 2 * next == 2 * i + |first|
    ensures 2 * next <= |raw| && raw[2 * i..2 * next] == first && raw[2 * next..] == rest
  {
    var all := raw[2 * i..];
    assert raw[2 * i..2 * next] == all[..|first|] && raw[2 * next..] == all[|first|..];
  }

  lemma {:induction false} DecodeEncoded(raw: seq<byte>, i: nat, codes: seq<UnwindCode>)
    requires forall c :: c in codes ==> Encodable(c)
    requires 2 * i <= |raw| && raw[2 * i..] == EncodeCodes(codes)
    ensures DecodeCodes(raw, i) == codes
    decreases |codes|
  {
    if codes != [] {
      var c, rest := codes[0], codes[1..];
      var next := i + Slots(c.op, c.info);
      hide CodeAt, EncodeCode, Slots, Encodable;
      FirstEncoded(raw, i, next, EncodeCode(c), EncodeCodes(rest));
      CodeAtEncoded(raw, i, c);
      DecodeEncoded(raw, next, rest);
    }
  }

  lemma ReadRawHeld(m: Memory, address: int, head: seq<byte>, raw: seq<byte>)
    requires |head| == 4 && |raw| == 2 * (head[2] as int)
    requires Holds(m, address, head) && Holds(m, address + 4, raw)
    ensures ReadRaw(m, address) == Some((head, raw))
  {
    ReadHeld(m, address, head);
    ReadHeld(m, address + 4, raw);
  }

  // Reading back an encoded UNWIND_INFO gives the same info.
  lemma ReadEncodedInfo(m: Memory, address: int, info: UnwindInfo)
    requires info.flags < 32 && |EncodeCodes(info.codes)| / 2 < 256
    requires forall c :: c in info.codes ==> Encodable(c)
    requires Holds(m, address, EncodeInfo(info))
    ensures ReadUnwindInfo(m, address)
         == Some(info.(trailer := TrailerOf(address, |EncodeCodes(info.codes)| / 2)))
  {
    var codes, data := EncodeCodes(info.codes), EncodeInfo(info);
    var head := [1 + 8 * info.flags, info.prologSize, |codes| / 2, info.frameReg + 16 * info.frameOffset];
    assert data == head + codes;
    HoldsSlice(m, address, data, 0, 4);
    HoldsSlice(m, address, data, 4, |data|);
    assert data[0..4] == head && data[4..|data|] == codes;
    ReadRawHeld(m, address, head, codes);
    assert head[0] / 8 == info.flags && head[3] % 16 == info.frameReg && head[3] / 16 == info.frameOffset;
    assert codes[0..] == codes;
    DecodeEncoded(codes, 0, info.codes);
  }

  // -- Unwinding

  // The offset of pc into fn, unsigned, so a pc below fn is past its prolog.
  function PrologOffset(fn: RuntimeFunction, pc: int): nat {
    (pc - fn.imageBase - fn.begin) % W32
  }

  function EstablisherFrame(info: UnwindInfo, offset: nat, ctx: Context): int {
    var frameSet :=
      || offset >= info.prologSize
      || info.Chained()
      || exists c :: c in info.codes && c.op == UWOP_SET_FPREG && c.prologOffset <= offset;
    if info.frameReg != 0 && frameSet then ctx.gpr[info.frameReg] - 16 * info.frameOffset else ctx.gpr[RSP]
  }

  datatype Walk = Walk(ctx: Context, machineFrame: bool)

  // The effect of one unwind code, or None if a read faults.
  function UndoCode(m: Memory, info: UnwindInfo, frame: int, c: UnwindCode, w: Walk): Option<Walk> {
    var ctx := w.ctx;
    if c.op == UWOP_PUSH_NONVOL then
      var v :- ReadU64(m, ctx.gpr[RSP]);
      Some(w.(ctx := AddRsp(SetGpr(ctx, c.info, v), 8)))
    else if c.op == UWOP_ALLOC_LARGE then
      Some(w.(ctx := AddRsp(ctx, if c.info != 0 then c.operand else c.operand * 8)))
    else if c.op == UWOP_ALLOC_SMALL then
      Some(w.(ctx := AddRsp(ctx, c.info * 8 + 8)))
    else if c.op == UWOP_SET_FPREG then
      Some(w.(ctx := SetGpr(ctx, RSP, Wrap64(ctx.gpr[info.frameReg] - 16 * info.frameOffset))))
    else if c.op == UWOP_SAVE_NONVOL || c.op == UWOP_SAVE_NONVOL_FAR then
      var v :- ReadU64(m, frame + (if c.op == UWOP_SAVE_NONVOL then c.operand * 8 else c.operand));
      Some(w.(ctx := SetGpr(ctx, c.info, v)))
    else if c.op == UWOP_SAVE_XMM128 || c.op == UWOP_SAVE_XMM128_FAR then
      var a := frame + (if c.op == UWOP_SAVE_XMM128 then c.operand * 16 else c.operand);
      var low :- ReadU64(m, a);
      var high :- ReadU64(m, a + 8);
      Some(w.(ctx := ctx.(xmm := ctx.xmm[c.info := Xmm(low, high)])))
    else if c.op == UWOP_PUSH_MACHFRAME then
      var sp: int := ctx.gpr[RSP];
      var sp := if c.info != 0 then sp + 8 else sp;
      var rip :- ReadU64(m, sp);
      var rsp :- ReadU64(m, sp + 24);
      Some(Walk(SetGpr(ctx, RSP, rsp).(rip := rip), true))
    else
      Some(w)
  }

  // The codes from the first on, and whether every read succeeded.
  function UndoCodes(m: Memory, info: UnwindInfo, frame: int, codes: seq<UnwindCode>, offset: nat, w: Walk)
    : (Walk, bool)
    decreases |codes|
  {
    if codes == [] then (w, true)
    else if codes[0].prologOffset > offset then UndoCodes(m, info, frame, codes[1..], offset, w)
    else
      match UndoCode(m, info, frame, codes[0], w)
      case None => (w, false)
      case Some(w') => UndoCodes(m, info, frame, codes[1..], offset, w')
  }

  function UnwindLeaf(m: Memory, ctx: Context): Option<Context> {
    var rip :- ReadU64(m, ctx.gpr[RSP]);
    Some(AddRsp(ctx.(rip := rip), 8))
  }

  // The handler of the last info of the chain, then the return address.
  function Finish(m: Memory, fn: RuntimeFunction, info: UnwindInfo, pc: int, frame: int, w: Walk, handlerType: nat)
    : (u: Unwound)
    ensures u.result.Err? ==> u.result.error == ReadFault
  {
    var wanted := ShareBit(info.flags, handlerType) && PrologOffset(fn, pc) >= info.prologSize;
    var handler := ReadU32(m, info.trailer);
    if wanted && handler.None? then Unwound(w.ctx, Err(ReadFault))
    else
      var frameInfo := if wanted then FrameInfo(frame, fn.imageBase + handler.value, info.trailer + 4)
        else FrameInfo(frame, 0, 0);
      if w.machineFrame then Unwound(w.ctx, Ok(frameInfo))
      else
        match UnwindLeaf(m, w.ctx)
        case None => Unwound(w.ctx, Err(ReadFault))
        case Some(ctx) => Unwound(ctx, Ok(frameInfo))
  }

  // The RUNTIME_FUNCTION at an address, and its unwind info.
  function ReadLink(m: Memory, imageBase: int, address: int): (r: Option<(RuntimeFunction, UnwindInfo)>)
    ensures r.Some? ==> r.value.0.imageBase == imageBase
  {
    var fn :- ReadRuntimeFunction(m, imageBase, address);
    var info :- ReadUnwindInfo(m, imageBase + fn.unwindInfo);
    Some((fn, info))
  }

  method ReadNext(m: Memory, imageBase: int, address: int) returns (r: Option<(RuntimeFunction, UnwindInfo)>)
    ensures r == ReadLink(m, imageBase, address)
  {
    var fn := ReadRuntimeFunction(m, imageBase, address);
    if fn.None? {
      return None;
    }
    var info := ReadInfo(m, imageBase + fn.value.unwindInfo);
    return if info.None? then None else Some((fn.value, info.value));
  }

  function UnwindChain(
    m: Memory, fn: RuntimeFunction, info: UnwindInfo, pc: int, frame: int, w: Walk, fuel: nat,
    handlerType: nat): Unwound
    decreases fuel, pc
  {
    if fuel == 0 then Unwound(w.ctx, Err(ChainTooLong))
    else
      var (w', ok) := UndoCodes(m, info, frame, info.codes, PrologOffset(fn, pc), w);
      if !ok then Unwound(w'.ctx, Err(ReadFault))
      else if !info.Chained() then Finish(m, fn, info, pc, frame, w', handlerType)
      else
        match ReadLink(m, fn.imageBase, info.trailer)
        case None => Unwound(w'.ctx, Err(ReadFault))
        case Some((next, nextInfo)) => UnwindChain(m, next, nextInfo, pc, frame, w', fuel - 1, handlerType)
  }

  function VirtualUnwind(m: Memory, fn: RuntimeFunction, pc: int, ctx: Context, handlerType: nat): Unwound {
    match ReadUnwindInfo(m, fn.imageBase + fn.unwindInfo)
    case None => Unwound(ctx, Err(ReadFault))
    case Some(info) =>
      var frame := EstablisherFrame(info, PrologOffset(fn, pc), ctx);
      UnwindChain(m, fn, info, pc, frame, Walk(ctx, false), MAX_CHAIN, handlerType)
  }

  // A CONTEXT64, which an unwind updates in place.
  class Context64 {
    var gpr: seq<u64>
    var xmm: seq<Xmm>
    var rip: u64

    ghost predicate Valid()
      reads this
    {
      |gpr| == 16 && |xmm| == 16
    }

    function Value(): Context
      requires Valid()
      reads this
    {
      Registers(gpr, xmm, rip)
    }

    constructor (c: Context)
      ensures Valid() && Value() == c
    {
      gpr, xmm, rip := c.gpr, c.xmm, c.rip;
    }

    method Undo(m: Memory, info: UnwindInfo, frame: int, c: UnwindCode, machineFrame: bool)
      returns (machineFrame': bool, ok: bool)
      requires Valid()
      modifies this
      ensures Valid()
      ensures UndoCode(m, info, frame, c, Walk(old(Value()), machineFrame))
           == if ok then Some(Walk(Value(), machineFrame')) else None
      ensures !ok ==> Value() == old(Value()) && machineFrame' == machineFrame
    {
      hide ReadU64, Wrap64;
      machineFrame', ok := machineFrame, true;
      if c.op == UWOP_PUSH_NONVOL {
        var v := ReadU64(m, gpr[RSP]);
        if v.None? {
          return machineFrame, false;
        }
        gpr := gpr[c.info := v.value];
        gpr := AddRsp(Value(), 8).gpr;
      } else if c.op == UWOP_ALLOC_LARGE {
        gpr := AddRsp(Value(), if c.info != 0 then c.operand else c.operand * 8).gpr;
      } else if c.op == UWOP_ALLOC_SMALL {
        gpr := AddRsp(Value(), c.info * 8 + 8).gpr;
      } else if c.op == UWOP_SET_FPREG {
        gpr := gpr[RSP := Wrap64(gpr[info.frameReg] - 16 * info.frameOffset)];
      } else if c.op == UWOP_SAVE_NONVOL || c.op == UWOP_SAVE_NONVOL_FAR {
        var v := ReadU64(m, frame + if c.op == UWOP_SAVE_NONVOL then c.operand * 8 else c.operand);
        if v.None? {
          return machineFrame, false;
        }
        gpr := gpr[c.info := v.value];
      } else if c.op == UWOP_SAVE_XMM128 || c.op == UWOP_SAVE_XMM128_FAR {
        var a := frame + if c.op == UWOP_SAVE_XMM128 then c.operand * 16 else c.operand;
        var low, high := ReadU64(m, a), ReadU64(m, a + 8);
        if low.None? || high.None? {
          return machineFrame, false;
        }
        xmm := xmm[c.info := Xmm(low.value, high.value)];
      } else if c.op == UWOP_PUSH_MACHFRAME {
        var sp: int := gpr[RSP];
        sp := if c.info != 0 then sp + 8 else sp;
        var newRip, newRsp := ReadU64(m, sp), ReadU64(m, sp + 24);
        if newRip.None? || newRsp.None? {
          return machineFrame, false;
        }
        rip, gpr := newRip.value, gpr[RSP := newRsp.value];
        machineFrame' := true;
      }
    }

    method UndoAll(m: Memory, info: UnwindInfo, frame: int, offset: nat, machineFrame: bool)
      returns (machineFrame': bool, ok: bool)
      requires Valid()
      modifies this
      ensures Valid()
      ensures UndoCodes(m, info, frame, info.codes, offset, Walk(old(Value()), machineFrame))
           == (Walk(Value(), machineFrame'), ok)
    {
      hide UndoCode;
      machineFrame' := machineFrame;
      ghost var all := UndoCodes(m, info, frame, info.codes, offset, Walk(Value(), machineFrame));
      for i := 0 to |info.codes|
        invariant Valid()
        invariant all == UndoCodes(m, info, frame, info.codes[i..], offset, Walk(Value(), machineFrame'))
      {
        var c := info.codes[i];
        assert info.codes[i..][1..] == info.codes[i + 1..];
        if c.prologOffset > offset {
          continue;
        }
        machineFrame', ok := Undo(m, info, frame, c, machineFrame');
        if !ok {
          return;
        }
      }
      ok := true;
    }

    method UnwindFrame(m: Memory, fn: RuntimeFunction, pc: int, handlerType: nat)
      returns (r: Result<FrameInfo, UnwindError>)
      requires Valid()
      modifies this
      ensures Valid()
      ensures VirtualUnwind(m, fn, pc, old(Value()), handlerType) == Unwound(Value(), r)
    {
      hide UnwindChain, EstablisherFrame, PrologOffset, ReadUnwindInfo;
      var read := ReadInfo(m, fn.imageBase + fn.unwindInfo);
      if read.None? {
        return Err(ReadFault);
      }
      var info := read.value;
      var frame := EstablisherFrame(info, PrologOffset(fn, pc), Value());
      r := UnwindLinks(m, fn, info, pc, frame, handlerType, MAX_CHAIN);
    }

    // Unwind a chain of at most limit infos.
    method UnwindLinks(
      m: Memory, fn0: RuntimeFunction, info0: UnwindInfo, pc: int, frame: int, handlerType: nat, limit: nat)
      returns (r: Result<FrameInfo, UnwindError>)
      requires Valid()
      modifies this
      ensures Valid()
      ensures UnwindChain(m, fn0, info0, pc, frame, Walk(old(Value()), false), limit, handlerType)
        == Unwound(Value(), r)
    {
      hide UndoCodes, PrologOffset, Finish, ReadLink;
      var fn, info, machineFrame, ok := fn0, info0, false, true;
      ghost var all := UnwindChain(m, fn, info, pc, frame, Walk(Value(), false), limit, handlerType);
      var n := 0;
      while true
        invariant Valid() && 0 <= n <= limit && fn.imageBase == fn0.imageBase
        invariant all == UnwindChain(m, fn, info, pc, frame, Walk(Value(), machineFrame), limit - n, handlerType)
        decreases limit - n
      {
        if n == limit {
          return Err(ChainTooLong);
        }
        machineFrame, ok := UndoAll(m, info, frame, PrologOffset(fn, pc), machineFrame);
        if !ok {
          return Err(ReadFault);
        }
        if !info.Chained() {
          r := FinishFrame(m, fn, info, pc, frame, machineFrame, handlerType);
          return;
        }
        var next := ReadNext(m, fn.imageBase, info.trailer);
        if next.None? {
          return Err(ReadFault);
        }
        fn, info, n := next.value.0, next.value.1, n + 1;
      }
    }

    method FinishFrame(
      m: Memory, fn: RuntimeFunction, info: UnwindInfo, pc: int, frame: int, machineFrame: bool, handlerType: nat)
      returns (r: Result<FrameInfo, UnwindError>)
      requires Valid()
      modifies this
      ensures Valid()
      ensures Finish(m, fn, info, pc, frame, Walk(old(Value()), machineFrame), handlerType) == Unwound(Value(), r)
    {
      var handler, handlerData := 0, 0;
      if ShareBit(info.flags, handlerType) && PrologOffset(fn, pc) >= info.prologSize {
        var rva := ReadU32(m, info.trailer);
        if rva.None? {
          return Err(ReadFault);
        }
        handler, handlerData := fn.imageBase + rva.value, info.trailer + 4;
      }
      if !machineFrame {
        var ok := Leaf(m);
        if !ok {
          return Err(ReadFault);
        }
      }
      return Ok(FrameInfo(frame, handler, handlerData));
    }

    method Leaf(m: Memory) returns (ok: bool)
      requires Valid()
      modifies this
      ensures Valid()
      ensures UnwindLeaf(m, old(Value())) == if ok then Some(Value()) else None
      ensures !ok ==> Value() == old(Value())
    {
      var ret := ReadU64(m, gpr[RSP]);
      if ret.None? {
        return false;
      }
      rip := ret.value;
      gpr := AddRsp(Value(), 8).gpr;
      ok := true;
    }
  }
}
