// The independent meaning of unwind data: a function prologue, run forward.
//
// A prologue pushes registers, allocates stack, sets a frame register and saves registers. The
// theorems say that RtlVirtualUnwind undoes it, from any cut point in the prologue and from any
// state that the body can reach.

module Prologue {
  import opened Options
  import opened Bytes
  import opened Unwind

  datatype Instr =
    | Push(reg: nibble)
    | Alloc(size: nat)
    | SetFrame
    | SaveGpr(reg: nibble, off: nat)
    | SaveXmm(reg: nibble, off: nat)

  // An instruction, and the offset of its end in the function.
  datatype Step = Step(end: byte, instr: Instr)

  // fp and fpOff are the frame register and its scaled offset, for SetFrame.
  datatype Prologue = Prologue(steps: seq<Step>, fp: nibble, fpOff: nibble)

  datatype Machine = Machine(ctx: Context, mem: Memory)

  predicate Nonvolatile(r: nibble) {
    r == 3 || 5 <= r <= 7 || r >= 12
  }

  predicate NonvolatileXmm(r: nibble) {
    r >= 6
  }

  function StackUse(i: Instr): nat {
    match i
    case Push(_) => 8
    case Alloc(n) => n
    case _ => 0
  }

  // The stack that the first i steps use.
  function Depth(steps: seq<Step>, i: nat): nat
    requires i <= |steps|
  {
    if i == 0 then 0 else Depth(steps, i - 1) + StackUse(steps[i - 1].instr)
  }

  lemma {:induction false} DepthGrows(steps: seq<Step>, i: nat, j: nat)
    requires i <= j <= |steps|
    ensures Depth(steps, i) <= Depth(steps, j)
  {
    if i < j {
      DepthGrows(steps, i, j - 1);
    }
  }

  // The index of the first SetFrame from i on, or the number of steps.
  function FrameFrom(steps: seq<Step>, i: nat): (f: nat)
    requires i <= |steps|
    ensures i <= f <= |steps|
    ensures f < |steps| ==> steps[f].instr.SetFrame?
    ensures forall j :: i <= j < f ==> !steps[j].instr.SetFrame?
    decreases |steps| - i
  {
    if i == |steps| || steps[i].instr.SetFrame? then i else FrameFrom(steps, i + 1)
  }

  function FrameIndex(p: Prologue): (f: nat)
    ensures f <= |p.steps|
    ensures f < |p.steps| ==> p.steps[f].instr.SetFrame?
  {
    FrameFrom(p.steps, 0)
  }

  // The depth of the establisher frame, from which saves count.
  function BaseDepth(p: Prologue): nat {
    Depth(p.steps, FrameIndex(p))
  }

  predicate Saves(i: Instr, r: nibble) {
    (i.Push? || i.SaveGpr?) && i.reg == r
  }

  predicate SavesXmm(i: Instr, r: nibble) {
    i.SaveXmm? && i.reg == r
  }

  // The stack bytes that step i writes, relative to rsp at entry.
  function Cell(p: Prologue, i: nat): (int, nat)
    requires i < |p.steps|
  {
    match p.steps[i].instr
    case Push(_) => (0 - Depth(p.steps, i + 1), 8)
    case SaveGpr(_, off) => (off - BaseDepth(p), 8)
    case SaveXmm(_, off) => (off - BaseDepth(p), 16)
    case _ => (0, 0)
  }

  predicate Apart(a: (int, nat), b: (int, nat)) {
    a.1 == 0 || b.1 == 0 || a.0 + a.1 <= b.0 || b.0 + b.1 <= a.0
  }

  // What the format demands of a prologue. home is the size of the data that the caller left at rsp.
  ghost predicate WellFormed(p: Prologue, home: nat) {
    var f := FrameIndex(p);
    && p.fp != RSP
    && (forall i :: 0 <= i < |p.steps| && p.steps[i].instr.SetFrame? ==> i == f)
    && (forall i :: 0 <= i < |p.steps| ==> !Saves(p.steps[i].instr, RSP))
    && (forall i :: f < i < |p.steps| ==> !Saves(p.steps[i].instr, p.fp))
    && (f < |p.steps| && Nonvolatile(p.fp) ==> exists i :: 0 <= i < f && Saves(p.steps[i].instr, p.fp))
    && (forall i ::
          0 <= i < f && (p.steps[i].instr.SaveGpr? || p.steps[i].instr.SaveXmm?) ==> Depth(p.steps, i) == BaseDepth(p))
    && (forall i, j :: 0 <= i < j < |p.steps| ==> Apart(Cell(p, i), Cell(p, j)))
    && (forall i :: 0 <= i < |p.steps| ==> Apart(Cell(p, i), (0, home)))
  }

  // -- Running forward

  // Where a save of step i goes: [rsp + off], or [fp - 16 * fpOff + off] once the frame is set.
  function SaveBase(p: Prologue, i: nat, c: Context): int {
    if FrameIndex(p) < i then c.gpr[p.fp] - 16 * p.fpOff else c.gpr[RSP]
  }

  function ExecStep(p: Prologue, i: nat, s: Machine): Machine
    requires i < |p.steps|
  {
    var c := s.ctx;
    match p.steps[i].instr
    case Push(r) => Machine(AddRsp(c, -8), Write(s.mem, AddRsp(c, -8).gpr[RSP], ToLE(c.gpr[r], 8)))
    case Alloc(n) => s.(ctx := AddRsp(c, 0 - n))
    case SetFrame => s.(ctx := SetGpr(c, p.fp, Wrap64(c.gpr[RSP] + 16 * p.fpOff)))
    case SaveGpr(r, off) => s.(mem := Write(s.mem, SaveBase(p, i, c) + off, ToLE(c.gpr[r], 8)))
    case SaveXmm(r, off) =>
      s.(mem := Write(s.mem, SaveBase(p, i, c) + off, ToLE(c.xmm[r].low, 8) + ToLE(c.xmm[r].high, 8)))
  }

  function Exec(p: Prologue, k: nat, s: Machine): Machine
    requires k <= |p.steps|
  {
    if k == 0 then s else ExecStep(p, k - 1, Exec(p, k - 1, s))
  }

  // -- What an unwind needs of the state of a frame

  // The bytes that step i saves for a caller with the registers of entry.
  function Content(p: Prologue, i: nat, entry: Context): (s: seq<byte>)
    requires i < |p.steps|
    ensures |s| == Cell(p, i).1
  {
    match p.steps[i].instr
    case Push(r) => ToLE(entry.gpr[r], 8)
    case SaveGpr(r, _) => ToLE(entry.gpr[r], 8)
    case SaveXmm(r, _) => ToLE(entry.xmm[r].low, 8) + ToLE(entry.xmm[r].high, 8)
    case _ => []
  }

  ghost predicate Stored(p: Prologue, i: nat, entry: Context, m: Memory)
    requires i < |p.steps|
  {
    Holds(m, entry.gpr[RSP] + Cell(p, i).0, Content(p, i, entry))
  }

  ghost predicate KeepsGpr(p: Prologue, k: nat, r: nibble)
    requires k <= |p.steps|
  {
    forall i :: 0 <= i < k ==> !Saves(p.steps[i].instr, r)
  }

  ghost predicate KeepsXmm(p: Prologue, k: nat, r: nibble)
    requires k <= |p.steps|
  {
    forall i :: 0 <= i < k ==> !SavesXmm(p.steps[i].instr, r)
  }

  // rsp is where k steps left it. A frame register lets the body move rsp, if no push follows it.
  ghost predicate RspKnown(p: Prologue, k: nat, entry: Context, c: Context)
    requires k <= |p.steps|
  {
    || c.gpr[RSP] == entry.gpr[RSP] - Depth(p.steps, k)
    || (FrameIndex(p) < k && forall i :: FrameIndex(p) < i < k ==> !p.steps[i].instr.Push?)
  }

  // The first k steps were run from entry, and the frame still has what they saved.
  ghost predicate Intact(p: Prologue, k: nat, entry: Context, c: Context, m: Memory)
    requires k <= |p.steps|
  {
    && (forall i :: 0 <= i < k ==> Stored(p, i, entry, m))
    && (forall r: nibble :: Nonvolatile(r) && KeepsGpr(p, k, r) ==> c.gpr[r] == entry.gpr[r])
    && (forall r: nibble :: NonvolatileXmm(r) && KeepsXmm(p, k, r) ==> c.xmm[r] == entry.xmm[r])
    && (FrameIndex(p) < k ==> c.gpr[p.fp] == entry.gpr[RSP] - BaseDepth(p) + 16 * p.fpOff)
    && RspKnown(p, k, entry, c)
  }

  // -- One step undone

  predicate Undoes(info: UnwindInfo, c: UnwindCode, p: Prologue, i: nat)
    requires i < |p.steps|
  {
    match p.steps[i].instr
    case Push(r) => c.op == UWOP_PUSH_NONVOL && c.info == r
    case Alloc(n) =>
      || (c.op == UWOP_ALLOC_LARGE && n == if c.info != 0 then c.operand else c.operand * 8)
      || (c.op == UWOP_ALLOC_SMALL && n == c.info * 8 + 8)
    case SetFrame => c.op == UWOP_SET_FPREG && info.frameReg == p.fp && info.frameOffset == p.fpOff
    case SaveGpr(r, off) =>
      && c.info == r
      && ((c.op == UWOP_SAVE_NONVOL && c.operand * 8 == off) || (c.op == UWOP_SAVE_NONVOL_FAR && c.operand == off))
    case SaveXmm(r, off) =>
      && c.info == r
      && ((c.op == UWOP_SAVE_XMM128 && c.operand * 16 == off) || (c.op == UWOP_SAVE_XMM128_FAR && c.operand == off))
  }

  predicate IsSave(i: Instr) {
    i.SaveGpr? || i.SaveXmm?
  }

  // The saves among the first k steps are where the unwind looks for them.
  ghost predicate FrameFits(p: Prologue, k: nat, entry: Context, frame: int)
    requires k <= |p.steps|
  {
    forall i :: 0 <= i < k && IsSave(p.steps[i].instr) ==> frame == entry.gpr[RSP] - BaseDepth(p)
  }

  lemma StoredPush(p: Prologue, i: nat, entry: Context, m: Memory)
    requires i < |p.steps| && Stored(p, i, entry, m) && (p.steps[i].instr.Push? || p.steps[i].instr.SaveGpr?)
    ensures ReadU64(m, entry.gpr[RSP] + Cell(p, i).0) == Some(entry.gpr[p.steps[i].instr.reg])
  {
    ReadU64Held(m, entry.gpr[RSP] + Cell(p, i).0, entry.gpr[p.steps[i].instr.reg]);
  }

  lemma StoredXmm(p: Prologue, i: nat, entry: Context, m: Memory)
    requires i < |p.steps| && Stored(p, i, entry, m) && p.steps[i].instr.SaveXmm?
    ensures var (a, v) := (entry.gpr[RSP] + Cell(p, i).0, entry.xmm[p.steps[i].instr.reg]);
            ReadU64(m, a) == Some(v.low) && ReadU64(m, a + 8) == Some(v.high)
  {
    hide Holds, ToLE, ReadU64, Cell;
    var v := entry.xmm[p.steps[i].instr.reg];
    assert Content(p, i, entry) == ToLE(v.low, 8) + ToLE(v.high, 8);
    TwoWordsHeld(m, entry.gpr[RSP] + Cell(p, i).0, v.low, v.high);
  }

  lemma TwoWordsHeld(m: Memory, a: int, low: u64, high: u64)
    requires Holds(m, a, ToLE(low, 8) + ToLE(high, 8))
    ensures ReadU64(m, a) == Some(low) && ReadU64(m, a + 8) == Some(high)
  {
    hide Holds, ToLE, ReadU64;
    HoldsParts(m, a, ToLE(low, 8), ToLE(high, 8));
    ReadU64Held(m, a, low);
    ReadU64Held(m, a + 8, high);
  }

  // Step i is the last that is not undone yet, and code c undoes it.
  ghost predicate Undoable(
    m: Memory, p: Prologue, home: nat, i: nat, entry: Context, info: UnwindInfo, frame: int, c: UnwindCode, w: Walk)
  {
    && WellFormed(p, home) && i < |p.steps| && Depth(p.steps, |p.steps|) <= entry.gpr[RSP]
    && Intact(p, i + 1, entry, w.ctx, m) && FrameFits(p, i + 1, entry, frame)
    && Undoes(info, c, p, i)
  }

  lemma KeepsMore(p: Prologue, i: nat)
    requires i < |p.steps|
    ensures forall r: nibble :: KeepsGpr(p, i, r) && !Saves(p.steps[i].instr, r) ==> KeepsGpr(p, i + 1, r)
    ensures forall r: nibble :: KeepsXmm(p, i, r) && !SavesXmm(p.steps[i].instr, r) ==> KeepsXmm(p, i + 1, r)
  {
  }

  lemma UndoPush(
    m: Memory, p: Prologue, home: nat, i: nat, entry: Context, info: UnwindInfo, frame: int, c: UnwindCode, w: Walk)
    returns (w': Walk)
    requires Undoable(m, p, home, i, entry, info, frame, c, w) && p.steps[i].instr.Push?
    ensures UndoCode(m, info, frame, c, w) == Some(w') && w'.machineFrame == w.machineFrame
    ensures Intact(p, i, entry, w'.ctx, m)
  {
    var r := p.steps[i].instr.reg;
    DepthGrows(p.steps, i + 1, |p.steps|);
    KeepsMore(p, i);
    assert w.ctx.gpr[RSP] == entry.gpr[RSP] - Depth(p.steps, i + 1);
    StoredPush(p, i, entry, m);
    w' := w.(ctx := AddRsp(SetGpr(w.ctx, r, entry.gpr[r]), 8));
    assert w'.ctx.gpr[RSP] == entry.gpr[RSP] - Depth(p.steps, i);
  }

  lemma UndoAlloc(
    m: Memory, p: Prologue, home: nat, i: nat, entry: Context, info: UnwindInfo, frame: int, c: UnwindCode, w: Walk)
    returns (w': Walk)
    requires Undoable(m, p, home, i, entry, info, frame, c, w) && p.steps[i].instr.Alloc?
    ensures UndoCode(m, info, frame, c, w) == Some(w') && w'.machineFrame == w.machineFrame
    ensures Intact(p, i, entry, w'.ctx, m)
  {
    DepthGrows(p.steps, i + 1, |p.steps|);
    KeepsMore(p, i);
    w' := w.(ctx := AddRsp(w.ctx, p.steps[i].instr.size));
    assert RspKnown(p, i, entry, w'.ctx);
  }

  lemma UndoSetFrame(
    m: Memory, p: Prologue, home: nat, i: nat, entry: Context, info: UnwindInfo, frame: int, c: UnwindCode, w: Walk)
    returns (w': Walk)
    requires Undoable(m, p, home, i, entry, info, frame, c, w) && p.steps[i].instr.SetFrame?
    ensures UndoCode(m, info, frame, c, w) == Some(w') && w'.machineFrame == w.machineFrame
    ensures Intact(p, i, entry, w'.ctx, m)
  {
    DepthGrows(p.steps, i, |p.steps|);
    KeepsMore(p, i);
    w' := w.(ctx := SetGpr(w.ctx, RSP, entry.gpr[RSP] - BaseDepth(p)));
  }

  lemma SaveCell(p: Prologue, i: nat, entry: Context, frame: int)
    requires i < |p.steps| && IsSave(p.steps[i].instr) && FrameFits(p, i + 1, entry, frame)
    ensures entry.gpr[RSP] + Cell(p, i).0 == frame + p.steps[i].instr.off
  {
  }

  lemma UndoSaveGpr(
    m: Memory, p: Prologue, home: nat, i: nat, entry: Context, info: UnwindInfo, frame: int, c: UnwindCode, w: Walk)
    returns (w': Walk)
    requires Undoable(m, p, home, i, entry, info, frame, c, w) && p.steps[i].instr.SaveGpr?
    ensures UndoCode(m, info, frame, c, w) == Some(w') && w'.machineFrame == w.machineFrame
    ensures Intact(p, i, entry, w'.ctx, m)
  {
    hide ReadU64, Stored;
    KeepsMore(p, i);
    var r := p.steps[i].instr.reg;
    SaveCell(p, i, entry, frame);
    StoredPush(p, i, entry, m);
    hide WellFormed, Cell, Depth, FrameIndex;
    w' := w.(ctx := SetGpr(w.ctx, r, entry.gpr[r]));
    assert RspKnown(p, i, entry, w'.ctx);
  }

  lemma UndoSaveXmm(
    m: Memory, p: Prologue, home: nat, i: nat, entry: Context, info: UnwindInfo, frame: int, c: UnwindCode, w: Walk)
    returns (w': Walk)
    requires Undoable(m, p, home, i, entry, info, frame, c, w) && p.steps[i].instr.SaveXmm?
    ensures UndoCode(m, info, frame, c, w) == Some(w') && w'.machineFrame == w.machineFrame
    ensures Intact(p, i, entry, w'.ctx, m)
  {
    hide ReadU64, Stored;
    KeepsMore(p, i);
    var r := p.steps[i].instr.reg;
    SaveCell(p, i, entry, frame);
    StoredXmm(p, i, entry, m);
    hide WellFormed, Cell, Depth, FrameIndex;
    w' := w.(ctx := w.ctx.(xmm := w.ctx.xmm[r := entry.xmm[r]]));
    assert RspKnown(p, i, entry, w'.ctx);
  }

  lemma UndoStep(
    m: Memory, p: Prologue, home: nat, i: nat, entry: Context, info: UnwindInfo, frame: int, c: UnwindCode, w: Walk)
    returns (w': Walk)
    requires Undoable(m, p, home, i, entry, info, frame, c, w)
    ensures UndoCode(m, info, frame, c, w) == Some(w') && w'.machineFrame == w.machineFrame
    ensures Intact(p, i, entry, w'.ctx, m)
  {
    match p.steps[i].instr
    case Push(_) => w' := UndoPush(m, p, home, i, entry, info, frame, c, w);
    case Alloc(_) => w' := UndoAlloc(m, p, home, i, entry, info, frame, c, w);
    case SetFrame => w' := UndoSetFrame(m, p, home, i, entry, info, frame, c, w);
    case SaveGpr(_, _) => w' := UndoSaveGpr(m, p, home, i, entry, info, frame, c, w);
    case SaveXmm(_, _) => w' := UndoSaveXmm(m, p, home, i, entry, info, frame, c, w);
  }

  // -- The codes of one unwind info undone

  // The codes undo steps lo to hi, the last step first.
  ghost predicate Describes(p: Prologue, lo: nat, hi: nat, info: UnwindInfo, codes: seq<UnwindCode>) {
    && lo <= hi <= |p.steps| && |codes| == hi - lo
    && forall c :: 0 <= c < |codes| ==>
         codes[c].prologOffset == p.steps[hi - 1 - c].end && Undoes(info, codes[c], p, hi - 1 - c)
  }

  // Of steps lo to hi, those before k end at or before the offset.
  ghost predicate CutAt(p: Prologue, lo: nat, hi: nat, k: nat, offset: nat) {
    lo <= k <= hi <= |p.steps| && forall j :: lo <= j < hi ==> (p.steps[j].end <= offset <==> j < k)
  }

  lemma {:induction false} UndoSteps(
    m: Memory, p: Prologue, home: nat, lo: nat, hi: nat, k: nat, entry: Context, info: UnwindInfo, frame: int,
    codes: seq<UnwindCode>, offset: nat, w: Walk)
    returns (w': Walk)
    requires WellFormed(p, home) && Depth(p.steps, |p.steps|) <= entry.gpr[RSP]
    requires Describes(p, lo, hi, info, codes) && CutAt(p, lo, hi, k, offset)
    requires Intact(p, k, entry, w.ctx, m) && FrameFits(p, k, entry, frame)
    ensures UndoCodes(m, info, frame, codes, offset, w) == (w', true) && w'.machineFrame == w.machineFrame
    ensures Intact(p, lo, entry, w'.ctx, m) && FrameFits(p, lo, entry, frame)
    decreases |codes|
  {
    hide WellFormed, Intact, Undoes, Depth, UndoCode;
    w' := w;
    if lo < hi {
      var next := w;
      if k == hi {
        next := UndoStep(m, p, home, hi - 1, entry, info, frame, codes[0], w);
      }
      var k' := if k == hi then hi - 1 else k;
      w' := UndoSteps(m, p, home, lo, hi - 1, k', entry, info, frame, codes[1..], offset, next);
    }
  }

  // -- The frame of a caller

  // How control came to the function: by a call, or by an interrupt with or without an error code.
  datatype Entry = Called | Interrupted(errorCode: bool)

  function HomeSize(e: Entry): nat {
    match e
    case Called => 8
    case Interrupted(errorCode) => if errorCode then 48 else 40
  }

  // The return address, or the machine frame, at rsp of the function entry.
  ghost predicate Home(e: Entry, entry: Context, rip: u64, rsp: u64, m: Memory) {
    var sp: int := entry.gpr[RSP];
    match e
    case Called => Holds(m, sp, ToLE(rip, 8)) && rsp == sp + 8
    case Interrupted(errorCode) =>
      var at := if errorCode then sp + 8 else sp;
      Holds(m, at, ToLE(rip, 8)) && Holds(m, at + 24, ToLE(rsp, 8))
  }

  predicate IsEntryCode(e: Entry, c: UnwindCode)
    requires e.Interrupted?
  {
    c.op == UWOP_PUSH_MACHFRAME && c.prologOffset == 0 && (c.info != 0 <==> e.errorCode)
  }

  // All codes of an info. The info of the function entry also has the code of a machine frame.
  ghost predicate DescribesAll(p: Prologue, e: Entry, lo: nat, hi: nat, info: UnwindInfo) {
    if lo == 0 && e.Interrupted? then
      |info.codes| > 0 && Describes(p, lo, hi, info, info.codes[..|info.codes| - 1])
        && IsEntryCode(e, info.codes[|info.codes| - 1])
    else
      Describes(p, lo, hi, info, info.codes)
  }

  // Unwinding got back to the caller.
  ghost predicate Recovered(entry: Context, rip: u64, rsp: u64, c: Context) {
    && c.rip == rip && c.gpr[RSP] == rsp
    && (forall r: nibble :: Nonvolatile(r) ==> c.gpr[r] == entry.gpr[r])
    && (forall r: nibble :: NonvolatileXmm(r) ==> c.xmm[r] == entry.xmm[r])
  }

  lemma {:induction false} UndoCodesSplit(
    m: Memory, info: UnwindInfo, frame: int, first: seq<UnwindCode>, last: UnwindCode, offset: nat, w: Walk, w1: Walk)
    requires UndoCodes(m, info, frame, first, offset, w) == (w1, true)
    ensures UndoCodes(m, info, frame, first + [last], offset, w) == UndoCodes(m, info, frame, [last], offset, w1)
    decreases |first|
  {
    if first == [] {
      assert first + [last] == [last];
    } else {
      assert (first + [last])[1..] == first[1..] + [last];
      var next := if first[0].prologOffset > offset then w else UndoCode(m, info, frame, first[0], w).value;
      UndoCodesSplit(m, info, frame, first[1..], last, offset, next, w1);
    }
  }

  // The state after the codes of an info from step lo on: back at the entry when lo is 0.
  ghost predicate Undone(p: Prologue, e: Entry, lo: nat, entry: Context, rip: u64, rsp: u64, w: Walk, m: Memory)
    requires lo <= |p.steps|
  {
    if lo == 0 && e.Interrupted? then Recovered(entry, rip, rsp, w.ctx) && w.machineFrame
    else Intact(p, lo, entry, w.ctx, m) && !w.machineFrame
  }

  lemma AllKept(p: Prologue, entry: Context, c: Context, m: Memory)
    requires Intact(p, 0, entry, c, m)
    ensures c.gpr[RSP] == entry.gpr[RSP]
    ensures forall r: nibble :: Nonvolatile(r) ==> c.gpr[r] == entry.gpr[r]
    ensures forall r: nibble :: NonvolatileXmm(r) ==> c.xmm[r] == entry.xmm[r]
  {
    assert forall r: nibble :: KeepsGpr(p, 0, r) && KeepsXmm(p, 0, r);
  }

  lemma UndoEntry(
    m: Memory, p: Prologue, e: Entry, entry: Context, rip: u64, rsp: u64, info: UnwindInfo, frame: int,
    c: UnwindCode, w: Walk)
    returns (w': Walk)
    requires e.Interrupted? && IsEntryCode(e, c) && Home(e, entry, rip, rsp, m) && Intact(p, 0, entry, w.ctx, m)
    ensures UndoCode(m, info, frame, c, w) == Some(w') && w'.machineFrame && Recovered(entry, rip, rsp, w'.ctx)
  {
    hide ReadU64, Holds, ToLE, Intact;
    AllKept(p, entry, w.ctx, m);
    var sp: int := entry.gpr[RSP];
    var at := if e.errorCode then sp + 8 else sp;
    ReadU64Held(m, at, rip);
    ReadU64Held(m, at + 24, rsp);
    w' := Walk(SetGpr(w.ctx, RSP, rsp).(rip := rip), true);
  }

  lemma UndoInfo(
    m: Memory, p: Prologue, e: Entry, lo: nat, hi: nat, k: nat, entry: Context, rip: u64, rsp: u64, info: UnwindInfo,
    frame: int, offset: nat, w: Walk)
    returns (w': Walk)
    requires WellFormed(p, HomeSize(e)) && Depth(p.steps, |p.steps|) <= entry.gpr[RSP]
    requires Home(e, entry, rip, rsp, m)
    requires DescribesAll(p, e, lo, hi, info) && CutAt(p, lo, hi, k, offset)
    requires Intact(p, k, entry, w.ctx, m) && !w.machineFrame && FrameFits(p, k, entry, frame)
    ensures UndoCodes(m, info, frame, info.codes, offset, w) == (w', true)
    ensures Undone(p, e, lo, entry, rip, rsp, w', m) && FrameFits(p, lo, entry, frame)
  {
    if lo == 0 && e.Interrupted? {
      var first, last := info.codes[..|info.codes| - 1], info.codes[|info.codes| - 1];
      assert info.codes == first + [last];
      var w1 := UndoSteps(m, p, HomeSize(e), lo, hi, k, entry, info, frame, first, offset, w);
      UndoCodesSplit(m, info, frame, first, last, offset, w, w1);
      w' := UndoEntry(m, p, e, entry, rip, rsp, info, frame, last, w1);
    } else {
      w' := UndoSteps(m, p, HomeSize(e), lo, hi, k, entry, info, frame, info.codes, offset, w);
    }
  }

  // -- A chain of unwind infos

  // A function, or a fragment of it, with the steps lo to hi of the whole prologue.
  datatype Link = Link(fn: RuntimeFunction, info: UnwindInfo, lo: nat, hi: nat)

  // The links from a fragment to its primary function. pc is past the prolog of each link but the first.
  ghost predicate ChainOf(m: Memory, p: Prologue, e: Entry, links: seq<Link>, pc: int) {
    && |links| > 0
    && DescribesAll(p, e, links[0].lo, links[0].hi, links[0].info)
    && if |links| == 1 then links[0].lo == 0 && !links[0].info.Chained()
       else
         && links[0].info.Chained() && links[0].lo > 0 && links[0].lo == links[1].hi
         && ReadLink(m, links[0].fn.imageBase, links[0].info.trailer) == Some((links[1].fn, links[1].info))
         && CutAt(p, links[1].lo, links[1].hi, links[1].hi, PrologOffset(links[1].fn, pc))
         && ChainOf(m, p, e, links[1..], pc)
  }

  // The walks before, between and after the links.
  ghost predicate Runs(m: Memory, links: seq<Link>, pc: int, frame: int, ws: seq<Walk>) {
    && |links| > 0 && |ws| == |links| + 1
    && UndoCodes(m, links[0].info, frame, links[0].info.codes, PrologOffset(links[0].fn, pc), ws[0]) == (ws[1], true)
    && (links[0].info.Chained() <==> |links| > 1)
    && (|links| > 1 ==>
          && ReadLink(m, links[0].fn.imageBase, links[0].info.trailer) == Some((links[1].fn, links[1].info))
          && Runs(m, links[1..], pc, frame, ws[1..]))
  }

  lemma {:induction false} RunsToFinish(
    m: Memory, links: seq<Link>, pc: int, frame: int, ws: seq<Walk>, fuel: nat, handlerType: nat)
    requires Runs(m, links, pc, frame, ws) && |links| <= fuel
    ensures UnwindChain(m, links[0].fn, links[0].info, pc, frame, ws[0], fuel, handlerType)
         == Finish(m, links[|links| - 1].fn, links[|links| - 1].info, pc, frame, ws[|links|], handlerType)
    decreases |links|
  {
    hide UndoCodes, PrologOffset, Finish, ReadLink;
    if |links| > 1 {
      RunsToFinish(m, links[1..], pc, frame, ws[1..], fuel - 1, handlerType);
    }
  }

  lemma {:induction false} UndoChain(
    m: Memory, p: Prologue, e: Entry, links: seq<Link>, pc: int, k: nat, entry: Context, rip: u64, rsp: u64,
    frame: int, w: Walk)
    returns (ws: seq<Walk>)
    requires WellFormed(p, HomeSize(e)) && Depth(p.steps, |p.steps|) <= entry.gpr[RSP]
    requires Home(e, entry, rip, rsp, m)
    requires ChainOf(m, p, e, links, pc)
    requires CutAt(p, links[0].lo, links[0].hi, k, PrologOffset(links[0].fn, pc))
    requires Intact(p, k, entry, w.ctx, m) && !w.machineFrame && FrameFits(p, k, entry, frame)
    ensures |ws| == |links| + 1 && Runs(m, links, pc, frame, ws) && ws[0] == w
    ensures Undone(p, e, 0, entry, rip, rsp, ws[|links|], m)
    decreases |links|
  {
    hide WellFormed, Home, Describes, CutAt, Intact, FrameFits, UndoCodes, PrologOffset, ReadLink, Depth, HomeSize;
    var link := links[0];
    var w' := UndoInfo(m, p, e, link.lo, link.hi, k, entry, rip, rsp, link.info, frame, PrologOffset(link.fn, pc), w);
    if |links| == 1 {
      ws := [w, w'];
    } else {
      var rest := UndoChain(m, p, e, links[1..], pc, link.lo, entry, rip, rsp, frame, w');
      ws := [w] + rest;
      assert ws[1..] == rest;
    }
  }

  // -- The establisher frame

  // The first link names the frame register of the prologue, if there is one.
  ghost predicate NamesFrame(p: Prologue, link: Link, k: nat) {
    var f := FrameIndex(p);
    && (forall j :: link.lo <= j < link.hi && j < |p.steps| ==> p.steps[j].end <= link.info.prologSize)
    && if f < |p.steps| then
         && link.info.frameReg == p.fp && p.fp != 0 && link.info.frameOffset == p.fpOff
         && (link.info.Chained() ==> f < k)
       else link.info.frameReg == 0
  }

  lemma FrameCode(p: Prologue, e: Entry, link: Link, k: nat, offset: nat)
    requires WellFormed(p, HomeSize(e))
    requires DescribesAll(p, e, link.lo, link.hi, link.info) && CutAt(p, link.lo, link.hi, k, offset)
    ensures (exists c :: c in link.info.codes && c.op == UWOP_SET_FPREG && c.prologOffset <= offset)
       <==> link.lo <= FrameIndex(p) < k
  {
    hide WellFormed, DescribesAll, FrameFrom;
    var codes, f, n := link.info.codes, FrameIndex(p), link.hi - link.lo;
    if c :| c in codes && c.op == UWOP_SET_FPREG && c.prologOffset <= offset {
      var i :| 0 <= i < |codes| && codes[i] == c;
      DescribedCode(p, e, link, i);
      OneFrameStep(p, HomeSize(e), link.hi - 1 - i);
    }
    if link.lo <= f < k {
      var i := link.hi - 1 - f;
      DescribedCode(p, e, link, i);
      assert codes[i] in codes && codes[i].op == UWOP_SET_FPREG && codes[i].prologOffset <= offset;
    }
  }

  lemma OneFrameStep(p: Prologue, home: nat, i: nat)
    requires WellFormed(p, home) && i < |p.steps| && p.steps[i].instr.SetFrame?
    ensures i == FrameIndex(p)
  {
  }

  // Code i of an info is that of its step, or the code of the function entry, which sets no frame.
  lemma DescribedCode(p: Prologue, e: Entry, link: Link, i: nat)
    requires DescribesAll(p, e, link.lo, link.hi, link.info) && link.hi <= |p.steps|
    ensures link.lo <= link.hi && link.hi - link.lo <= |link.info.codes|
    ensures i < |link.info.codes| && link.info.codes[i].op == UWOP_SET_FPREG ==> i < link.hi - link.lo
    ensures i < link.hi - link.lo ==>
              && link.info.codes[i].prologOffset == p.steps[link.hi - 1 - i].end
              && (link.info.codes[i].op == UWOP_SET_FPREG <==> p.steps[link.hi - 1 - i].instr.SetFrame?)
  {
    var codes, n := link.info.codes, link.hi - link.lo;
    if i < n {
      assert codes[..n][i] == codes[i];
    }
  }

  lemma HeadFrame(p: Prologue, e: Entry, link: Link, k: nat, offset: nat, entry: Context, c: Context, m: Memory)
    requires WellFormed(p, HomeSize(e)) && NamesFrame(p, link, k)
    requires DescribesAll(p, e, link.lo, link.hi, link.info) && CutAt(p, link.lo, link.hi, k, offset)
    requires link.hi == |p.steps| && (!link.info.Chained() ==> link.lo == 0)
    requires Intact(p, k, entry, c, m)
    ensures FrameFits(p, k, entry, EstablisherFrame(link.info, offset, c))
    ensures k == |p.steps| ==> EstablisherFrame(link.info, offset, c) == entry.gpr[RSP] - BaseDepth(p)
  {
    FrameCode(p, e, link, k, offset);
    var f := FrameIndex(p);
    forall i | 0 <= i < k && IsSave(p.steps[i].instr) && k <= f ensures Depth(p.steps, k) == BaseDepth(p) {
      DepthGrows(p.steps, i, k);
      DepthGrows(p.steps, k, f);
    }
  }

  // -- Main theorems

  // pc and ctx are in a frame of the function, which ran the first k steps of its prologue for a caller.
  ghost predicate InFrame(
    m: Memory, p: Prologue, e: Entry, links: seq<Link>, pc: int, k: nat, entry: Context, rip: u64, rsp: u64,
    ctx: Context)
  {
    && WellFormed(p, HomeSize(e)) && Depth(p.steps, |p.steps|) <= entry.gpr[RSP]
    && Home(e, entry, rip, rsp, m)
    && 0 < |links| <= MAX_CHAIN && ChainOf(m, p, e, links, pc) && links[0].hi == |p.steps|
    && ReadUnwindInfo(m, links[0].fn.imageBase + links[0].fn.unwindInfo) == Some(links[0].info)
    && CutAt(p, links[0].lo, links[0].hi, k, PrologOffset(links[0].fn, pc))
    && NamesFrame(p, links[0], k)
    && Intact(p, k, entry, ctx, m)
  }

  // The handler that the primary function gives to a pc in its body.
  function HandlerOf(m: Memory, link: Link, pc: int, handlerType: nat): Option<(int, int)> {
    if ShareBit(link.info.flags, handlerType) && PrologOffset(link.fn, pc) >= link.info.prologSize then
      var rva :- ReadU32(m, link.info.trailer);
      Some((link.fn.imageBase + rva, link.info.trailer + 4))
    else Some((0, 0))
  }

  lemma FinishRecovers(
    m: Memory, p: Prologue, e: Entry, link: Link, pc: int, entry: Context, rip: u64, rsp: u64, frame: int, w: Walk,
    handlerType: nat)
    requires Home(e, entry, rip, rsp, m) && Undone(p, e, 0, entry, rip, rsp, w, m)
    requires HandlerOf(m, link, pc, handlerType).Some?
    ensures var u := Finish(m, link.fn, link.info, pc, frame, w, handlerType);
      var h := HandlerOf(m, link, pc, handlerType).value;
            u.result == Ok(FrameInfo(frame, h.0, h.1)) && Recovered(entry, rip, rsp, u.ctx)
  {
    if e.Called? {
      AllKept(p, entry, w.ctx, m);
      ReadU64Held(m, entry.gpr[RSP], rip);
    }
  }

  // From any cut point of the prologue and any state of the body, one unwind gives the caller back.
  lemma VirtualUnwindRecovers(
    m: Memory, p: Prologue, e: Entry, links: seq<Link>, pc: int, k: nat, entry: Context, rip: u64, rsp: u64,
    ctx: Context, handlerType: nat)
    requires InFrame(m, p, e, links, pc, k, entry, rip, rsp, ctx)
    requires HandlerOf(m, links[|links| - 1], pc, handlerType).Some?
    ensures var u := VirtualUnwind(m, links[0].fn, pc, ctx, handlerType);
            && u.result.Ok? && Recovered(entry, rip, rsp, u.ctx)
            && (u.result.value.handler, u.result.value.handlerData)
               == HandlerOf(m, links[|links| - 1], pc, handlerType).value
            && (k == |p.steps| ==> u.result.value.establisherFrame == entry.gpr[RSP] - BaseDepth(p))
  {
    hide EstablisherFrame, UnwindChain, Finish, Runs, Undone, DescribesAll, FrameFits, Intact, HandlerOf, Home,
      WellFormed, CutAt, NamesFrame, PrologOffset, ReadUnwindInfo, BaseDepth, Recovered;
    var link, offset := links[0], PrologOffset(links[0].fn, pc);
    var frame := EstablisherFrame(link.info, offset, ctx);
    HeadFrame(p, e, link, k, offset, entry, ctx, m);
    var ws := UndoChain(m, p, e, links, pc, k, entry, rip, rsp, frame, Walk(ctx, false));
    RunsToFinish(m, links, pc, frame, ws, MAX_CHAIN, handlerType);
    FinishRecovers(m, p, e, links[|links| - 1], pc, entry, rip, rsp, frame, ws[|links|], handlerType);
  }

  // The info that the chain reaches after n links.
  function LinkAt(m: Memory, fn: RuntimeFunction, info: UnwindInfo, n: nat): Option<(RuntimeFunction, UnwindInfo)>
    decreases n, fn
  {
    if n == 0 then Some((fn, info))
    else if !info.Chained() then None
    else
      var next :- ReadLink(m, fn.imageBase, info.trailer);
      LinkAt(m, next.0, next.1, n - 1)
  }

  // A chain of more than fuel infos cannot be unwound, whatever its codes do.
  lemma {:induction false} LongChainFails(
    m: Memory, fn: RuntimeFunction, info: UnwindInfo, pc: int, frame: int, w: Walk, fuel: nat, handlerType: nat)
    requires LinkAt(m, fn, info, fuel).Some?
    ensures UnwindChain(m, fn, info, pc, frame, w, fuel, handlerType).result.Err?
    decreases fuel
  {
    hide UndoCodes, PrologOffset, Finish, ReadLink;
    if fuel > 0 {
      var next := ReadLink(m, fn.imageBase, info.trailer).value;
      var (w', _) := UndoCodes(m, info, frame, info.codes, PrologOffset(fn, pc), w);
      LongChainFails(m, next.0, next.1, pc, frame, w', fuel - 1, handlerType);
    }
  }

  // The error for the length of the chain means that there are that many infos.
  lemma {:induction false} TooLongMeansLong(
    m: Memory, fn: RuntimeFunction, info: UnwindInfo, pc: int, frame: int, w: Walk, fuel: nat, handlerType: nat)
    requires UnwindChain(m, fn, info, pc, frame, w, fuel, handlerType).result == Err(ChainTooLong)
    ensures LinkAt(m, fn, info, fuel).Some?
    decreases fuel
  {
    hide UndoCodes, PrologOffset, Finish, ReadLink;
    if fuel > 0 {
      var (w', _) := UndoCodes(m, info, frame, info.codes, PrologOffset(fn, pc), w);
      var next := ReadLink(m, fn.imageBase, info.trailer).value;
      TooLongMeansLong(m, next.0, next.1, pc, frame, w', fuel - 1, handlerType);
    }
  }

  // RtlVirtualUnwind refuses every chain of more than MAX_CHAIN infos.
  lemma ChainLimit(m: Memory, fn: RuntimeFunction, info: UnwindInfo, pc: int, ctx: Context, handlerType: nat)
    requires ReadUnwindInfo(m, fn.imageBase + fn.unwindInfo) == Some(info)
    ensures LinkAt(m, fn, info, MAX_CHAIN).Some? ==> VirtualUnwind(m, fn, pc, ctx, handlerType).result.Err?
    ensures VirtualUnwind(m, fn, pc, ctx, handlerType).result == Err(ChainTooLong)
      ==> LinkAt(m, fn, info, MAX_CHAIN).Some?
  {
    hide EstablisherFrame, UnwindChain, LinkAt;
    var frame := EstablisherFrame(info, PrologOffset(fn, pc), ctx);
    if LinkAt(m, fn, info, MAX_CHAIN).Some? {
      LongChainFails(m, fn, info, pc, frame, Walk(ctx, false), MAX_CHAIN, handlerType);
    }
    if VirtualUnwind(m, fn, pc, ctx, handlerType).result == Err(ChainTooLong) {
      TooLongMeansLong(m, fn, info, pc, frame, Walk(ctx, false), MAX_CHAIN, handlerType);
    }
  }

  // -- Running forward, then unwinding

  // The frame fits in the address space.
  ghost predicate Fits(p: Prologue, entry: Context) {
    Depth(p.steps, |p.steps|) <= entry.gpr[RSP] && entry.gpr[RSP] + 0x100 <= W64
  }

  ghost predicate Untouched(p: Prologue, k: nat, sp: int, a: int)
    requires k <= |p.steps|
  {
    forall i :: 0 <= i < k ==> !(sp + Cell(p, i).0 <= a < sp + Cell(p, i).0 + Cell(p, i).1)
  }

  // The state after k steps, field by field.
  ghost predicate Ran(p: Prologue, k: nat, s0: Machine, s: Machine)
    requires k <= |p.steps|
  {
    var sp: int := s0.ctx.gpr[RSP];
    && s.ctx.gpr[RSP] == sp - Depth(p.steps, k)
    && (FrameIndex(p) < k ==> s.ctx.gpr[p.fp] == sp - BaseDepth(p) + 16 * p.fpOff)
    && (forall r: nibble :: r != RSP && !(FrameIndex(p) < k && r == p.fp) ==> s.ctx.gpr[r] == s0.ctx.gpr[r])
    && s.ctx.xmm == s0.ctx.xmm
    && (forall i :: 0 <= i < k ==> Stored(p, i, s0.ctx, s.mem))
    && (forall a :: a in s0.mem && Untouched(p, k, sp, a) ==> a in s.mem && s.mem[a] == s0.mem[a])
  }

  lemma SaveSource(p: Prologue, home: nat, i: nat, s0: Machine, s: Machine)
    requires WellFormed(p, home) && i < |p.steps| && Ran(p, i, s0, s)
    ensures IsSave(p.steps[i].instr) ==> SaveBase(p, i, s.ctx) == s0.ctx.gpr[RSP] - BaseDepth(p)
    ensures p.steps[i].instr.Push? || p.steps[i].instr.SaveGpr? ==>
              s.ctx.gpr[p.steps[i].instr.reg] == s0.ctx.gpr[p.steps[i].instr.reg]
  {
    hide Stored, Untouched, Cell, Depth;
  }

  lemma StepWrites(p: Prologue, home: nat, i: nat, s0: Machine, s: Machine)
    requires WellFormed(p, home) && Fits(p, s0.ctx) && i < |p.steps| && Ran(p, i, s0, s)
    ensures ExecStep(p, i, s).mem == Write(s.mem, s0.ctx.gpr[RSP] + Cell(p, i).0, Content(p, i, s0.ctx))
  {
    if p.steps[i].instr.Push? {
      PushWrites(p, home, i, s0, s);
    } else {
      SaveWrites(p, home, i, s0, s);
    }
  }

  lemma PushWrites(p: Prologue, home: nat, i: nat, s0: Machine, s: Machine)
    requires WellFormed(p, home) && Fits(p, s0.ctx) && i < |p.steps| && Ran(p, i, s0, s) && p.steps[i].instr.Push?
    ensures ExecStep(p, i, s).mem == Write(s.mem, s0.ctx.gpr[RSP] + Cell(p, i).0, Content(p, i, s0.ctx))
  {
    hide Stored, Untouched, Write, ToLE, SaveBase, FrameIndex, Apart, Saves, FrameFrom, BaseDepth;
    SaveSource(p, home, i, s0, s);
    DepthGrows(p.steps, i + 1, |p.steps|);
    hide WellFormed;
  }

  lemma SaveWrites(p: Prologue, home: nat, i: nat, s0: Machine, s: Machine)
    requires WellFormed(p, home) && Fits(p, s0.ctx) && i < |p.steps| && Ran(p, i, s0, s) && !p.steps[i].instr.Push?
    ensures ExecStep(p, i, s).mem == Write(s.mem, s0.ctx.gpr[RSP] + Cell(p, i).0, Content(p, i, s0.ctx))
  {
    hide Stored, Untouched, ToLE, SaveBase, FrameIndex, Apart, Saves, FrameFrom, BaseDepth, Depth;
    SaveSource(p, home, i, s0, s);
    hide WellFormed;
  }

  lemma StepRegisters(p: Prologue, home: nat, i: nat, s0: Machine, s: Machine)
    requires WellFormed(p, home) && Fits(p, s0.ctx) && i < |p.steps| && Ran(p, i, s0, s)
    ensures var (c, sp) := (ExecStep(p, i, s).ctx, s0.ctx.gpr[RSP] as int);
            && c.gpr[RSP] == sp - Depth(p.steps, i + 1)
            && (FrameIndex(p) < i + 1 ==> c.gpr[p.fp] == sp - BaseDepth(p) + 16 * p.fpOff)
            && (forall r: nibble :: r != RSP && !(FrameIndex(p) < i + 1 && r == p.fp) ==> c.gpr[r] == s0.ctx.gpr[r])
            && c.xmm == s0.ctx.xmm
  {
    hide Stored, Untouched, Write, Cell, Content;
    DepthGrows(p.steps, i + 1, |p.steps|);
  }

  lemma StoredElsewhere(p: Prologue, home: nat, i: nat, j: nat, entry: Context, m: Memory)
    requires WellFormed(p, home) && i < j < |p.steps| && Stored(p, i, entry, m)
    ensures Stored(p, i, entry, Write(m, entry.gpr[RSP] + Cell(p, j).0, Content(p, j, entry)))
  {
    assert Apart(Cell(p, i), Cell(p, j));
  }

  lemma StepStores(p: Prologue, home: nat, i: nat, s0: Machine, s: Machine)
    requires WellFormed(p, home) && i < |p.steps| && Ran(p, i, s0, s)
    ensures var m := Write(s.mem, s0.ctx.gpr[RSP] + Cell(p, i).0, Content(p, i, s0.ctx));
            && (forall j :: 0 <= j < i + 1 ==> Stored(p, j, s0.ctx, m))
            && (forall a :: a in s0.mem && Untouched(p, i + 1, s0.ctx.gpr[RSP], a) ==> a in m && m[a] == s0.mem[a])
  {
    var m := Write(s.mem, s0.ctx.gpr[RSP] + Cell(p, i).0, Content(p, i, s0.ctx));
    forall j | 0 <= j < i ensures Stored(p, j, s0.ctx, m) {
      StoredElsewhere(p, home, j, i, s0.ctx, s.mem);
    }
    assert Stored(p, i, s0.ctx, m);
    hide WellFormed, Content;
    assert forall a :: Untouched(p, i + 1, s0.ctx.gpr[RSP], a) ==> Untouched(p, i, s0.ctx.gpr[RSP], a);
  }

  lemma {:induction false} ExecRuns(p: Prologue, home: nat, k: nat, s0: Machine)
    requires WellFormed(p, home) && Fits(p, s0.ctx) && k <= |p.steps|
    ensures Ran(p, k, s0, Exec(p, k, s0))
  {
    if k > 0 {
      var i, s := k - 1, Exec(p, k - 1, s0);
      ExecRuns(p, home, i, s0);
      assert Exec(p, k, s0) == ExecStep(p, i, s);
      StepRuns(p, home, i, s0, s);
    } else {
      hide WellFormed, Cell, Content, Stored, Untouched, Fits;
      assert Exec(p, k, s0) == s0;
    }
  }

  lemma StepRuns(p: Prologue, home: nat, i: nat, s0: Machine, s: Machine)
    requires WellFormed(p, home) && Fits(p, s0.ctx) && i < |p.steps| && Ran(p, i, s0, s)
    ensures Ran(p, i + 1, s0, ExecStep(p, i, s))
  {
    hide WellFormed, ExecStep, Cell, Content, Stored, Untouched, Write, Fits, Depth, FrameIndex, BaseDepth;
    StepWrites(p, home, i, s0, s);
    StepRegisters(p, home, i, s0, s);
    StepStores(p, home, i, s0, s);
  }

  lemma ExecIntact(p: Prologue, e: Entry, k: nat, s0: Machine, rip: u64, rsp: u64)
    requires WellFormed(p, HomeSize(e)) && Fits(p, s0.ctx) && k <= |p.steps|
    requires Home(e, s0.ctx, rip, rsp, s0.mem)
    ensures var s := Exec(p, k, s0);
            Intact(p, k, s0.ctx, s.ctx, s.mem) && Home(e, s0.ctx, rip, rsp, s.mem)
  {
    hide Exec, Cell, Content;
    ExecRuns(p, HomeSize(e), k, s0);
    var sp: int := s0.ctx.gpr[RSP];
    forall a | sp <= a < sp + HomeSize(e) ensures Untouched(p, k, sp, a) {
      assert forall i :: 0 <= i < k ==> Apart(Cell(p, i), (0, HomeSize(e)));
    }
  }

  // What the body of a function may do: anything but to its frame and to the registers that it did not save.
  ghost predicate BodyMay(p: Prologue, e: Entry, sp: int, s: Machine, s': Machine) {
    var n, f := |p.steps|, FrameIndex(p);
    && (forall i, a :: 0 <= i < n && sp + Cell(p, i).0 <= a < sp + Cell(p, i).0 + Cell(p, i).1 && a in s.mem ==>
          a in s'.mem && s'.mem[a] == s.mem[a])
    && (forall a :: sp <= a < sp + HomeSize(e) && a in s.mem ==> a in s'.mem && s'.mem[a] == s.mem[a])
    && (forall r: nibble :: Nonvolatile(r) && KeepsGpr(p, n, r) ==> s'.ctx.gpr[r] == s.ctx.gpr[r])
    && (forall r: nibble :: NonvolatileXmm(r) && KeepsXmm(p, n, r) ==> s'.ctx.xmm[r] == s.ctx.xmm[r])
    && (f < n ==> s'.ctx.gpr[p.fp] == s.ctx.gpr[p.fp])
    && (s'.ctx.gpr[RSP] == s.ctx.gpr[RSP] || (f < n && forall i :: f < i < n ==> !p.steps[i].instr.Push?))
  }

  lemma BodyIntact(p: Prologue, e: Entry, entry: Context, rip: u64, rsp: u64, s: Machine, s': Machine)
    requires Intact(p, |p.steps|, entry, s.ctx, s.mem) && Home(e, entry, rip, rsp, s.mem)
    requires BodyMay(p, e, entry.gpr[RSP], s, s')
    ensures Intact(p, |p.steps|, entry, s'.ctx, s'.mem) && Home(e, entry, rip, rsp, s'.mem)
  {
    hide Cell, Content;
    forall i | 0 <= i < |p.steps| ensures Stored(p, i, entry, s'.mem) {
      assert Stored(p, i, entry, s.mem);
    }
  }

  // The bytes of an unwind info in memory that describe the whole prologue of a function.
  ghost predicate InfoInMemory(m: Memory, p: Prologue, e: Entry, fn: RuntimeFunction, info: UnwindInfo) {
    && info.flags < 32 && |EncodeCodes(info.codes)| / 2 < 256
    && (forall c :: c in info.codes ==> Encodable(c))
    && Holds(m, fn.imageBase + fn.unwindInfo, EncodeInfo(info))
    && info.trailer == TrailerOf(fn.imageBase + fn.unwindInfo, |EncodeCodes(info.codes)| / 2)
    && !info.Chained() && DescribesAll(p, e, 0, |p.steps|, info)
  }

  lemma WholeInFrame(
    m: Memory, p: Prologue, e: Entry, fn: RuntimeFunction, info: UnwindInfo, pc: int, k: nat, entry: Context,
    rip: u64, rsp: u64, ctx: Context)
    requires WellFormed(p, HomeSize(e)) && Fits(p, entry) && Home(e, entry, rip, rsp, m)
    requires CutAt(p, 0, |p.steps|, k, PrologOffset(fn, pc)) && NamesFrame(p, Link(fn, info, 0, |p.steps|), k)
    requires InfoInMemory(m, p, e, fn, info) && Intact(p, k, entry, ctx, m)
    ensures InFrame(m, p, e, [Link(fn, info, 0, |p.steps|)], pc, k, entry, rip, rsp, ctx)
  {
    hide WellFormed, Home, DescribesAll, EncodeInfo, EncodeCodes, Encodable, ReadUnwindInfo, Intact, CutAt, NamesFrame;
    ReadEncodedInfo(m, fn.imageBase + fn.unwindInfo, info);
  }

  // Run a prologue from a call or an interrupt up to any cut point, or all of it and any body, then unwind with
  // the encoded unwind data: the caller's rip, rsp and nonvolatile registers come back.
  lemma PrologueRoundTrip(
    p: Prologue, e: Entry, fn: RuntimeFunction, info: UnwindInfo, pc: int, k: nat, s0: Machine, rip: u64, rsp: u64,
    s: Machine)
    requires WellFormed(p, HomeSize(e)) && Fits(p, s0.ctx) && Home(e, s0.ctx, rip, rsp, s0.mem)
    requires CutAt(p, 0, |p.steps|, k, PrologOffset(fn, pc)) && NamesFrame(p, Link(fn, info, 0, |p.steps|), k)
    requires s == Exec(p, k, s0) || (k == |p.steps| && BodyMay(p, e, s0.ctx.gpr[RSP], Exec(p, k, s0), s))
    requires InfoInMemory(s.mem, p, e, fn, info)
    ensures var u := VirtualUnwind(s.mem, fn, pc, s.ctx, 0);
            u.result.Ok? && Recovered(s0.ctx, rip, rsp, u.ctx)
  {
    assert k <= |p.steps|;
    hide WellFormed, BodyMay, Home, DescribesAll, EncodeInfo, Intact, CutAt, NamesFrame, VirtualUnwind, Recovered,
      Exec;
    ExecIntact(p, e, k, s0, rip, rsp);
    if s != Exec(p, k, s0) {
      BodyIntact(p, e, s0.ctx, rip, rsp, Exec(p, k, s0), s);
    }
    WholeInFrame(s.mem, p, e, fn, info, pc, k, s0.ctx, rip, rsp, s.ctx);
    VirtualUnwindRecovers(s.mem, p, e, [Link(fn, info, 0, |p.steps|)], pc, k, s0.ctx, rip, rsp, s.ctx, 0);
  }
}
