// speakeasy/windows/seh64.py: where unwind_to and __C_specific_handler meet. An unwind walks the stack and calls the
// handler of each frame; the handlers read the scope tables and run the __finally blocks.

module CFrames {
  import opened Options
  import opened Bytes
  import opened CSpecificHandler
  import opened Seh64
  import opened Unwind

  // SCOPE_TABLE records, of 16 bytes each
  function UnpackScopes(data: seq<byte>): seq<Scope> {
    if |data| < 16 then []
    else
      [Scope(FromLE(data[..4]), FromLE(data[4..8]), FromLE(data[8..12]), FromLE(data[12..16]))]
      + UnpackScopes(data[16..])
  }

  // The scope table in the handler data of a frame
  function ReadScopes(m: Memory, address: int): Option<seq<Scope>> {
    var count :- ReadU32(m, address);
    var data :- Read(m, address + 4, 16 * count);
    Some(UnpackScopes(data))
  }

  // The handlers of some scopes
  function Addresses(scopes: seq<Scope>, base: int, runs: seq<nat>): seq<int>
    requires forall k :: 0 <= k < |runs| ==> runs[k] < |scopes|
  {
    if runs == [] then [] else [base + scopes[runs[0]].handler] + Addresses(scopes, base, runs[1..])
  }

  // The __finally blocks that one call of a handler runs. handler is the address of __C_specific_handler; calls of
  // other handlers run none.
  function BlocksOf(handler: int, c: HandlerCall): Option<seq<int>> {
    var d := c.dispatcher;
    if d.handler != handler then Some([])
    else
      var scopes :- ReadScopes(c.at, d.handlerData);
      var runs := Finallys(scopes, d.controlPc - d.imageBase, d.targetIp - d.imageBase, c.flags.targetUnwind,
        d.scopeIndex);
      Some(Addresses(scopes, d.imageBase, runs))
  }

  function BlocksRun(handler: int, calls: seq<HandlerCall>): Option<seq<int>> {
    if calls == [] then Some([])
    else
      var first :- BlocksOf(handler, calls[0]);
      var rest :- BlocksRun(handler, calls[1..]);
      Some(first + rest)
  }

  // The scope tables of frames by the address of their handler data
  type Tables = int -> seq<Scope>

  // The blocks that an unwind must run in a frame: ip is where it goes.
  function FrameBlocks(handler: int, tables: Tables, f: Frame, ip: int, isTarget: bool): seq<int> {
    if f.info.handler != handler then []
    else
      var scopes := tables(f.info.handlerData);
      Addresses(scopes, f.fn.imageBase, Finallys(scopes, f.ctx.rip - f.fn.imageBase, ip - f.fn.imageBase, isTarget, 0))
  }

  function UnwindBlocks(handler: int, tables: Tables, fs: seq<Frame>, target: int, ip: int): seq<int> {
    if fs == [] then []
    else FrameBlocks(handler, tables, fs[0], ip, fs[0].info.establisherFrame == target)
         + UnwindBlocks(handler, tables, fs[1..], target, ip)
  }

  // The scope tables of the frames stay in memory.
  ghost predicate TablesKept(inv: Memory -> bool, handler: int, tables: Tables, fs: seq<Frame>) {
    forall m, f :: inv(m) && f in fs && f.info.handler == handler ==>
                     ReadScopes(m, f.info.handlerData) == Some(tables(f.info.handlerData))
  }

  lemma {:induction false} CallsRunBlocks(
    inv: Memory -> bool, handler: int, tables: Tables, r: Request, calls: seq<HandlerCall>, fs: seq<Frame>)
    requires CallsMade(inv, r, calls, fs) && TablesKept(inv, handler, tables, fs) && !r.flags.targetUnwind
    ensures BlocksRun(handler, calls) == Some(UnwindBlocks(handler, tables, fs, r.target, r.ip))
    decreases |fs|
  {
    hide Finallys, ReadScopes, Addresses;
    if fs != [] {
      assert CallMade(inv, r, calls[0], fs[0]);
      assert BlocksOf(handler, calls[0])
          == Some(FrameBlocks(handler, tables, fs[0], r.ip, fs[0].info.establisherFrame == r.target));
      assert forall i :: 0 <= i < |fs| - 1 ==> calls[1..][i] == calls[i + 1] && fs[1..][i] == fs[i + 1];
      CallsRunBlocks(inv, handler, tables, r, calls[1..], fs[1..]);
    }
  }

  // On a stack of any depth, RtlUnwindEx runs the __finally blocks of each frame up to the target, frame after frame,
  // innermost first; only in the target frame it leaves the blocks that hold the target.
  lemma UnwindRunsBlocks(
    env: Env, guest: Guest, inv: Memory -> bool, m: Memory, stack: seq<Activation>, cs: seq<Context>, x: Context,
    r: Request, fuel: nat, n: nat, handler: int, tables: Tables)
    requires inv(m) && StackKept(env, guest, inv, stack, cs, UNW_FLAG_UHANDLER) && |cs| == |stack| + 1
    requires SameState(x, cs[0]) && |stack| <= fuel && (|stack| == fuel || AtEnd(cs[|stack|].rip))
    requires !r.flags.targetUnwind
    requires TablesKept(inv, handler, tables, Handled(UpToTarget(FramesOf(stack, cs), r.target)))
    ensures var calls := UnwindTo(env, guest, m, x, r, fuel, n).0;
            BlocksRun(handler, calls)
              == Some(UnwindBlocks(handler, tables, Handled(UpToTarget(FramesOf(stack, cs), r.target)), r.target, r.ip))
  {
    hide StackKept, SameState, AtEnd, UnwindTo, FramesOf, Handled, UpToTarget, CallsMade, TablesKept, BlocksRun,
      UnwindBlocks;
    UnwindToExact(env, guest, inv, m, stack, cs, x, r, fuel, n);
    CallsRunBlocks(inv, handler, tables, r, UnwindTo(env, guest, m, x, r, fuel, n).0,
      Handled(UpToTarget(FramesOf(stack, cs), r.target)));
  }

  lemma {:induction false} HandledJoin(fs: seq<Frame>, f: Frame)
    ensures Handled(fs + [f]) == Handled(fs) + if f.info.handler == 0 then [] else [f]
  {
    if fs == [] {
      assert [] + [f] == [f] && [f][1..] == [];
    } else {
      var here := if fs[0].info.handler == 0 then [] else [fs[0]];
      assert (fs + [f])[1..] == fs[1..] + [f];
      assert Handled(fs + [f]) == here + Handled(fs[1..] + [f]) && Handled(fs) == here + Handled(fs[1..]);
      hide Handled;
      HandledJoin(fs[1..], f);
    }
  }

  lemma {:induction false} BlocksJoin(
    handler: int, tables: Tables, fs: seq<Frame>, f: Frame, target: int, ip: int)
    ensures UnwindBlocks(handler, tables, fs + [f], target, ip)
         == UnwindBlocks(handler, tables, fs, target, ip)
            + FrameBlocks(handler, tables, f, ip, f.info.establisherFrame == target)
  {
    hide FrameBlocks;
    if fs == [] {
      assert [] + [f] == [f] && [f][1..] == [];
    } else {
      assert (fs + [f])[1..] == fs[1..] + [f];
      BlocksJoin(handler, tables, fs[1..], f, target, ip);
    }
  }

  // In the frames inside the target, the blocks run are all those that cover the pc of the frame.
  lemma {:induction false} InnerBlocks(handler: int, tables: Tables, fs: seq<Frame>, target: int, ip: int)
    requires forall f :: f in fs ==> f.info.establisherFrame != target
    ensures UnwindBlocks(handler, tables, fs, target, ip) == CoveringBlocks(handler, tables, fs)
  {
    hide FrameBlocks;
    if fs != [] {
      assert fs[0] in fs;
      AnyTarget(handler, tables, fs[0], ip, 0);
      InnerBlocks(handler, tables, fs[1..], target, ip);
    }
  }

  // The same without a target
  function CoveringBlocks(handler: int, tables: Tables, fs: seq<Frame>): seq<int> {
    if fs == [] then [] else FrameBlocks(handler, tables, fs[0], 0, false) + CoveringBlocks(handler, tables, fs[1..])
  }

  lemma AnyTarget(handler: int, tables: Tables, f: Frame, ip: int, ip': int)
    ensures FrameBlocks(handler, tables, f, ip, false) == FrameBlocks(handler, tables, f, ip', false)
  {
    AnyTargetPc(tables(f.info.handlerData), f.ctx.rip - f.fn.imageBase, ip - f.fn.imageBase, ip' - f.fn.imageBase, 0);
  }

  lemma {:induction false} AnyTargetPc(scopes: seq<Scope>, pc: int, a: int, b: int, i: nat)
    ensures Finallys(scopes, pc, a, false, i) == Finallys(scopes, pc, b, false, i)
    decreases |scopes| - i
  {
    if i < |scopes| {
      AnyTargetPc(scopes, pc, a, b, i + 1);
    }
  }

  lemma {:induction false} HandledAre(fs: seq<Frame>, f: Frame)
    requires f in Handled(fs)
    ensures f in fs
  {
    if f != fs[0] {
      HandledAre(fs[1..], f);
    }
  }

  // The search of the handler of frame f chose scope i, whose __except block is outside of its own __try block, and the
  // request is to unwind there.
  ghost predicate Chosen(tables: Tables, f: Frame, r: Request, values: nat -> int, i: nat) {
    var scopes, pc := tables(f.info.handlerData), f.ctx.rip - f.fn.imageBase;
    && InnerFirst(scopes, pc) && Search(scopes, pc, values, 0) == Execute(i)
    && !InBlock(scopes, scopes[i], scopes[i].target) && r.ip == f.fn.imageBase + scopes[i].target
    && r.target == f.info.establisherFrame
  }

  // The blocks of the target frame that the unwind runs are those that it leaves, and every block inside scope i.
  ghost predicate RunsToBlock(scopes: seq<Scope>, pc: int, i: nat, runs: seq<nat>) {
    && i < |scopes| && Increasing(runs) && (forall k :: 0 <= k < |runs| ==> runs[k] < |scopes|)
    && (forall j :: j in runs <==> 0 <= j && Leaves(scopes, pc, scopes[i].target, true, j))
    && (forall j :: 0 <= j < i && Covers(scopes[j], pc) && scopes[j].target == 0 ==> j in runs)
  }

  lemma TargetBlocks(
    handler: int, tables: Tables, f: Frame, r: Request, values: nat -> int, i: nat)
    returns (runs: seq<nat>)
    requires f.info.handler == handler && Chosen(tables, f, r, values, i)
    ensures var scopes := tables(f.info.handlerData);
            && RunsToBlock(scopes, f.ctx.rip - f.fn.imageBase, i, runs)
            && FrameBlocks(handler, tables, f, r.ip, true) == Addresses(scopes, f.fn.imageBase, runs)
  {
    hide InBlock, Covers, Addresses, Finallys;
    var scopes, pc := tables(f.info.handlerData), f.ctx.rip - f.fn.imageBase;
    TwoPhases(scopes, pc, values, i);
    FinallysExact(scopes, pc, scopes[i].target, true, 0);
    runs := Finallys(scopes, pc, scopes[i].target, true, 0);
  }

  lemma BlocksToTarget(
    handler: int, tables: Tables, fs: seq<Frame>, r: Request, t: nat)
    requires handler != 0 && t < |fs| && t == TargetIndex(fs, r.target)
    ensures UnwindBlocks(handler, tables, Handled(UpToTarget(fs, r.target)), r.target, r.ip)
         == CoveringBlocks(handler, tables, Handled(fs[..t])) + FrameBlocks(handler, tables, fs[t], r.ip, true)
  {
    assert UpToTarget(fs, r.target) == fs[..t] + [fs[t]];
    assert fs[t].info.handler == 0 ==> FrameBlocks(handler, tables, fs[t], r.ip, true) == [];
    hide TargetIndex, UpToTarget, Handled, UnwindBlocks, CoveringBlocks, FrameBlocks;
    HandledJoin(fs[..t], fs[t]);
    if fs[t].info.handler == 0 {
      var covering := CoveringBlocks(handler, tables, Handled(fs[..t]));
      assert Handled(fs[..t]) + [] == Handled(fs[..t]) && covering + [] == covering;
    } else {
      BlocksJoin(handler, tables, Handled(fs[..t]), fs[t], r.target, r.ip);
    }
    forall f | f in Handled(fs[..t]) ensures f.info.establisherFrame != r.target {
      HandledAre(fs[..t], f);
    }
    InnerBlocks(handler, tables, Handled(fs[..t]), r.target, r.ip);
  }

  // From the choice of a scope to its block. The search chose scope i of frame t, so its handler unwinds to the
  // __except block of that scope. The unwind runs every __finally block that covers the pc of a frame inside
  // frame t, frame after frame, and then those of frame t that RunsToBlock says. It goes on in the __except block with
  // the registers of frame t, but for rip and rax.
  lemma ExceptReachesBlock(
    env: Env, guest: Guest, inv: Memory -> bool, m: Memory, stack: seq<Activation>, cs: seq<Context>, x: Context,
    r: Request, fuel: nat, n: nat, handler: int, tables: Tables, t: nat, values: nat -> int, i: nat)
    returns (runs: seq<nat>)
    requires inv(m) && StackKept(env, guest, inv, stack, cs, UNW_FLAG_UHANDLER) && |cs| == |stack| + 1
    requires SameState(x, cs[0]) && |stack| <= fuel && (|stack| == fuel || AtEnd(cs[|stack|].rip))
    requires !r.flags.targetUnwind && handler != 0
    requires TablesKept(inv, handler, tables, Handled(UpToTarget(FramesOf(stack, cs), r.target)))
    requires t < |FramesOf(stack, cs)| && t == TargetIndex(FramesOf(stack, cs), r.target)
    requires FramesOf(stack, cs)[t].info.handler == handler && Chosen(tables, FramesOf(stack, cs)[t], r, values, i)
    ensures var fs := FramesOf(stack, cs);
            var f, scopes := fs[t], tables(fs[t].info.handlerData);
            var (calls, result) := UnwindTo(env, guest, m, x, r, fuel, n);
            && RunsToBlock(scopes, f.ctx.rip - f.fn.imageBase, i, runs)
            && BlocksRun(handler, calls)
                 == Some(CoveringBlocks(handler, tables, Handled(fs[..t])) + Addresses(scopes, f.fn.imageBase, runs))
            && result.Resumed? && exists y :: SameState(y, f.ctx) && result.ctx == ResumeAt(y, r.ip, r.value)
  {
    hide StackKept, SameState, AtEnd, UnwindTo, FramesOf, Handled, CallsMade, TablesKept, BlocksRun, UnwindBlocks,
      CoveringBlocks, Addresses, ResumeAt, TargetIndex, UpToTarget, Chosen, FrameBlocks;
    var fs := FramesOf(stack, cs);
    UnwindToExact(env, guest, inv, m, stack, cs, x, r, fuel, n);
    UnwindRunsBlocks(env, guest, inv, m, stack, cs, x, r, fuel, n, handler, tables);
    BlocksToTarget(handler, tables, fs, r, t);
    runs := TargetBlocks(handler, tables, fs[t], r, values, i);
  }

  // -- The search

  // How the search ends: a handler chose the __except block of a scope of its frame, a handler continued execution, no
  // handler took the exception, or a read failed.
  datatype Decision = Took(frame: Frame, scope: nat) | Continued | NotTaken | Faulted

  // What guest call n of the search answers: values(n) gives what the filters of a frame return, and other(n) the
  // disposition of a handler that is not __C_specific_handler.
  datatype Answers = Answers(values: nat -> nat -> int, other: nat -> int)

  function AnswerOf(handler: int, scopes: seq<Scope>, a: Answers, f: Frame, n: nat): Verdict {
    if f.info.handler == handler then Search(scopes, f.ctx.rip - f.fn.imageBase, a.values(n), 0)
    else if a.other(n) == Seh64.CONTINUE_EXECUTION then ContinueExecution
    else ContinueSearch
  }

  // dispatch_exception after the vectored handlers. The handler that takes the exception does not come back.
  function SearchStack(
    env: Env, guest: Guest, handler: int, a: Answers, m: Memory, ctx: Context, fuel: nat, n: nat)
    : (seq<Dispatcher>, Decision)
    decreases fuel, n
  {
    if fuel == 0 then ([], NotTaken)
    else
      match WalkOnce(env, m, ctx, UNW_FLAG_EHANDLER)
      case Ended => ([], NotTaken)
      case Faulted => ([], Decision.Faulted)
      case Moved(c) => SearchStack(env, guest, handler, a, m, c, fuel - 1, n)
      case Yielded(f, c) =>
        if f.info.handler == 0 then SearchStack(env, guest, handler, a, m, c, fuel - 1, n)
        else
          var call, scopes := DispatcherOf(f, 0), ReadScopes(m, f.info.handlerData);
          if f.info.handler == handler && scopes.None? then ([call], Decision.Faulted)
          else
            match AnswerOf(handler, if scopes.Some? then scopes.value else [], a, f, n)
            case Execute(i) => ([call], Took(f, i))
            case ContinueExecution => ([call], Continued)
            case ContinueSearch =>
              var (rest, d) := SearchStack(env, guest, handler, a, guest(n, m), c, fuel - 1, n + 1);
              ([call] + rest, d)
  }

  // The same on a list of frames
  function SearchOf(handler: int, tables: Tables, a: Answers, fs: seq<Frame>, n: nat): (seq<Dispatcher>, Decision)
    decreases |fs|
  {
    if fs == [] then ([], NotTaken)
    else if fs[0].info.handler == 0 then SearchOf(handler, tables, a, fs[1..], n)
    else
      var call := DispatcherOf(fs[0], 0);
      match AnswerOf(handler, tables(fs[0].info.handlerData), a, fs[0], n)
      case Execute(i) => ([call], Took(fs[0], i))
      case ContinueExecution => ([call], Continued)
      case ContinueSearch =>
        var (rest, d) := SearchOf(handler, tables, a, fs[1..], n + 1);
        ([call] + rest, d)
  }

  ghost predicate SameDecision(d: Decision, d': Decision) {
    match d
    case Took(f, i) => d'.Took? && SameFrame(f, d'.frame) && i == d'.scope
    case _ => d == d'
  }

  // What one frame adds to the search from the frames outside it
  function Combine(
    handler: int, tables: Tables, a: Answers, f: Frame, n: nat, skipped: (seq<Dispatcher>, Decision),
    searched: (seq<Dispatcher>, Decision)): (seq<Dispatcher>, Decision)
  {
    if f.info.handler == 0 then skipped
    else
      match AnswerOf(handler, tables(f.info.handlerData), a, f, n)
      case Execute(i) => ([DispatcherOf(f, 0)], Took(f, i))
      case ContinueExecution => ([DispatcherOf(f, 0)], Continued)
      case ContinueSearch => ([DispatcherOf(f, 0)] + searched.0, searched.1)
  }

  lemma SearchedFrame(
    env: Env, guest: Guest, handler: int, tables: Tables, a: Answers, m: Memory, x: Context, fuel: nat, n: nat)
    requires fuel > 0 && WalkOnce(env, m, x, UNW_FLAG_EHANDLER).Yielded?
    requires var f := WalkOnce(env, m, x, UNW_FLAG_EHANDLER).frame;
             f.info.handler == handler ==> ReadScopes(m, f.info.handlerData) == Some(tables(f.info.handlerData))
    ensures var step := WalkOnce(env, m, x, UNW_FLAG_EHANDLER);
            SearchStack(env, guest, handler, a, m, x, fuel, n)
              == Combine(
                   handler, tables, a, step.frame, n, SearchStack(env, guest, handler, a, m, step.ctx, fuel - 1, n),
                   SearchStack(env, guest, handler, a, guest(n, m), step.ctx, fuel - 1, n + 1))
  {
    hide WalkOnce, ReadScopes, Search;
  }

  lemma SearchedMove(
    env: Env, guest: Guest, handler: int, a: Answers, m: Memory, x: Context, fuel: nat, n: nat)
    requires fuel > 0 && WalkOnce(env, m, x, UNW_FLAG_EHANDLER).Moved?
    ensures SearchStack(env, guest, handler, a, m, x, fuel, n)
         == SearchStack(env, guest, handler, a, m, WalkOnce(env, m, x, UNW_FLAG_EHANDLER).ctx, fuel - 1, n)
  {
    hide WalkOnce;
  }

  lemma SearchedEnd(
    env: Env, guest: Guest, handler: int, a: Answers, m: Memory, c: Context, x: Context, fuel: nat, n: nat)
    requires SameState(x, c) && (fuel == 0 || AtEnd(c.rip))
    ensures SearchStack(env, guest, handler, a, m, x, fuel, n) == ([], NotTaken)
  {
    hide WalkOnce, AtEnd;
    EndOfWalk(env, m, x, c, UNW_FLAG_EHANDLER);
  }

  lemma SearchOfFirst(handler: int, tables: Tables, a: Answers, f: Frame, fs: seq<Frame>, n: nat)
    ensures SearchOf(handler, tables, a, [f] + fs, n)
         == Combine(
              handler, tables, a, f, n, SearchOf(handler, tables, a, fs, n), SearchOf(handler, tables, a, fs, n + 1))
  {
    hide AnswerOf;
    assert ([f] + fs)[1..] == fs;
  }

  // Frames that are the same to an unwind make the same difference.
  lemma CombineSame(
    handler: int, tables: Tables, a: Answers, y: Frame, f: Frame, n: nat, r: (seq<Dispatcher>, Decision),
    r': (seq<Dispatcher>, Decision), q: (seq<Dispatcher>, Decision), q': (seq<Dispatcher>, Decision))
    requires SameFrame(y, f)
    requires f.info.handler == 0 ==> r.0 == r'.0 && SameDecision(r.1, r'.1)
    requires f.info.handler != 0 && AnswerOf(handler, tables(f.info.handlerData), a, f, n).ContinueSearch? ==>
               q.0 == q'.0 && SameDecision(q.1, q'.1)
    ensures var (c, c') := (Combine(handler, tables, a, y, n, r, q), Combine(handler, tables, a, f, n, r', q'));
            c.0 == c'.0 && SameDecision(c.1, c'.1)
  {
    SameAnswer(handler, tables(f.info.handlerData), a, y, f, n);
    hide AnswerOf, SameState;
  }

  lemma SameAnswer(handler: int, scopes: seq<Scope>, a: Answers, y: Frame, f: Frame, n: nat)
    requires SameFrame(y, f)
    ensures AnswerOf(handler, scopes, a, y, n) == AnswerOf(handler, scopes, a, f, n)
    ensures DispatcherOf(y, 0) == DispatcherOf(f, 0) && y.info == f.info
  {
  }

  // On a stack of any depth, the search calls the handlers frame after frame, up to the first that decides, and each
  // __C_specific_handler decides by the filters of its scope table.
  lemma {:induction false} SearchStackExact(
    env: Env, guest: Guest, inv: Memory -> bool, m: Memory, stack: seq<Activation>, cs: seq<Context>, x: Context,
    handler: int, tables: Tables, a: Answers, fuel: nat, n: nat)
    requires inv(m) && StackKept(env, guest, inv, stack, cs, UNW_FLAG_EHANDLER) && |cs| == |stack| + 1
    requires SameState(x, cs[0]) && |stack| <= fuel && (|stack| == fuel || AtEnd(cs[|stack|].rip))
    requires TablesKept(inv, handler, tables, FramesOf(stack, cs))
    ensures var (calls, d) := SearchStack(env, guest, handler, a, m, x, fuel, n);
            var (calls', d') := SearchOf(handler, tables, a, FramesOf(stack, cs), n);
            calls == calls' && SameDecision(d, d')
    decreases |stack|
  {
    hide WalkOnce, Linked, StackOk, SameState, AtEnd, FrameOf, StackKept, FramesOf, SearchStack, SearchOf, AnswerOf,
      SameDecision, Combine, SameFrame, ReadScopes;
    if stack == [] {
      SearchedEnd(env, guest, handler, a, m, cs[0], x, fuel, n);
      NothingFound(handler, tables, a, cs, n);
    } else {
      KeptTail(env, guest, inv, stack, cs, UNW_FLAG_EHANDLER);
      KeptHere(env, guest, inv, stack, cs, UNW_FLAG_EHANDLER, m, n);
      StackTail(env, m, stack, cs, UNW_FLAG_EHANDLER);
      FirstFrame(stack, cs);
      var rest := FramesOf(stack[1..], cs[1..]);
      if !stack[0].Function? {
        assert [] + rest == rest;
        StepOnOther(env, m, stack[0], cs[0], cs[1], x, UNW_FLAG_EHANDLER);
        SearchedMove(env, guest, handler, a, m, x, fuel, n);
        var step := WalkOnce(env, m, x, UNW_FLAG_EHANDLER);
        SearchStackExact(env, guest, inv, m, stack[1..], cs[1..], step.ctx, handler, tables, a, fuel - 1, n);
      } else {
        StepOnFunction(env, m, stack[0], cs[0], cs[1], x, UNW_FLAG_EHANDLER);
        var step, f := WalkOnce(env, m, x, UNW_FLAG_EHANDLER), FrameOf(stack[0], cs[0]);
        TablesHere(inv, handler, tables, m, step.frame, f, rest);
        SearchedFrame(env, guest, handler, tables, a, m, x, fuel, n);
        SearchOfFirst(handler, tables, a, f, rest, n);
        SearchStackExact(env, guest, inv, m, stack[1..], cs[1..], step.ctx, handler, tables, a, fuel - 1, n);
        SearchStackExact(env, guest, inv, guest(n, m), stack[1..], cs[1..], step.ctx, handler, tables, a, fuel - 1,
          n + 1);
        CombineSame(
          handler, tables, a, step.frame, f, n, SearchStack(env, guest, handler, a, m, step.ctx, fuel - 1, n),
          SearchOf(handler, tables, a, rest, n),
          SearchStack(env, guest, handler, a, guest(n, m), step.ctx, fuel - 1, n + 1),
          SearchOf(handler, tables, a, rest, n + 1));
      }
    }
  }

  lemma NothingFound(handler: int, tables: Tables, a: Answers, cs: seq<Context>, n: nat)
    requires |cs| == 1
    ensures SearchOf(handler, tables, a, FramesOf([], cs), n) == ([], NotTaken) && SameDecision(NotTaken, NotTaken)
  {
  }

  lemma TablesHere(
    inv: Memory -> bool, handler: int, tables: Tables, m: Memory, y: Frame, f: Frame, rest: seq<Frame>)
    requires inv(m) && SameFrame(y, f) && TablesKept(inv, handler, tables, [f] + rest)
    ensures TablesKept(inv, handler, tables, rest)
    ensures y.info.handler == handler ==> ReadScopes(m, y.info.handlerData) == Some(tables(y.info.handlerData))
  {
    hide ReadScopes;
    assert f in [f] + rest && forall g :: g in rest ==> g in [f] + rest;
  }

  // The frames before one that took the exception: each handler let the search go on.
  ghost predicate AllPass(handler: int, tables: Tables, a: Answers, fs: seq<Frame>, n: nat)
    decreases |fs|
  {
    fs == []
    || (fs[0].info.handler == 0 && AllPass(handler, tables, a, fs[1..], n))
    || (fs[0].info.handler != 0 && AnswerOf(handler, tables(fs[0].info.handlerData), a, fs[0], n).ContinueSearch?
        && AllPass(handler, tables, a, fs[1..], n + 1))
  }

  // Where a search that was taken ended: at frame t, after the handlers of all frames inside it passed.
  lemma {:induction false} TookFrame(handler: int, tables: Tables, a: Answers, fs: seq<Frame>, n: nat) returns (t: nat)
    requires handler != 0 && SearchOf(handler, tables, a, fs, n).1.Took?
    ensures var (calls, d) := SearchOf(handler, tables, a, fs, n);
            && t < |fs| && fs[t] == d.frame && d.frame.info.handler == handler
            && calls == SearchCallsOf(fs[..t + 1]) && AllPass(handler, tables, a, fs[..t], n)
            && |calls| >= 1
            && Search(tables(d.frame.info.handlerData), d.frame.ctx.rip - d.frame.fn.imageBase,
                      a.values(n + |calls| - 1), 0) == Execute(d.scope)
    decreases |fs|
  {
    hide Search, SearchOf, AllPass, SearchCallsOf;
    if fs == [] {
      NoTaker(handler, tables, a, n);
    } else {
      var f, rest := fs[0], fs[1..];
      assert fs == [f] + rest;
      SearchOfFirst(handler, tables, a, f, rest, n);
      if Passes(handler, tables, a, f, n) {
        t := TookFrame(handler, tables, a, rest, if f.info.handler == 0 then n else n + 1);
        OnePassed(handler, tables, a, f, rest, n, t);
        t := t + 1;
      } else {
        t := 0;
        NonePassed(handler, tables, a, f, rest, n);
      }
    }
  }

  predicate Passes(handler: int, tables: Tables, a: Answers, f: Frame, n: nat) {
    f.info.handler == 0 || AnswerOf(handler, tables(f.info.handlerData), a, f, n).ContinueSearch?
  }

  lemma NoTaker(handler: int, tables: Tables, a: Answers, n: nat)
    ensures SearchOf(handler, tables, a, [], n) == ([], NotTaken)
  {
  }

  lemma NonePassed(handler: int, tables: Tables, a: Answers, f: Frame, rest: seq<Frame>, n: nat)
    requires f.info.handler != 0
    ensures var fs := [f] + rest;
            SearchCallsOf(fs[..1]) == [DispatcherOf(f, 0)] && AllPass(handler, tables, a, fs[..0], n)
  {
    var fs := [f] + rest;
    assert fs[..1] == [f] && [f][1..] == [];
    assert SearchCallsOf([f]) == SearchCalls(f) + SearchCallsOf([]);
  }

  lemma OnePassed(handler: int, tables: Tables, a: Answers, f: Frame, rest: seq<Frame>, n: nat, t: nat)
    requires t < |rest| && Passes(handler, tables, a, f, n)
    requires AllPass(handler, tables, a, rest[..t], if f.info.handler == 0 then n else n + 1)
    ensures var fs := [f] + rest;
            && AllPass(handler, tables, a, fs[..t + 1], n)
            && SearchCallsOf(fs[..t + 2])
                 == (if f.info.handler == 0 then [] else [DispatcherOf(f, 0)]) + SearchCallsOf(rest[..t + 1])
  {
    hide AnswerOf;
    var fs := [f] + rest;
    assert fs[..t + 2][1..] == rest[..t + 1] && fs[..t + 1][1..] == rest[..t];
  }

  // -- From the exception to the block

  // The same stack as the search and the unwind read it: a frame can have a handler in one of them and not in the
  // other.
  ghost predicate SameStack(search: seq<Frame>, unwind: seq<Frame>) {
    |search| == |unwind| && forall i :: 0 <= i < |search| ==>
      && unwind[i].ctx == search[i].ctx && unwind[i].fn == search[i].fn
      && unwind[i].info.establisherFrame == search[i].info.establisherFrame
      && (unwind[i].info.handler == 0 || search[i].info.handler == 0 || unwind[i].info == search[i].info)
  }

  // The scope table of a frame that takes an exception: inner blocks come first, and the __except block is outside of
  // its own __try block.
  ghost predicate ProperTable(scopes: seq<Scope>, pc: int) {
    InnerFirst(scopes, pc) && forall i :: 0 <= i < |scopes| ==> !InBlock(scopes, scopes[i], scopes[i].target)
  }

  ghost predicate ProperTables(handler: int, tables: Tables, fs: seq<Frame>) {
    forall f :: f in fs && f.info.handler == handler ==>
                  ProperTable(tables(f.info.handlerData), f.ctx.rip - f.fn.imageBase)
  }

  ghost predicate DistinctFrames(fs: seq<Frame>) {
    forall j, k :: 0 <= j < k < |fs| ==> fs[j].info.establisherFrame != fs[k].info.establisherFrame
  }

  // The request that __C_specific_handler makes when it takes an exception
  function RequestOf(f: Frame, scopes: seq<Scope>, i: nat, code: int, flags: Flags): Request {
    Request(f.info.establisherFrame, f.fn.imageBase + (if i < |scopes| then scopes[i].target else 0), code, flags)
  }

  // Calls of handlers and a walk from x keep the stack; the limit is enough for it.
  ghost predicate Walkable(
    env: Env, guest: Guest, inv: Memory -> bool, m: Memory, stack: seq<Activation>, cs: seq<Context>, x: Context,
    fuel: nat, handlerType: nat)
  {
    && |cs| == |stack| + 1 && inv(m) && StackKept(env, guest, inv, stack, cs, handlerType)
    && SameState(x, cs[0]) && |stack| <= fuel && (|stack| == fuel || AtEnd(cs[|stack|].rip))
  }

  // The search called the handlers of the frames up to frame t. Those inside it let it go on, and frame t takes the
  // exception. runs are the blocks of frame t that an unwind to its __except block must run.
  ghost predicate FoundTaker(
    handler: int, tables: Tables, a: Answers, fs: seq<Frame>, n: nat, calls: seq<Dispatcher>, d: Decision, t: nat,
    runs: seq<nat>)
  {
    && t < |fs| && d.Took? && SameFrame(d.frame, fs[t]) && fs[t].info.handler == handler
    && calls == SearchCallsOf(fs[..t + 1]) && AllPass(handler, tables, a, fs[..t], n)
    && var (scopes, pc) := (tables(fs[t].info.handlerData), fs[t].ctx.rip - fs[t].fn.imageBase);
       && d.scope < |scopes| && RunsToBlock(scopes, pc, d.scope, runs)
       && runs == Finallys(scopes, pc, scopes[d.scope].target, true, 0)
  }

  // The unwind ran every __finally block that covers the pc of a frame inside frame t, then the blocks runs of frame
  // t, if it has the handler in an unwind, and goes on where the request says with the registers of frame t, but for
  // rip and rax.
  ghost predicate RanToBlock(
    handler: int, tables: Tables, search: seq<Frame>, fs: seq<Frame>, t: nat, runs: seq<nat>, r: Request,
    calls: seq<HandlerCall>, result: UnwindResult)
  {
    && t < |search| == |fs|
    && (forall k :: 0 <= k < |runs| ==> runs[k] < |tables(search[t].info.handlerData)|)
    && BlocksRun(handler, calls)
         == Some(CoveringBlocks(handler, tables, Handled(fs[..t]))
                 + if fs[t].info.handler != handler then []
                   else Addresses(tables(search[t].info.handlerData), search[t].fn.imageBase, runs))
    && result.Resumed? && exists y :: SameState(y, search[t].ctx) && result.ctx == ResumeAt(y, r.ip, r.value)
  }

  // An exception from its dispatch to the block that takes it. The search walks the stack and asks the handlers; frame
  // t takes the exception with a scope. Its handler then unwinds, from the guest call of the dispatch, which is a
  // callback return on top of the stack, with a guest and a memory that kept the stack, to the __except block of that
  // scope.
  lemma ExceptionReachesBlock(
    env: Env, guest: Guest, inv: Memory -> bool, m: Memory, stack: seq<Activation>, cs: seq<Context>, x: Context,
    handler: int, tables: Tables, a: Answers, fuel: nat, n: nat, env': Env, guest': Guest, m': Memory,
    stack': seq<Activation>, top: Context, x': Context, code: int, flags: Flags, fuel': nat, n': nat)
    returns (t: nat, runs: seq<nat>)
    requires Walkable(env, guest, inv, m, stack, cs, x, fuel, UNW_FLAG_EHANDLER)
    requires |stack'| == |stack| + 1 && stack'[0] == CallbackReturn
    requires Walkable(env', guest', inv, m', stack', [top] + cs, x', fuel', UNW_FLAG_UHANDLER)
    requires SameStack(FramesOf(stack, cs), FramesOf(stack', [top] + cs)) && DistinctFrames(FramesOf(stack, cs))
    requires handler != 0 && ProperTables(handler, tables, FramesOf(stack, cs))
    requires TablesKept(inv, handler, tables, FramesOf(stack, cs))
    requires TablesKept(inv, handler, tables, FramesOf(stack', [top] + cs)) && !flags.targetUnwind
    requires SearchStack(env, guest, handler, a, m, x, fuel, n).1.Took?
    ensures t < |FramesOf(stack, cs)|
    ensures var (fs, fs') := (FramesOf(stack, cs), FramesOf(stack', [top] + cs));
            var (asked, d) := SearchStack(env, guest, handler, a, m, x, fuel, n);
            var r := RequestOf(fs[t], tables(fs[t].info.handlerData), d.scope, code, flags);
            var (calls, result) := UnwindTo(env', guest', m', x', r, fuel', n');
            && FoundTaker(handler, tables, a, fs, n, asked, d, t, runs)
            && RanToBlock(handler, tables, fs, fs', t, runs, r, calls, result)
  {
    assert |cs| == |stack| + 1;
    hide SearchStack, FramesOf, TablesKept, UnwindTo, RanToBlock, ProperTables, DistinctFrames, SameStack, Walkable,
      FoundTaker;
    t, runs := SearchTakes(env, guest, inv, m, stack, cs, x, handler, tables, a, fuel, n);
    var fs := FramesOf(stack, cs);
    var (asked, d) := SearchStack(env, guest, handler, a, m, x, fuel, n);
    var r := RequestOf(fs[t], tables(fs[t].info.handlerData), d.scope, code, flags);
    UnwindsToTaker(env', guest', inv, m', stack', [top] + cs, x', r, fuel', n', handler, tables, a, fs, n, asked, d, t,
      runs);
  }

  // The search on a stack of any depth, if a handler takes the exception
  lemma SearchTakes(
    env: Env, guest: Guest, inv: Memory -> bool, m: Memory, stack: seq<Activation>, cs: seq<Context>, x: Context,
    handler: int, tables: Tables, a: Answers, fuel: nat, n: nat)
    returns (t: nat, runs: seq<nat>)
    requires Walkable(env, guest, inv, m, stack, cs, x, fuel, UNW_FLAG_EHANDLER)
    requires handler != 0 && TablesKept(inv, handler, tables, FramesOf(stack, cs))
    requires SearchStack(env, guest, handler, a, m, x, fuel, n).1.Took?
    requires ProperTables(handler, tables, FramesOf(stack, cs))
    ensures t < |FramesOf(stack, cs)|
    ensures var (calls, d) := SearchStack(env, guest, handler, a, m, x, fuel, n);
            FoundTaker(handler, tables, a, FramesOf(stack, cs), n, calls, d, t, runs)
  {
    hide StackKept, SameState, AtEnd, SearchStack, SearchOf, FramesOf, TablesKept, ProperTable, AllPass, SearchCallsOf,
      RunsToBlock, Search, Finallys, SameFrame;
    var fs := FramesOf(stack, cs);
    SearchStackExact(env, guest, inv, m, stack, cs, x, handler, tables, a, fuel, n);
    t := TookFrame(handler, tables, a, fs, n);
    var (calls, d) := SearchOf(handler, tables, a, fs, n);
    var scopes := tables(fs[t].info.handlerData);
    runs := TakenBlocks(scopes, fs[t].ctx.rip - fs[t].fn.imageBase, a.values(n + |calls| - 1), d.scope);
  }

  lemma TakenBlocks(scopes: seq<Scope>, pc: int, values: nat -> int, i: nat) returns (runs: seq<nat>)
    requires ProperTable(scopes, pc) && Search(scopes, pc, values, 0) == Execute(i)
    ensures i < |scopes| && RunsToBlock(scopes, pc, i, runs) && runs == Finallys(scopes, pc, scopes[i].target, true, 0)
  {
    hide InBlock, Covers, Finallys;
    TwoPhases(scopes, pc, values, i);
    FinallysExact(scopes, pc, scopes[i].target, true, 0);
    runs := Finallys(scopes, pc, scopes[i].target, true, 0);
  }

  lemma UnwindsToTaker(
    env: Env, guest: Guest, inv: Memory -> bool, m: Memory, stack: seq<Activation>, cs: seq<Context>, x: Context,
    r: Request, fuel: nat, n: nat, handler: int, tables: Tables, a: Answers, search: seq<Frame>, n0: nat,
    asked: seq<Dispatcher>, d: Decision, t: nat, runs: seq<nat>)
    requires Walkable(env, guest, inv, m, stack, cs, x, fuel, UNW_FLAG_UHANDLER)
    requires TablesKept(inv, handler, tables, FramesOf(stack, cs)) && !r.flags.targetUnwind && handler != 0
    requires SameStack(search, FramesOf(stack, cs)) && DistinctFrames(search)
    requires FoundTaker(handler, tables, a, search, n0, asked, d, t, runs)
    requires r == RequestOf(search[t], tables(search[t].info.handlerData), d.scope, r.value, r.flags)
    ensures var (calls, result) := UnwindTo(env, guest, m, x, r, fuel, n);
            RanToBlock(handler, tables, search, FramesOf(stack, cs), t, runs, r, calls, result)
  {
    var fs := FramesOf(stack, cs);
    hide Walkable, SameState, UnwindTo, FramesOf, Handled, BlocksRun, CoveringBlocks, Addresses, ResumeAt, TargetIndex,
      Finallys, TablesKept, FrameBlocks, SameStack, DistinctFrames, SearchCallsOf, AllPass, SameFrame, Leaves, Covers;
    SameTarget(search, fs, r.target, t);
    TakerBlocks(handler, tables, search[t], fs[t], r, d.scope, runs);
    UnwindRunsTo(env, guest, inv, m, stack, cs, x, r, fuel, n, handler, tables, t);
  }

  // An unwind to frame t runs the blocks of the frames inside it, then those of frame t by the target rule, and goes on
  // with the registers of frame t, but for rip and rax.
  lemma UnwindRunsTo(
    env: Env, guest: Guest, inv: Memory -> bool, m: Memory, stack: seq<Activation>, cs: seq<Context>, x: Context,
    r: Request, fuel: nat, n: nat, handler: int, tables: Tables, t: nat)
    requires Walkable(env, guest, inv, m, stack, cs, x, fuel, UNW_FLAG_UHANDLER)
    requires TablesKept(inv, handler, tables, FramesOf(stack, cs)) && !r.flags.targetUnwind && handler != 0
    requires t < |FramesOf(stack, cs)| && t == TargetIndex(FramesOf(stack, cs), r.target)
    ensures var fs := FramesOf(stack, cs);
            var (calls, result) := UnwindTo(env, guest, m, x, r, fuel, n);
            && BlocksRun(handler, calls) == Some(
                 CoveringBlocks(handler, tables, Handled(fs[..t])) + FrameBlocks(handler, tables, fs[t], r.ip, true))
            && result.Resumed? && exists y :: SameState(y, fs[t].ctx) && result.ctx == ResumeAt(y, r.ip, r.value)
  {
    var fs := FramesOf(stack, cs);
    hide StackKept, SameState, AtEnd, UnwindTo, FramesOf, Handled, CallsMade, BlocksRun, UnwindBlocks, CoveringBlocks,
      ResumeAt, TargetIndex, UpToTarget, TablesKept, FrameBlocks;
    HandledTables(inv, handler, tables, fs, r.target);
    UnwindToExact(env, guest, inv, m, stack, cs, x, r, fuel, n);
    UnwindRunsBlocks(env, guest, inv, m, stack, cs, x, r, fuel, n, handler, tables);
    BlocksToTarget(handler, tables, fs, r, t);
  }

  lemma SameTarget(search: seq<Frame>, fs: seq<Frame>, target: int, t: nat)
    requires SameStack(search, fs) && DistinctFrames(search) && t < |search|
    requires search[t].info.establisherFrame == target
    ensures |fs| == |search| && TargetIndex(fs, target) == t
    ensures fs[t].ctx == search[t].ctx && fs[t].fn == search[t].fn
    ensures fs[t].info.handler == 0 || search[t].info.handler == 0 || fs[t].info == search[t].info
  {
    FirstTarget(fs, target, t);
  }

  lemma TakerBlocks(handler: int, tables: Tables, f: Frame, f': Frame, r: Request, i: nat, runs: seq<nat>)
    requires f'.ctx == f.ctx && f'.fn == f.fn && (f'.info.handler == handler ==> f'.info == f.info)
    requires var scopes := tables(f.info.handlerData);
             && i < |scopes| && r.ip == f.fn.imageBase + scopes[i].target
             && runs == Finallys(scopes, f.ctx.rip - f.fn.imageBase, scopes[i].target, true, 0)
    ensures FrameBlocks(handler, tables, f', r.ip, true)
         == if f'.info.handler == handler then Addresses(tables(f.info.handlerData), f.fn.imageBase, runs) else []
  {
    hide Finallys, Addresses;
  }

  lemma {:induction false} FirstTarget(fs: seq<Frame>, target: int, t: nat)
    requires t < |fs| && fs[t].info.establisherFrame == target
    requires forall j :: 0 <= j < t ==> fs[j].info.establisherFrame != target
    ensures TargetIndex(fs, target) == t
  {
    hide TargetIndex;
  }

  lemma HandledTables(inv: Memory -> bool, handler: int, tables: Tables, fs: seq<Frame>, target: int)
    requires TablesKept(inv, handler, tables, fs)
    ensures TablesKept(inv, handler, tables, Handled(UpToTarget(fs, target)))
  {
    hide ReadScopes, Handled;
    forall f | f in Handled(UpToTarget(fs, target)) ensures f in fs {
      HandledAre(UpToTarget(fs, target), f);
    }
  }
}
