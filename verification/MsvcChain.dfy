// speakeasy/windows/seh32.py: where the registration chain and the MSVC handlers meet. An unwind calls the handler of
// each registration; the handlers of MSVC frames run their __finally blocks.

module MsvcChain {
  import opened Options
  import opened Bytes
  import opened Seh32

  // An MSVC frame and its scopes, from the current one to the outside
  datatype Msvc = Msvc(f: MsvcFrame, scopes: seq<Scope>)

  // The handlers that an unwind calls: frame i of the chain is an MSVC frame or another one. blocks(n) says what the
  // __finally blocks do that guest call n runs, if it is a call of an MSVC handler; other is what the other guest calls
  // do.
  datatype Handlers = Handlers(frames: seq<Option<Msvc>>, blocks: nat -> Guest, other: Guest)

  function FrameAt(h: Handlers, i: int): Option<Msvc> {
    if 0 <= i < |h.frames| then h.frames[i] else None
  }

  // The language handler in an unwind: the blocks that it calls, and the state that it leaves
  function RunHandler(blocks: Guest, s: State, f: MsvcFrame): (seq<Block>, State) {
    var (calls, s', _) := LocalUnwind(blocks, s, f, f.none, MAX_FRAMES, 0);
    (calls, s')
  }

  lemma RunIsHandler(blocks: Guest, verdicts: nat -> int, s: State, f: MsvcFrame)
    requires f.registration >= 0
    ensures var h := MsvcHandler(blocks, verdicts, s, f, true); RunHandler(blocks, s, f) == (h.blocks, h.state)
  {
    hide LocalUnwind;
  }

  // Guest calls from n0 on are those of the handlers, in the order of the chain.
  function HandlerGuest(h: Handlers, n0: nat): Guest {
    (n: nat, s: State) =>
      var frame := FrameAt(h, n - n0);
      if frame.Some? then RunHandler(h.blocks(n), s, frame.value.f).1 else h.other(n, s)
  }

  // -- What the guest keeps

  ghost predicate SameLevels(all: seq<Option<Msvc>>, m: Memory, m': Memory, but: int) {
    forall k :: 0 <= k < |all| && k != but && all[k].Some?
      ==> TryLevel(m', all[k].value.f) == TryLevel(m, all[k].value.f)
  }

  ghost predicate CallKeeps(inv: Memory -> bool, all: seq<Option<Msvc>>, s: State, s': State, but: int) {
    inv(s'.mem) && s'.exceptionList == s.exceptionList && SameLevels(all, s.mem, s'.mem, but)
  }

  ghost predicate GuestKeeps(g: Guest, inv: Memory -> bool, all: seq<Option<Msvc>>) {
    forall n: nat, s: State :: inv(s.mem) ==> CallKeeps(inv, all, s, g(n, s), -1)
  }

  // The scopes of a frame stay in memory, also when its try level changes.
  ghost predicate ScopesStay(inv: Memory -> bool, x: Msvc) {
    && |x.scopes| <= MAX_FRAMES && (forall m :: inv(m) ==> ScopesIn(m, x.f, x.scopes))
    && (forall m, level :: inv(m) ==> inv(SetTryLevel(m, x.f, level)))
  }

  ghost predicate CellsApart(all: seq<Option<Msvc>>) {
    forall j, k :: 0 <= j < |all| && 0 <= k < |all| && j != k && all[j].Some? && all[k].Some? ==>
      Apart(all[j].value.f.registration, all[k].value.f.registration)
  }

  predicate Apart(a: int, b: int) {
    a + 4 <= b || b + 4 <= a
  }

  // Filters and blocks that return keep the try level of every frame.
  ghost predicate AllKept(inv: Memory -> bool, all: seq<Option<Msvc>>, h: Handlers) {
    && (forall k :: 0 <= k < |all| && all[k].Some? ==> ScopesStay(inv, all[k].value))
    && CellsApart(all) && GuestKeeps(h.other, inv, all) && (forall n :: GuestKeeps(h.blocks(n), inv, all))
    && |h.frames| <= |all| && h.frames == all[..|h.frames|]
  }

  // The frames from i on are at their current scopes.
  ghost predicate AtScopes(m: Memory, all: seq<Option<Msvc>>, i: nat) {
    forall k :: i <= k < |all| && all[k].Some? ==>
      TryLevel(m, all[k].value.f) == Some(LevelAt(all[k].value.f, all[k].value.scopes, 0))
  }

  lemma ReadSame(m: Memory, m': Memory, a: int, n: nat)
    requires forall k :: a <= k < a + n ==> (k in m <==> k in m') && (k in m ==> m'[k] == m[k])
    ensures Read(m', a, n) == Read(m, a, n)
  {
    if Mapped(m, a, n) {
      assert Holds(m', a, Read(m, a, n).value);
      ReadHeld(m', a, Read(m, a, n).value);
    }
  }

  lemma OtherLevel(m: Memory, f: MsvcFrame, g: MsvcFrame, level: nat)
    requires Apart(f.registration, g.registration)
    ensures TryLevel(SetTryLevel(m, f, level), g) == TryLevel(m, g)
  {
    hide ToLE, Write, Read, FromLE;
    ReadSame(m, SetTryLevel(m, f, level), g.registration + TRY_LEVEL, 4);
  }

  lemma LevelChange(inv: Memory -> bool, all: seq<Option<Msvc>>, s: State, j: nat, level: nat)
    requires j < |all| && all[j].Some? && ScopesStay(inv, all[j].value) && CellsApart(all) && inv(s.mem)
    ensures CallKeeps(inv, all, s, s.(mem := SetTryLevel(s.mem, all[j].value.f, level)), j)
  {
    hide SetTryLevel, TryLevel, ScopesIn, Apart;
    var f := all[j].value.f;
    forall k | 0 <= k < |all| && k != j && all[k].Some?
      ensures TryLevel(SetTryLevel(s.mem, f, level), all[k].value.f) == TryLevel(s.mem, all[k].value.f)
    {
      OtherLevel(s.mem, f, all[k].value.f, level);
    }
  }

  lemma KeepsTrans(inv: Memory -> bool, all: seq<Option<Msvc>>, s: State, t: State, u: State, but: int)
    requires CallKeeps(inv, all, s, t, but) && CallKeeps(inv, all, t, u, but)
    ensures CallKeeps(inv, all, s, u, but)
  {
    hide TryLevel;
  }

  lemma GuestCallKeeps(g: Guest, inv: Memory -> bool, all: seq<Option<Msvc>>, s: State, n: nat, but: int)
    requires GuestKeeps(g, inv, all) && inv(s.mem)
    ensures CallKeeps(inv, all, s, g(n, s), but)
  {
    hide TryLevel;
    assert CallKeeps(inv, all, s, g(n, s), -1);
  }

  // Leaving the scopes of frame j, from whatever try level, changes the try level of no other frame.
  lemma {:induction false} LeavingKeeps(
    g: Guest, inv: Memory -> bool, all: seq<Option<Msvc>>, s: State, j: nat, stop: nat, fuel: nat, n: nat)
    requires j < |all| && all[j].Some? && ScopesStay(inv, all[j].value) && CellsApart(all)
    requires GuestKeeps(g, inv, all) && inv(s.mem)
    ensures CallKeeps(inv, all, s, LocalUnwind(g, s, all[j].value.f, stop, fuel, n).1, j)
    decreases fuel
  {
    hide SetTryLevel, TryLevel, ReadScope, CallKeeps, GuestKeeps, ScopesStay, CellsApart;
    var f := all[j].value.f;
    NothingChanged(inv, all, s, j);
    if fuel > 0 && TryLevel(s.mem, f).Some? && ReadScope(s.mem, f, TryLevel(s.mem, f).value).Some? {
      var scope := ReadScope(s.mem, f, TryLevel(s.mem, f).value).value;
      var lowered := s.(mem := SetTryLevel(s.mem, f, scope.enclosing));
      LevelChange(inv, all, s, j, scope.enclosing);
      assert inv(lowered.mem) by {
        KeepsInv(inv, all, s, lowered, j);
      }
      if scope.filter != 0 {
        LeavingKeeps(g, inv, all, lowered, j, stop, fuel - 1, n);
        KeepsTrans(inv, all, s, lowered, LocalUnwind(g, lowered, f, stop, fuel - 1, n).1, j);
      } else {
        var t := g(n, lowered);
        GuestCallKeeps(g, inv, all, lowered, n, j);
        KeepsInv(inv, all, lowered, t, j);
        LeavingKeeps(g, inv, all, t, j, stop, fuel - 1, n + 1);
        KeepsTrans(inv, all, s, lowered, t, j);
        KeepsTrans(inv, all, s, t, LocalUnwind(g, t, f, stop, fuel - 1, n + 1).1, j);
      }
    }
  }

  lemma NothingChanged(inv: Memory -> bool, all: seq<Option<Msvc>>, s: State, but: int)
    requires inv(s.mem)
    ensures CallKeeps(inv, all, s, s, but)
  {
  }

  lemma KeepsInv(inv: Memory -> bool, all: seq<Option<Msvc>>, s: State, s': State, but: int)
    requires CallKeeps(inv, all, s, s', but)
    ensures inv(s'.mem) && s'.exceptionList == s.exceptionList
  {
  }

  // A handler call changes the try level of its own frame alone.
  lemma HandlerKeeps(inv: Memory -> bool, all: seq<Option<Msvc>>, h: Handlers, n0: nat, n: nat, s: State)
    requires AllKept(inv, all, h) && inv(s.mem)
    ensures CallKeeps(inv, all, s, HandlerGuest(h, n0)(n, s), n - n0)
  {
    hide CallKeeps, GuestKeeps, ScopesStay, CellsApart, LocalUnwind;
    if FrameAt(h, n - n0).Some? {
      var j := n - n0;
      var f := h.frames[j].value.f;
      assert all[j] == h.frames[j];
      LeavingKeeps(h.blocks(n), inv, all, s, j, f.none, MAX_FRAMES, 0);
      assert HandlerGuest(h, n0)(n, s) == RunHandler(h.blocks(n), s, f).1;
      assert RunHandler(h.blocks(n), s, f).1 == LocalUnwind(h.blocks(n), s, f, f.none, MAX_FRAMES, 0).1;
    } else {
      GuestCallKeeps(h.other, inv, all, s, n, n - n0);
    }
  }

  // -- The blocks that run

  function Addresses(blocks: seq<Block>): seq<nat> {
    if blocks == [] then [] else [blocks[0].handler] + Addresses(blocks[1..])
  }

  function ScopeAddresses(scopes: seq<Scope>): seq<nat> {
    if scopes == [] then [] else [scopes[0].handler] + ScopeAddresses(scopes[1..])
  }

  lemma {:induction false} RanAddresses(inv: Memory -> bool, f: MsvcFrame, blocks: seq<Block>, scopes: seq<Scope>)
    requires Ran(inv, f, blocks, scopes)
    ensures Addresses(blocks) == ScopeAddresses(scopes)
  {
    if blocks != [] {
      assert RanOne(inv, f, blocks[0], scopes[0]);
      assert forall c :: 0 <= c < |blocks| - 1 ==> blocks[1..][c] == blocks[c + 1] && scopes[1..][c] == scopes[c + 1];
      RanAddresses(inv, f, blocks[1..], scopes[1..]);
    }
  }

  // The __finally blocks that the handler calls of an unwind run, from frame i on, which is guest call n0 + i
  function BlocksRun(h: Handlers, calls: seq<Call>, i: nat, n0: nat): seq<nat>
    decreases |calls|
  {
    if calls == [] then []
    else
      var frame := FrameAt(h, i);
      (if frame.None? then [] else Addresses(RunHandler(h.blocks(n0 + i), calls[0].at, frame.value.f).0))
      + BlocksRun(h, calls[1..], i + 1, n0)
  }

  // The __finally blocks of the frames i to k, frame after frame
  function FinallysOf(h: Handlers, i: nat, k: nat): seq<nat>
    requires i <= k
    decreases k - i
  {
    if i == k then []
    else
      var frame := FrameAt(h, i);
      (if frame.None? then [] else ScopeAddresses(Finallys(frame.value.scopes))) + FinallysOf(h, i + 1, k)
  }

  // One handler call runs the blocks of its frame.
  lemma FrameRuns(inv: Memory -> bool, all: seq<Option<Msvc>>, h: Handlers, s: State, i: nat, n: nat)
    requires AllKept(inv, all, h) && inv(s.mem) && AtScopes(s.mem, all, i) && FrameAt(h, i).Some?
    ensures var x := FrameAt(h, i).value;
            Addresses(RunHandler(h.blocks(n), s, x.f).0) == ScopeAddresses(Finallys(x.scopes))
  {
    assert all[i] == h.frames[i];
    var x := all[i].value;
    ScopesFromAll(inv, all, h, i, n);
    hide LocalUnwind, TryLevel, Ran, ScopesKept, Left;
    LocalUnwindExact(h.blocks(n), inv, s, x.f, x.scopes, 0, |x.scopes|, MAX_FRAMES, 0);
    WasLeft(inv, x.f, x.scopes, RunHandler(h.blocks(n), s, x.f).0, RunHandler(h.blocks(n), s, x.f).1, Done);
  }

  lemma WasLeft(inv: Memory -> bool, f: MsvcFrame, scopes: seq<Scope>, blocks: seq<Block>, s: State, e: End)
    requires Left(inv, f, scopes, 0, |scopes|, blocks, s, e)
    ensures Addresses(blocks) == ScopeAddresses(Finallys(scopes))
  {
    assert scopes[0..|scopes|] == scopes;
    RanAddresses(inv, f, blocks, Finallys(scopes));
  }

  lemma ScopesFromAll(inv: Memory -> bool, all: seq<Option<Msvc>>, h: Handlers, j: nat, n: nat)
    requires AllKept(inv, all, h) && j < |all| && all[j].Some?
    ensures ScopesKept(h.blocks(n), inv, all[j].value.f, all[j].value.scopes) && |all[j].value.scopes| <= MAX_FRAMES
  {
    var (x, g) := (all[j].value, h.blocks(n));
    hide SetTryLevel, TryLevel, ScopesIn;
    assert ScopesStay(inv, x) && GuestKeeps(g, inv, all);
    forall n: nat, s: State | inv(s.mem)
      ensures inv(g(n, s).mem) && TryLevel(g(n, s).mem, x.f) == TryLevel(s.mem, x.f)
    {
      assert CallKeeps(inv, all, s, g(n, s), -1);
    }
  }

  lemma StillAtScopes(inv: Memory -> bool, all: seq<Option<Msvc>>, s: State, s': State, i: nat)
    requires AtScopes(s.mem, all, i) && CallKeeps(inv, all, s, s', i)
    ensures AtScopes(s'.mem, all, i + 1)
  {
    hide TryLevel;
  }

  // An unwind of the chain runs the __finally blocks of each MSVC frame that it leaves, frame after frame, innermost
  // first, and leaves the other frames at their scopes.
  lemma {:induction false} UnwindRunsFrames(
    inv: Memory -> bool, all: seq<Option<Msvc>>, h: Handlers, s: State, chain: seq<Registration>, end: nat, i: nat,
    target: nat, fuel: nat, n0: nat)
    requires i <= |chain| && inv(s.mem) && AllKept(inv, all, h) && AtScopes(s.mem, all, i)
    requires (forall m :: inv(m) ==> ChainIn(m, chain, end)) && s.exceptionList == AddressAt(chain, end, i)
    ensures var address := AddressAt(chain, end, i);
            var (calls, s') := UnwindRegistrations(HandlerGuest(h, n0), s, address, target, fuel, n0 + i);
            && BlocksRun(h, calls, i, n0) == FinallysOf(h, i, i + |calls|)
            && inv(s'.mem) && AtScopes(s'.mem, all, i + |calls|)
    decreases fuel
  {
    hide ReadRegistration, StopsAt, AllKept, AtScopes, CallKeeps, HandlerGuest, ChainIn, RunHandler, Addresses,
      Finallys, UnwindRegistrations;
    var guest := HandlerGuest(h, n0);
    assert ChainIn(s.mem, chain, end);
    if fuel == 0 || i == |chain| || StopsAt(chain[i].address, target) {
      UnwindStops(guest, s, chain, end, i, target, fuel, n0 + i);
    } else {
      OneRegistration(guest, s, chain, end, i, target, fuel, n0 + i);
      HandlerKeeps(inv, all, h, n0, n0 + i, s);
      var t := guest(n0 + i, s);
      KeepsInv(inv, all, s, t, i);
      StillAtScopes(inv, all, s, t, i);
      var s' := t.(exceptionList := AddressAt(chain, end, i + 1));
      UnwindRunsFrames(inv, all, h, s', chain, end, i + 1, target, fuel - 1, n0);
      if FrameAt(h, i).Some? {
        FrameRuns(inv, all, h, s, i, n0 + i);
      }
      var rest := UnwindRegistrations(guest, s', AddressAt(chain, end, i + 1), target, fuel - 1, n0 + i + 1).0;
      assert ([Call(chain[i], s)] + rest)[1..] == rest;
    }
  }

  // The frame that takes an exception is record k of the chain, the last of all; the handlers are those of the frames
  // inside it.
  ghost predicate TakenBy(
    inv: Memory -> bool, all: seq<Option<Msvc>>, h: Handlers, chain: seq<Registration>, end: nat, k: nat, esp: nat)
  {
    && AllKept(inv, all, h) && |all| == k + 1 && |h.frames| == k && all[k].Some?
    && k < |chain| && AddressOrdered(chain) && all[k].value.f.registration == chain[k].address
    && (forall m :: inv(m) ==> ChainIn(m, chain, end))
    && (forall m :: inv(m) ==> ReadU32(m, all[k].value.f.registration + SAVED_ESP) == Some(esp))
  }

  lemma FrameFromAll(
    inv: Memory -> bool, all: seq<Option<Msvc>>, h: Handlers, chain: seq<Registration>, end: nat, k: nat, esp: nat,
    n0: nat)
    requires TakenBy(inv, all, h, chain, end, k, esp)
    ensures ScopesKept(HandlerGuest(h, n0), inv, all[k].value.f, all[k].value.scopes)
    ensures ChainKept(HandlerGuest(h, n0), inv, chain, end)
  {
    var x, guest := all[k].value, HandlerGuest(h, n0);
    assert ScopesStay(inv, x);
    hide SetTryLevel, TryLevel, ScopesIn, ChainIn, ReadU32, AllKept, HandlerGuest, CellsApart, AddressOrdered;
    forall n: nat, s: State | inv(s.mem)
      ensures inv(guest(n, s).mem) && TryLevel(guest(n, s).mem, x.f) == TryLevel(s.mem, x.f)
    {
      HandlerKeepsOuter(inv, all, h, n0, n, s, k);
    }
  }

  // No handler of a frame inside frame k changes its try level.
  lemma HandlerKeepsOuter(
    inv: Memory -> bool, all: seq<Option<Msvc>>, h: Handlers, n0: nat, n: nat, s: State, k: nat)
    requires AllKept(inv, all, h) && inv(s.mem) && k == |h.frames| < |all| && all[k].Some?
    ensures var s' := HandlerGuest(h, n0)(n, s);
            && inv(s'.mem) && s'.exceptionList == s.exceptionList
            && TryLevel(s'.mem, all[k].value.f) == TryLevel(s.mem, all[k].value.f)
  {
    hide TryLevel, GuestKeeps, ScopesStay, CellsApart, LocalUnwind;
    if n - n0 == k {
      assert FrameAt(h, n - n0) == None;
      GuestCallKeeps(h.other, inv, all, s, n, -1);
    } else {
      hide AllKept, HandlerGuest;
      HandlerKeeps(inv, all, h, n0, n, s);
    }
  }

  lemma TakerKept(
    inv: Memory -> bool, all: seq<Option<Msvc>>, h: Handlers, s: State, chain: seq<Registration>, end: nat, k: nat,
    esp: nat, n0: nat)
    requires TakenBy(inv, all, h, chain, end, k, esp) && AtScopes(s.mem, all, 0)
    ensures var x := all[k].value;
            && FrameKept(HandlerGuest(h, n0), inv, x.f, x.scopes, chain, end, k, esp)
            && TryLevel(s.mem, x.f) == Some(LevelAt(x.f, x.scopes, 0))
  {
    FrameFromAll(inv, all, h, chain, end, k, esp, n0);
    GuestKeepsList(inv, all, h, n0);
    hide TryLevel, ReadU32, AllKept, ChainIn, AddressOrdered, HandlerGuest, ScopesKept, ChainKept, ListKept;
  }

  // When scope i of frame k takes an exception: the __finally blocks of all MSVC frames inside frame k run, frame after
  // frame, then those of frame k up to but excluding scope i, and the __except block of scope i runs with fs:[0] at
  // frame k.
  lemma ExceptRunsFrames(
    inv: Memory -> bool, all: seq<Option<Msvc>>, h: Handlers, s: State, chain: seq<Registration>, end: nat, k: nat,
    i: nat, esp: nat, n0: nat)
    requires TakenBy(inv, all, h, chain, end, k, esp) && k <= MAX_FRAMES
    requires i < |all[k].value.scopes| && i < MAX_FRAMES
    requires inv(s.mem) && AtScopes(s.mem, all, 0) && s.exceptionList == chain[0].address
    ensures all[k].value.f.registration >= 0
    ensures var x := all[k].value;
            var a := AcceptException(HandlerGuest(h, n0), s, x.f, x.scopes[i], n0);
            && a.result == Seh32.ResumeAt(x.f.registration + FRAME_POINTER, esp, x.scopes[i].handler)
            && Called(inv, a.registrations, chain[..k])
            && BlocksRun(h, a.registrations, 0, n0) == FinallysOf(h, 0, k)
            && Addresses(a.blocks) == ScopeAddresses(Finallys(x.scopes[..i]))
            && a.state.exceptionList == x.f.registration && TryLevel(a.state.mem, x.f) == Some(x.scopes[i].enclosing)
  {
    var x, guest := all[k].value, HandlerGuest(h, n0);
    TakerKept(inv, all, h, s, chain, end, k, esp, n0);
    hide TryLevel, ReadU32, AllKept, AtScopes, ChainIn, AddressOrdered, HandlerGuest, Finallys, Ran, Called, BlocksRun,
      FinallysOf, FrameKept, AcceptException;
    AcceptUnwinds(guest, inv, s, x.f, x.scopes, i, chain, end, k, esp, n0);
    var a := AcceptException(guest, s, x.f, x.scopes[i], n0);
    AcceptRegistrations(guest, s, x.f, x.scopes[i], n0);
    UnwindRunsFrames(inv, all, h, s, chain, end, 0, x.f.registration, MAX_FRAMES, n0);
    CalledAll(inv, a.registrations, chain[..k]);
    RanAddresses(inv, x.f, a.blocks, Finallys(x.scopes[..i]));
  }

  lemma AcceptRegistrations(guest: Guest, s: State, f: MsvcFrame, scope: Scope, n: nat)
    requires f.registration >= 0
    ensures AcceptException(guest, s, f, scope, n).registrations
         == UnwindRegistrations(guest, s, s.exceptionList, f.registration, MAX_FRAMES, n).0
  {
    hide UnwindRegistrations, LocalUnwind, SetTryLevel, ReadU32;
  }

  lemma CalledAll(inv: Memory -> bool, calls: seq<Call>, records: seq<Registration>)
    requires Called(inv, calls, records)
    ensures |calls| == |records|
  {
  }

  lemma GuestKeepsList(inv: Memory -> bool, all: seq<Option<Msvc>>, h: Handlers, n0: nat)
    requires AllKept(inv, all, h)
    ensures ListKept(HandlerGuest(h, n0), inv)
  {
    hide AllKept, HandlerGuest, CallKeeps;
    forall n: nat, s: State | inv(s.mem) ensures HandlerGuest(h, n0)(n, s).exceptionList == s.exceptionList {
      HandlerKeeps(inv, all, h, n0, n, s);
      KeepsInv(inv, all, s, HandlerGuest(h, n0)(n, s), n - n0);
    }
  }
}
