// speakeasy/windows/seh32.py: x86 exception dispatch over the registration chain, and the MSVC handlers.

module Seh32 {
  import opened Options
  import opened Bytes
  import opened Sequences
  import opened Seh

  const MAX_FRAMES: nat := 4096
  const END_OF_CHAIN: nat := 0xFFFF_FFFF

  const SAVED_ESP: int := -0x08
  const TRY_LEVEL: int := 0x0C
  const FRAME_POINTER: int := 0x10

  // Guest memory, and fs:[0] of the thread.
  datatype State = State(mem: Memory, exceptionList: nat)

  // What guest call n does to the state.
  type Guest = (nat, State) -> State

  // -- The registration chain

  // A registration record and its handler.
  datatype Registration = Registration(address: nat, handler: nat)

  // A call of the handler of a registration, and the state that the guest gets.
  datatype Call = Call(registration: Registration, at: State)

  // The next registration and the handler in the record at an address.
  function ReadRegistration(m: Memory, address: int): Option<(nat, nat)> {
    var next :- ReadU32(m, address);
    var handler :- ReadU32(m, address + 4);
    Some((next, handler))
  }

  predicate StopsAt(address: nat, target: nat) {
    address == target || (target != 0 && address > target)
  }

  // unwind_registrations from a registration on: the calls made, and the state after them.
  function UnwindRegistrations(guest: Guest, s: State, address: nat, target: nat, fuel: nat, n: nat)
    : (seq<Call>, State)
    decreases fuel, n
  {
    if fuel == 0 || address == 0 || address == END_OF_CHAIN then ([], s)
    else
      match ReadRegistration(s.mem, address)
      case None => ([], s)
      case Some((next, handler)) =>
        if StopsAt(address, target) then ([], s)
        else
          var s' := guest(n, s).(exceptionList := next);
          var (calls, end) := UnwindRegistrations(guest, s', next, target, fuel - 1, n + 1);
          ([Call(Registration(address, handler), s)] + calls, end)
  }

  function AddressAt(chain: seq<Registration>, end: nat, i: nat): nat
    requires i <= |chain|
  {
    if i < |chain| then chain[i].address else end
  }

  // The chain lies in memory, from its first record to the end marker.
  ghost predicate ChainIn(m: Memory, chain: seq<Registration>, end: nat) {
    && (end == 0 || end == END_OF_CHAIN)
    && forall i :: 0 <= i < |chain| ==>
         && chain[i].address != 0 && chain[i].address != END_OF_CHAIN
         && ReadRegistration(m, chain[i].address) == Some((AddressAt(chain, end, i + 1), chain[i].handler))
  }

  // Handlers keep the chain: inv holds of memory throughout, and implies that the chain is there.
  ghost predicate ChainKept(guest: Guest, inv: Memory -> bool, chain: seq<Registration>, end: nat) {
    && (forall m :: inv(m) ==> ChainIn(m, chain, end))
    && (forall n: nat, s: State :: inv(s.mem) ==> inv(guest(n, s).mem))
  }

  // A guest call that returns leaves fs:[0] as it was.
  ghost predicate ListKept(guest: Guest, inv: Memory -> bool) {
    forall n: nat, s: State :: inv(s.mem) ==> guest(n, s).exceptionList == s.exceptionList
  }

  // The first record from i on at which the unwind stops, or the length of the chain.
  function StopIndex(chain: seq<Registration>, target: nat, i: nat): (k: nat)
    requires i <= |chain|
    ensures i <= k <= |chain|
    decreases |chain| - i
  {
    if i == |chain| || StopsAt(chain[i].address, target) then i else StopIndex(chain, target, i + 1)
  }

  lemma {:induction false} StopIndexIsFirst(chain: seq<Registration>, target: nat, i: nat)
    requires i <= |chain|
    ensures var k := StopIndex(chain, target, i);
            && (k < |chain| ==> StopsAt(chain[k].address, target))
            && forall j :: i <= j < k ==> !StopsAt(chain[j].address, target)
    decreases |chain| - i
  {
    if i < |chain| && !StopsAt(chain[i].address, target) {
      StopIndexIsFirst(chain, target, i + 1);
    }
  }

  // The handlers of the records were called in order, each with fs:[0] still at its own record.
  ghost predicate Called(inv: Memory -> bool, calls: seq<Call>, records: seq<Registration>) {
    && |calls| == |records|
    && forall i :: 0 <= i < |calls| ==>
         && calls[i].registration == records[i] && calls[i].at.exceptionList == records[i].address
         && inv(calls[i].at.mem)
  }

  // An unwind that started at record i called the handlers before record k, and left fs:[0] there.
  ghost predicate UnwoundTo(
    inv: Memory -> bool, calls: seq<Call>, s: State, chain: seq<Registration>, end: nat, i: nat, k: nat)
  {
    && i <= k <= |chain| && Called(inv, calls, chain[i..k])
    && s.exceptionList == AddressAt(chain, end, k) && inv(s.mem)
  }

  // The unwind calls each handler before its stop once, in order, while its record is still linked, and leaves fs:[0]
  // at the stop. It makes at most fuel calls.
  lemma {:induction false} UnwindRegistrationsExact(
    guest: Guest, inv: Memory -> bool, s: State, chain: seq<Registration>, end: nat, i: nat, target: nat, fuel: nat,
    n: nat)
    requires i <= |chain| && inv(s.mem) && ChainKept(guest, inv, chain, end)
    requires s.exceptionList == AddressAt(chain, end, i)
    ensures var (calls, s') := UnwindRegistrations(guest, s, AddressAt(chain, end, i), target, fuel, n);
            var stop := StopIndex(chain, target, i);
            UnwoundTo(inv, calls, s', chain, end, i, if stop <= i + fuel then stop else i + fuel)
    decreases fuel
  {
    hide ReadRegistration, StopsAt, ChainKept, UnwoundTo;
    KeptOnce(guest, inv, s, chain, end, n);
    if fuel == 0 || i == |chain| || StopsAt(chain[i].address, target) {
      UnwindStops(guest, s, chain, end, i, target, fuel, n);
      hide UnwindRegistrations, ChainIn;
      assert fuel == 0 || StopIndex(chain, target, i) == i;
      UnwoundNone(inv, s, chain, end, i);
    } else {
      var stop := StopIndex(chain, target, i);
      assert stop == StopIndex(chain, target, i + 1);
      hide StopIndex, ChainIn, UnwindRegistrations;
      OneRegistration(guest, s, chain, end, i, target, fuel, n);
      var s' := guest(n, s).(exceptionList := AddressAt(chain, end, i + 1));
      UnwindRegistrationsExact(guest, inv, s', chain, end, i + 1, target, fuel - 1, n + 1);
      var (calls, last) := UnwindRegistrations(guest, s', AddressAt(chain, end, i + 1), target, fuel - 1, n + 1);
      UnwoundOne(inv, s, calls, last, chain, end, i, if stop <= i + fuel then stop else i + fuel);
    }
  }

  lemma UnwoundNone(inv: Memory -> bool, s: State, chain: seq<Registration>, end: nat, i: nat)
    requires i <= |chain| && s.exceptionList == AddressAt(chain, end, i) && inv(s.mem)
    ensures UnwoundTo(inv, [], s, chain, end, i, i)
  {
  }

  lemma UnwoundOne(
    inv: Memory -> bool, s: State, calls: seq<Call>, last: State, chain: seq<Registration>, end: nat, i: nat, k: nat)
    requires i < |chain| && s.exceptionList == chain[i].address && inv(s.mem)
    requires UnwoundTo(inv, calls, last, chain, end, i + 1, k)
    ensures UnwoundTo(inv, [Call(chain[i], s)] + calls, last, chain, end, i, k)
  {
    assert chain[i..k] == [chain[i]] + chain[i + 1..k];
  }

  lemma KeptOnce(guest: Guest, inv: Memory -> bool, s: State, chain: seq<Registration>, end: nat, n: nat)
    requires inv(s.mem) && ChainKept(guest, inv, chain, end)
    ensures ChainIn(s.mem, chain, end) && inv(guest(n, s).mem)
  {
  }

  lemma UnwindStops(
    guest: Guest, s: State, chain: seq<Registration>, end: nat, i: nat, target: nat, fuel: nat, n: nat)
    requires ChainIn(s.mem, chain, end) && i <= |chain|
    requires fuel == 0 || i == |chain| || StopsAt(chain[i].address, target)
    ensures UnwindRegistrations(guest, s, AddressAt(chain, end, i), target, fuel, n) == ([], s)
  {
    hide ReadRegistration, StopsAt;
  }

  // One step of the unwind: the handler of record i is called, and fs:[0] becomes the next record.
  lemma OneRegistration(
    guest: Guest, s: State, chain: seq<Registration>, end: nat, i: nat, target: nat, fuel: nat, n: nat)
    requires ChainIn(s.mem, chain, end) && i < |chain| && fuel > 0 && !StopsAt(chain[i].address, target)
    ensures var next := AddressAt(chain, end, i + 1);
            var (calls, s') :=
              UnwindRegistrations(guest, guest(n, s).(exceptionList := next), next, target, fuel - 1, n + 1);
            UnwindRegistrations(guest, s, chain[i].address, target, fuel, n) == ([Call(chain[i], s)] + calls, s')
  {
    hide ReadRegistration, StopsAt;
    assert chain[i] == Registration(chain[i].address, chain[i].handler);
  }

  ghost predicate AddressOrdered(chain: seq<Registration>) {
    forall i, j :: 0 <= i < j < |chain| ==> chain[i].address < chain[j].address
  }

  // RtlUnwind to a registration on an address-ordered chain: fs:[0] becomes the target exactly when no more than
  // MAX_FRAMES records are inside it, and then each of them was called once.
  lemma UnwindReachesTarget(
    guest: Guest, inv: Memory -> bool, s: State, chain: seq<Registration>, end: nat, k: nat, n: nat)
    requires k < |chain| && inv(s.mem) && ChainKept(guest, inv, chain, end) && AddressOrdered(chain)
    requires s.exceptionList == chain[0].address
    ensures var target := chain[k].address;
            var (calls, s') := UnwindRegistrations(guest, s, s.exceptionList, target, MAX_FRAMES, n);
            && inv(s'.mem) && (s'.exceptionList == target <==> k <= MAX_FRAMES)
            && Called(inv, calls, if k <= MAX_FRAMES then chain[..k] else chain[..MAX_FRAMES])
  {
    var target, stop := chain[k].address, StopIndex(chain, chain[k].address, 0);
    UnwindRegistrationsExact(guest, inv, s, chain, end, 0, target, MAX_FRAMES, n);
    hide UnwindRegistrations, ReadRegistration, ChainIn, ChainKept, StopIndex, StopsAt, Called;
    StopsAtTarget(chain, k, 0);
    assert k > MAX_FRAMES ==> chain[MAX_FRAMES].address < target;
    hide AddressOrdered;
  }

  // On an address-ordered chain, an unwind to record k stops there.
  lemma {:induction false} StopsAtTarget(chain: seq<Registration>, k: nat, i: nat)
    requires i <= k < |chain| && AddressOrdered(chain)
    ensures StopIndex(chain, chain[k].address, i) == k
    decreases k - i
  {
    if i < k {
      assert chain[i].address < chain[k].address;
      StopsAtTarget(chain, k, i + 1);
    }
  }

  // An unwind of the whole chain, with a target of 0.
  lemma UnwindAll(guest: Guest, inv: Memory -> bool, s: State, chain: seq<Registration>, end: nat)
    requires |chain| <= MAX_FRAMES && inv(s.mem) && ChainKept(guest, inv, chain, end)
    requires s.exceptionList == AddressAt(chain, end, 0)
    ensures var (calls, s') := UnwindRegistrations(guest, s, s.exceptionList, 0, MAX_FRAMES, 0);
            Called(inv, calls, chain) && s'.exceptionList == end
  {
    UnwindRegistrationsExact(guest, inv, s, chain, end, 0, 0, MAX_FRAMES, 0);
    StopIndexIsFirst(chain, 0, 0);
    hide UnwindRegistrations, StopIndex;
    assert ChainIn(s.mem, chain, end);
  }

  // -- A chain that is too long for one unwind

  // Record j of the chain of an example
  function LongAddress(j: nat): nat {
    16 * (j + 1)
  }

  function LongNext(j: nat, n: nat): nat {
    if j + 1 < n then LongAddress(j + 1) else 0
  }

  function LongChain(j: nat, n: nat): (chain: seq<Registration>)
    requires j <= n
    ensures |chain| == n - j && forall i :: 0 <= i < n - j ==> chain[i] == Registration(LongAddress(j + i), 1)
    decreases n - j
  {
    if j == n then [] else [Registration(LongAddress(j), 1)] + LongChain(j + 1, n)
  }

  function LongMemory(j: nat, n: nat): Memory
    requires j <= n
    decreases n - j
  {
    if j == n then map[]
    else
      var m := Write(LongMemory(j + 1, n), LongAddress(j), ToLE(LongNext(j, n), 4));
      Write(m, LongAddress(j) + 4, ToLE(1, 4))
  }

  ghost predicate RecordHeld(m: Memory, i: nat, n: nat) {
    Holds(m, LongAddress(i), ToLE(LongNext(i, n), 4)) && Holds(m, LongAddress(i) + 4, ToLE(1, 4))
  }

  lemma {:induction false} LongMemoryHolds(j: nat, n: nat)
    requires j <= n
    ensures forall i :: j <= i < n ==> RecordHeld(LongMemory(j, n), i, n)
    decreases n - j
  {
    hide ToLE, RecordHeld, Write, LongAddress, LongNext;
    if j < n {
      LongMemoryHolds(j + 1, n);
      NewRecord(LongMemory(j + 1, n), j, n);
    }
  }

  lemma NewRecord(m: Memory, j: nat, n: nat)
    ensures var m' := Write(Write(m, LongAddress(j), ToLE(LongNext(j, n), 4)), LongAddress(j) + 4, ToLE(1, 4));
            RecordHeld(m', j, n) && forall i: nat :: j < i && RecordHeld(m, i, n) ==> RecordHeld(m', i, n)
  {
    hide ToLE, Write, LongNext;
  }

  lemma RecordReads(m: Memory, i: nat, n: nat)
    requires RecordHeld(m, i, n) && i < n <= 0x100_0000
    ensures ReadRegistration(m, LongAddress(i)) == Some((LongNext(i, n), 1))
  {
    Pow256Values();
    hide Holds, ToLE, Pow256, ReadLE;
    ReadLEHeld(m, LongAddress(i), LongNext(i, n), 4);
    ReadLEHeld(m, LongAddress(i) + 4, 1, 4);
  }

  lemma LongChainHeld(n: nat)
    requires n <= 0x100_0000
    ensures ChainIn(LongMemory(0, n), LongChain(0, n), 0) && AddressOrdered(LongChain(0, n))
  {
    var m, chain := LongMemory(0, n), LongChain(0, n);
    LongMemoryHolds(0, n);
    hide LongMemory, LongChain, ReadRegistration, RecordHeld;
    forall i | 0 <= i < n
      ensures ReadRegistration(m, chain[i].address) == Some((AddressAt(chain, 0, i + 1), chain[i].handler))
    {
      RecordReads(m, i, n);
    }
  }

  // RtlUnwind to a target with more than MAX_FRAMES records inside it can stop before the target: for every such k
  // there is a chain, even with handlers that do nothing, on which the unwind to record k leaves fs:[0] at record
  // MAX_FRAMES.
  lemma LongUnwindStops(k: nat)
    requires MAX_FRAMES < k < 0x100_0000
    ensures var chain, m := LongChain(0, k + 1), LongMemory(0, k + 1);
            var s := State(m, chain[0].address);
            var (_, s') := UnwindRegistrations(Idle, s, s.exceptionList, chain[k].address, MAX_FRAMES, 0);
            && ChainIn(m, chain, 0) && AddressOrdered(chain)
            && s'.exceptionList == chain[MAX_FRAMES].address != chain[k].address
  {
    hide LongMemory, LongChain, LongAddress, UnwindRegistrations, ChainIn, AddressOrdered;
    var chain, m := LongChain(0, k + 1), LongMemory(0, k + 1);
    LongChainHeld(k + 1);
    IdleUnwindStops(m, chain, k);
  }

  // A handler that does nothing
  function Idle(n: nat, s: State): State {
    s
  }

  lemma IdleUnwindStops(m: Memory, chain: seq<Registration>, k: nat)
    requires MAX_FRAMES < k < |chain| && ChainIn(m, chain, 0) && AddressOrdered(chain)
    ensures var s := State(m, chain[0].address);
            var (_, s') := UnwindRegistrations(Idle, s, s.exceptionList, chain[k].address, MAX_FRAMES, 0);
            s'.exceptionList == chain[MAX_FRAMES].address != chain[k].address
  {
    hide UnwindRegistrations, ChainIn, StopIndex, Called;
    StopsAtTarget(chain, k, 0);
    UnwindRegistrationsExact(Idle, m' => m' == m, State(m, chain[0].address), chain, 0, 0, chain[k].address, MAX_FRAMES,
      0);
  }

  // -- Dispatch over the chain

  // dispatch_exception after the vectored handlers: the calls made, the state after them, and whether a handler
  // continued execution. dispositions gives what guest call n returns.
  function DispatchChain(guest: Guest, dispositions: nat -> int, s: State, address: nat, fuel: nat, n: nat)
    : (seq<Call>, State, bool)
    decreases fuel, n
  {
    if fuel == 0 || address == 0 || address == END_OF_CHAIN then ([], s, false)
    else
      match ReadRegistration(s.mem, address)
      case None => ([], s, false)
      case Some((next, handler)) =>
        var call := Call(Registration(address, handler), s);
        if dispositions(n) == CONTINUE_EXECUTION_DISPOSITION then ([call], guest(n, s), true)
        else
          var (calls, end, taken) := DispatchChain(guest, dispositions, guest(n, s), next, fuel - 1, n + 1);
          ([call] + calls, end, taken)
  }

  // The records i to k were offered the exception in order, with fs:[0] where it was, and only the last could take it.
  ghost predicate OfferedTo(
    inv: Memory -> bool, dispositions: nat -> int, calls: seq<Call>, taken: bool, list: nat, chain: seq<Registration>,
    i: nat, k: nat, n: nat)
  {
    && i <= k <= |chain| && |calls| == k - i
    && (forall j :: 0 <= j < |calls| ==>
          calls[j].registration == chain[i + j] && calls[j].at.exceptionList == list && inv(calls[j].at.mem))
    && (forall j: nat :: n <= j < n + |calls| && (j + 1 < n + |calls| || !taken) ==>
          dispositions(j) != CONTINUE_EXECUTION_DISPOSITION)
    && (taken ==> calls != [] && dispositions(n + |calls| - 1) == CONTINUE_EXECUTION_DISPOSITION)
  }

  // A dispatch offers the exception to the records of the chain in order, up to the first that takes it, but to at most
  // fuel records.
  lemma {:induction false} DispatchOffers(
    guest: Guest, dispositions: nat -> int, inv: Memory -> bool, s: State, chain: seq<Registration>, end: nat, i: nat,
    fuel: nat, n: nat)
    returns (k: nat)
    requires i <= |chain| && inv(s.mem) && ChainKept(guest, inv, chain, end)
    requires ListKept(guest, inv)
    ensures var (calls, _, taken) := DispatchChain(guest, dispositions, s, AddressAt(chain, end, i), fuel, n);
            && OfferedTo(inv, dispositions, calls, taken, s.exceptionList, chain, i, k, n) && k <= i + fuel
            && (!taken ==> k == |chain| || k == i + fuel)
    decreases fuel
  {
    hide ReadRegistration, ChainKept, OfferedTo;
    KeptOnce(guest, inv, s, chain, end, n);
    k := i;
    if fuel == 0 || i == |chain| {
      OfferedNone(inv, dispositions, s.exceptionList, chain, i, n);
    } else {
      var call := Call(chain[i], s);
      OneOffer(guest, dispositions, s, chain, end, i, fuel, n);
      hide DispatchChain, ChainIn;
      if dispositions(n) == CONTINUE_EXECUTION_DISPOSITION {
        k := i + 1;
        OfferedLast(inv, dispositions, call, chain, i, n);
      } else {
        k := DispatchOffers(guest, dispositions, inv, guest(n, s), chain, end, i + 1, fuel - 1, n + 1);
        var next := AddressAt(chain, end, i + 1);
        var (calls, _, taken) := DispatchChain(guest, dispositions, guest(n, s), next, fuel - 1, n + 1);
        OfferedBefore(inv, dispositions, call, calls, taken, chain, i, k, n);
      }
    }
  }

  // One step of the dispatch
  lemma OneOffer(
    guest: Guest, dispositions: nat -> int, s: State, chain: seq<Registration>, end: nat, i: nat, fuel: nat, n: nat)
    requires ChainIn(s.mem, chain, end) && i < |chain| && fuel > 0
    ensures var next := AddressAt(chain, end, i + 1);
            var (calls, s', taken) := DispatchChain(guest, dispositions, guest(n, s), next, fuel - 1, n + 1);
            DispatchChain(guest, dispositions, s, chain[i].address, fuel, n) ==
              if dispositions(n) == CONTINUE_EXECUTION_DISPOSITION then ([Call(chain[i], s)], guest(n, s), true)
              else ([Call(chain[i], s)] + calls, s', taken)
  {
    hide ReadRegistration;
    assert chain[i] == Registration(chain[i].address, chain[i].handler);
  }

  lemma OfferedNone(
    inv: Memory -> bool, dispositions: nat -> int, list: nat, chain: seq<Registration>, i: nat, n: nat)
    requires i <= |chain|
    ensures OfferedTo(inv, dispositions, [], false, list, chain, i, i, n)
  {
  }

  lemma OfferedLast(
    inv: Memory -> bool, dispositions: nat -> int, call: Call, chain: seq<Registration>, i: nat, n: nat)
    requires i < |chain| && call.registration == chain[i] && inv(call.at.mem)
    requires dispositions(n) == CONTINUE_EXECUTION_DISPOSITION
    ensures OfferedTo(inv, dispositions, [call], true, call.at.exceptionList, chain, i, i + 1, n)
  {
  }

  lemma OfferedBefore(
    inv: Memory -> bool, dispositions: nat -> int, call: Call, calls: seq<Call>, taken: bool, chain: seq<Registration>,
    i: nat, k: nat, n: nat)
    requires i < |chain| && call.registration == chain[i] && inv(call.at.mem)
    requires dispositions(n) != CONTINUE_EXECUTION_DISPOSITION
    requires OfferedTo(inv, dispositions, calls, taken, call.at.exceptionList, chain, i + 1, k, n + 1)
    ensures OfferedTo(inv, dispositions, [call] + calls, taken, call.at.exceptionList, chain, i, k, n)
  {
    assert ([call] + calls)[1..] == calls;
    forall j | 0 < j < |calls| + 1 ensures ([call] + calls)[j].registration == chain[i + j] {
      assert ([call] + calls)[j] == calls[j - 1];
      assert chain[i + 1 + (j - 1)] == chain[i + j];
    }
  }

  // -- The try levels of an MSVC frame

  // registration is the address of the record; table that of its first scope; none the level outside all scopes.
  datatype MsvcFrame = MsvcFrame(registration: int, table: int, none: nat)

  // A scope: the enclosing level, the filter (0 for a __finally) and the handler.
  datatype Scope = Scope(level: nat, enclosing: nat, filter: nat, handler: nat)

  function TryLevel(m: Memory, f: MsvcFrame): Option<nat> {
    ReadU32(m, f.registration + TRY_LEVEL)
  }

  function SetTryLevel(m: Memory, f: MsvcFrame, level: nat): Memory {
    Write(m, f.registration + TRY_LEVEL, ToLE(level % W32, 4))
  }

  lemma TryLevelSet(m: Memory, f: MsvcFrame, level: nat)
    requires level < W32
    ensures TryLevel(SetTryLevel(m, f, level), f) == Some(level)
  {
    Pow256Values();
    hide ToLE, FromLE, Write, ReadLE, Pow256;
    ReadLEHeld(SetTryLevel(m, f, level), f.registration + TRY_LEVEL, level, 4);
  }

  function ReadScope(m: Memory, f: MsvcFrame, level: nat): (r: Option<Scope>)
    ensures r.Some? ==> r.value.level == level && r.value.enclosing < W32
  {
    Pow256Values();
    var enclosing :- ReadU32Below(m, f.table + 12 * level);
    var filter :- ReadU32(m, f.table + 12 * level + 4);
    var handler :- ReadU32(m, f.table + 12 * level + 8);
    Some(Scope(level, enclosing, filter, handler))
  }

  function ReadU32Below(m: Memory, a: int): (r: Option<nat>)
    ensures r.Some? ==> r.value < W32
    ensures r == ReadU32(m, a)
  {
    Pow256Values();
    match Read(m, a, 4)
    case None => None
    case Some(data) => FromLEBound(data); Some(FromLE(data))
  }

  datatype End = Done | Fault

  // A call of a __finally block: its try level and handler, and the state that the guest gets.
  datatype Block = Block(level: nat, handler: nat, at: State)

  // MsvcFrame.local_unwind: the blocks called, the state after them, and whether a read failed.
  function LocalUnwind(guest: Guest, s: State, f: MsvcFrame, stop: nat, fuel: nat, n: nat): (seq<Block>, State, End)
    decreases fuel, n
  {
    if fuel == 0 then ([], s, Done)
    else
      match TryLevel(s.mem, f)
      case None => ([], s, Fault)
      case Some(level) =>
        if level == f.none || level == stop then ([], s, Done)
        else
          match ReadScope(s.mem, f, level)
          case None => ([], s, Fault)
          case Some(scope) =>
            var lowered := s.(mem := SetTryLevel(s.mem, f, scope.enclosing));
            if scope.filter != 0 then LocalUnwind(guest, lowered, f, stop, fuel - 1, n)
            else
              var (blocks, end, e) := LocalUnwind(guest, guest(n, lowered), f, stop, fuel - 1, n + 1);
              ([Block(level, scope.handler, lowered)] + blocks, end, e)
  }

  function LevelAt(f: MsvcFrame, scopes: seq<Scope>, i: nat): nat
    requires i <= |scopes|
  {
    if i < |scopes| then scopes[i].level else f.none
  }

  // The scopes from a level to the outside, innermost first.
  ghost predicate ScopesIn(m: Memory, f: MsvcFrame, scopes: seq<Scope>) {
    && f.none < W32 && TryLevel(m, f).Some?
    && forall i :: 0 <= i < |scopes| ==>
         && scopes[i].level != f.none
         && scopes[i].enclosing == LevelAt(f, scopes, i + 1)
         && ReadScope(m, f, scopes[i].level) == Some(scopes[i])
  }

  // The scopes stay in memory through guest calls and changes of the try level, and a guest call that returns leaves
  // the try level of the frame as it was.
  ghost predicate ScopesKept(guest: Guest, inv: Memory -> bool, f: MsvcFrame, scopes: seq<Scope>) {
    && (forall m :: inv(m) ==> ScopesIn(m, f, scopes))
    && (forall m, level :: inv(m) ==> inv(SetTryLevel(m, f, level)))
    && (forall n: nat, s: State ::
          inv(s.mem) ==> inv(guest(n, s).mem) && TryLevel(guest(n, s).mem, f) == TryLevel(s.mem, f))
  }

  // The levels on the way to the outside are distinct: a level that came back would never reach the outside.
  lemma {:induction false} LevelsDistinct(m: Memory, f: MsvcFrame, scopes: seq<Scope>, i: nat, j: nat)
    requires ScopesIn(m, f, scopes) && i < j <= |scopes|
    ensures scopes[i].level != LevelAt(f, scopes, j)
    decreases |scopes| - j
  {
    hide ReadScope, TryLevel;
    if j < |scopes| && scopes[i].level == scopes[j].level {
      assert scopes[i] == scopes[j];
      if i + 1 < |scopes| {
        LevelsDistinct(m, f, scopes, i + 1, j + 1);
      }
    }
  }

  // Guest call n, after the try level was lowered.
  lemma LoweredKept(guest: Guest, inv: Memory -> bool, s: State, f: MsvcFrame, scopes: seq<Scope>, level: nat, n: nat)
    requires inv(s.mem) && ScopesKept(guest, inv, f, scopes) && level < W32
    ensures var lowered := s.(mem := SetTryLevel(s.mem, f, level));
            && inv(lowered.mem) && TryLevel(lowered.mem, f) == Some(level)
            && inv(guest(n, lowered).mem) && TryLevel(guest(n, lowered).mem, f) == Some(level)
  {
    hide TryLevel, SetTryLevel, ScopesIn;
    TryLevelSet(s.mem, f, level);
  }

  lemma ScopesThere(guest: Guest, inv: Memory -> bool, m: Memory, f: MsvcFrame, scopes: seq<Scope>)
    requires inv(m) && ScopesKept(guest, inv, f, scopes)
    ensures ScopesIn(m, f, scopes) && forall k :: 0 <= k < |scopes| ==> scopes[k].enclosing == LevelAt(f, scopes, k + 1)
  {
  }

  // The scopes with __finally blocks, in order.
  function Finallys(scopes: seq<Scope>): seq<Scope> {
    if scopes == [] then []
    else if scopes[0].filter == 0 then [scopes[0]] + Finallys(scopes[1..])
    else Finallys(scopes[1..])
  }

  // A call ran the block of a scope, and the guest found the try level of the frame lowered past it.
  ghost predicate RanOne(inv: Memory -> bool, f: MsvcFrame, b: Block, scope: Scope) {
    && b.level == scope.level && b.handler == scope.handler
    && inv(b.at.mem) && TryLevel(b.at.mem, f) == Some(scope.enclosing)
  }

  ghost predicate Ran(inv: Memory -> bool, f: MsvcFrame, blocks: seq<Block>, scopes: seq<Scope>) {
    |blocks| == |scopes| && forall c :: 0 <= c < |blocks| ==> RanOne(inv, f, blocks[c], scopes[c])
  }

  // The scopes i to j were left: exactly their __finally blocks ran, innermost first, and the frame is at level j.
  ghost predicate Left(
    inv: Memory -> bool, f: MsvcFrame, scopes: seq<Scope>, i: nat, j: nat, blocks: seq<Block>, s: State, e: End)
  {
    && i <= j <= |scopes| && Ran(inv, f, blocks, Finallys(scopes[i..j])) && e == Done
    && inv(s.mem) && TryLevel(s.mem, f) == Some(LevelAt(f, scopes, j))
  }

  // Leaving the scopes i to j runs exactly their __finally blocks, and each call finds the try level already lowered
  // past its block.
  lemma {:induction false} LocalUnwindExact(
    guest: Guest, inv: Memory -> bool, s: State, f: MsvcFrame, scopes: seq<Scope>, i: nat, j: nat, fuel: nat, n: nat)
    requires i <= j <= |scopes| && j - i <= fuel
    requires inv(s.mem) && ScopesKept(guest, inv, f, scopes)
    requires TryLevel(s.mem, f) == Some(LevelAt(f, scopes, i))
    ensures var (blocks, s', e) := LocalUnwind(guest, s, f, LevelAt(f, scopes, j), fuel, n);
            Left(inv, f, scopes, i, j, blocks, s', e)
    decreases j - i
  {
    hide TryLevel, SetTryLevel, ReadScope, ScopesKept, Left;
    ScopesThere(guest, inv, s.mem, f, scopes);
    if i == j {
      LeftNone(inv, f, scopes, i, s);
    } else {
      LevelsDistinct(s.mem, f, scopes, i, j);
      var scope, stop := scopes[i], LevelAt(f, scopes, j);
      var lowered := s.(mem := SetTryLevel(s.mem, f, scope.enclosing));
      EnclosingBound(s.mem, f, scopes, i);
      LoweredKept(guest, inv, s, f, scopes, scope.enclosing, n);
      LeaveOne(guest, s, f, scopes, i, stop, fuel, n);
      hide ScopesIn, LocalUnwind;
      if scope.filter != 0 {
        LocalUnwindExact(guest, inv, lowered, f, scopes, i + 1, j, fuel - 1, n);
        var (blocks, s', e) := LocalUnwind(guest, lowered, f, stop, fuel - 1, n);
        LeftFilter(inv, f, scopes, i, j, blocks, s', e);
      } else {
        LocalUnwindExact(guest, inv, guest(n, lowered), f, scopes, i + 1, j, fuel - 1, n + 1);
        var (blocks, s', e) := LocalUnwind(guest, guest(n, lowered), f, stop, fuel - 1, n + 1);
        LeftBlock(inv, f, scopes, i, j, Block(scope.level, scope.handler, lowered), blocks, s', e);
      }
    }
  }

  lemma LeftNone(inv: Memory -> bool, f: MsvcFrame, scopes: seq<Scope>, i: nat, s: State)
    requires i <= |scopes| && inv(s.mem) && TryLevel(s.mem, f) == Some(LevelAt(f, scopes, i))
    ensures Left(inv, f, scopes, i, i, [], s, Done)
  {
    hide TryLevel, RanOne;
    assert scopes[i..i] == [];
  }

  lemma LeftFilter(
    inv: Memory -> bool, f: MsvcFrame, scopes: seq<Scope>, i: nat, j: nat, blocks: seq<Block>, s: State, e: End)
    requires Left(inv, f, scopes, i + 1, j, blocks, s, e) && scopes[i].filter != 0
    ensures Left(inv, f, scopes, i, j, blocks, s, e)
  {
    hide TryLevel, Ran;
    assert scopes[i..j][1..] == scopes[i + 1..j];
  }

  lemma LeftBlock(
    inv: Memory -> bool, f: MsvcFrame, scopes: seq<Scope>, i: nat, j: nat, block: Block, blocks: seq<Block>, s: State,
    e: End)
    requires Left(inv, f, scopes, i + 1, j, blocks, s, e) && scopes[i].filter == 0 && RanOne(inv, f, block, scopes[i])
    ensures Left(inv, f, scopes, i, j, [block] + blocks, s, e)
  {
    hide TryLevel, Ran;
    assert scopes[i..j][1..] == scopes[i + 1..j];
    RanFirst(inv, f, block, scopes[i], blocks, Finallys(scopes[i + 1..j]));
  }

  lemma RanFirst(inv: Memory -> bool, f: MsvcFrame, block: Block, scope: Scope, blocks: seq<Block>, scopes: seq<Scope>)
    requires RanOne(inv, f, block, scope) && Ran(inv, f, blocks, scopes)
    ensures Ran(inv, f, [block] + blocks, [scope] + scopes)
  {
    hide RanOne;
  }

  lemma EnclosingBound(m: Memory, f: MsvcFrame, scopes: seq<Scope>, i: nat)
    requires ScopesIn(m, f, scopes) && i < |scopes|
    ensures scopes[i].enclosing < W32
  {
    hide TryLevel;
    assert ReadScope(m, f, scopes[i].level) == Some(scopes[i]);
  }

  // An unwind leaves scope i first.
  lemma LeaveOne(guest: Guest, s: State, f: MsvcFrame, scopes: seq<Scope>, i: nat, stop: nat, fuel: nat, n: nat)
    requires i < |scopes| && fuel > 0 && scopes[i].level != stop
    requires ScopesIn(s.mem, f, scopes) && TryLevel(s.mem, f) == Some(LevelAt(f, scopes, i))
    ensures var scope := scopes[i];
            var lowered := s.(mem := SetTryLevel(s.mem, f, scope.enclosing));
            LocalUnwind(guest, s, f, stop, fuel, n) ==
              if scope.filter != 0 then LocalUnwind(guest, lowered, f, stop, fuel - 1, n)
              else
                var (blocks, end, e) := LocalUnwind(guest, guest(n, lowered), f, stop, fuel - 1, n + 1);
                ([Block(scope.level, scope.handler, lowered)] + blocks, end, e)
  {
    hide TryLevel, SetTryLevel, ReadScope;
  }

  // s' is s but for the try level of the frame.
  ghost predicate OnlyLevel(f: MsvcFrame, s: State, s': State) {
    && s'.exceptionList == s.exceptionList
    && forall k :: !(f.registration + TRY_LEVEL <= k < f.registration + TRY_LEVEL + 4) ==>
         (k in s'.mem <==> k in s.mem) && (k in s.mem ==> s'.mem[k] == s.mem[k])
  }

  lemma LevelWritten(f: MsvcFrame, s: State, level: nat, s': State)
    requires OnlyLevel(f, s.(mem := SetTryLevel(s.mem, f, level)), s')
    ensures OnlyLevel(f, s, s')
  {
  }

  // From s to end, call after call: the guest gets the state of each block, and nothing but the try level is written
  // between the calls.
  ghost predicate CallsInBetween(guest: Guest, f: MsvcFrame, s: State, blocks: seq<Block>, end: State, n: nat)
    decreases |blocks|
  {
    if blocks == [] then OnlyLevel(f, s, end)
    else OnlyLevel(f, s, blocks[0].at) && CallsInBetween(guest, f, guest(n, blocks[0].at), blocks[1..], end, n + 1)
  }

  lemma {:induction false} LocalUnwindWrites(guest: Guest, s: State, f: MsvcFrame, stop: nat, fuel: nat, n: nat)
    ensures var (blocks, end, _) := LocalUnwind(guest, s, f, stop, fuel, n);
            CallsInBetween(guest, f, s, blocks, end, n)
    decreases fuel
  {
    hide TryLevel, SetTryLevel, ReadScope;
    if fuel > 0 && TryLevel(s.mem, f).Some? && ReadScope(s.mem, f, TryLevel(s.mem, f).value).Some? {
      var level := TryLevel(s.mem, f).value;
      var scope := ReadScope(s.mem, f, level).value;
      var lowered := s.(mem := SetTryLevel(s.mem, f, scope.enclosing));
      LevelWritten(f, s, scope.enclosing, lowered);
      if scope.filter != 0 {
        LocalUnwindWrites(guest, lowered, f, stop, fuel - 1, n);
        var (blocks, end, _) := LocalUnwind(guest, lowered, f, stop, fuel - 1, n);
        LevelWritten(f, s, scope.enclosing, if blocks == [] then end else blocks[0].at);
      } else {
        LocalUnwindWrites(guest, guest(n, lowered), f, stop, fuel - 1, n + 1);
      }
    }
  }

  // The calls ran the blocks of scopes that are further and further out, from scope i on. places gives the scopes.
  ghost predicate RanAt(
    inv: Memory -> bool, f: MsvcFrame, blocks: seq<Block>, scopes: seq<Scope>, places: seq<nat>, i: nat)
  {
    && |places| == |blocks|
    && (forall c :: 0 <= c < |places| ==> i <= places[c] < |scopes| && RanOne(inv, f, blocks[c], scopes[places[c]]))
    && forall c, d :: 0 <= c < d < |places| ==> places[c] < places[d]
  }

  // Whatever the stop level and the limit, an unwind from scope i calls blocks of scopes further and further out, and
  // each call finds the try level lowered past its block.
  lemma {:induction false} LocalUnwindPlaces(
    guest: Guest, inv: Memory -> bool, s: State, f: MsvcFrame, scopes: seq<Scope>, i: nat, stop: nat, fuel: nat, n: nat)
    returns (places: seq<nat>)
    requires i <= |scopes| && inv(s.mem) && ScopesKept(guest, inv, f, scopes)
    requires TryLevel(s.mem, f) == Some(LevelAt(f, scopes, i))
    ensures RanAt(inv, f, LocalUnwind(guest, s, f, stop, fuel, n).0, scopes, places, i)
    decreases fuel
  {
    hide TryLevel, SetTryLevel, ReadScope, RanAt, ScopesKept;
    ScopesThere(guest, inv, s.mem, f, scopes);
    if fuel == 0 || i == |scopes| || scopes[i].level == stop {
      places := [];
      RanNothing(inv, f, scopes, i);
    } else {
      var scope := scopes[i];
      var lowered := s.(mem := SetTryLevel(s.mem, f, scope.enclosing));
      LeaveOne(guest, s, f, scopes, i, stop, fuel, n);
      EnclosingBound(s.mem, f, scopes, i);
      LoweredKept(guest, inv, s, f, scopes, scope.enclosing, n);
      hide ScopesIn, LocalUnwind;
      if scope.filter != 0 {
        places := LocalUnwindPlaces(guest, inv, lowered, f, scopes, i + 1, stop, fuel - 1, n);
        RanFrom(inv, f, LocalUnwind(guest, lowered, f, stop, fuel - 1, n).0, scopes, places, i);
      } else {
        var rest := LocalUnwindPlaces(guest, inv, guest(n, lowered), f, scopes, i + 1, stop, fuel - 1, n + 1);
        places := [i] + rest;
        var blocks := LocalUnwind(guest, guest(n, lowered), f, stop, fuel - 1, n + 1).0;
        RanBefore(inv, f, Block(scope.level, scope.handler, lowered), blocks, scopes, rest, i);
      }
    }
  }

  lemma RanNothing(inv: Memory -> bool, f: MsvcFrame, scopes: seq<Scope>, i: nat)
    ensures RanAt(inv, f, [], scopes, [], i)
  {
  }

  lemma RanFrom(
    inv: Memory -> bool, f: MsvcFrame, blocks: seq<Block>, scopes: seq<Scope>, places: seq<nat>, i: nat)
    requires RanAt(inv, f, blocks, scopes, places, i + 1)
    ensures RanAt(inv, f, blocks, scopes, places, i)
  {
    hide RanOne;
  }

  lemma RanBefore(
    inv: Memory -> bool, f: MsvcFrame, block: Block, blocks: seq<Block>, scopes: seq<Scope>, places: seq<nat>, i: nat)
    requires i < |scopes| && RanOne(inv, f, block, scopes[i]) && RanAt(inv, f, blocks, scopes, places, i + 1)
    ensures RanAt(inv, f, [block] + blocks, scopes, [i] + places, i)
  {
    hide RanOne;
  }

  // Call c of an unwind never returns, and a later unwind of the frame starts in some state t that kept the try level
  // that the call found. The later unwind, with any guest, stop level and limit, runs none of the blocks that the first
  // one called.
  lemma NoBlockTwice(
    guest: Guest, later: Guest, inv: Memory -> bool, s: State, t: State, f: MsvcFrame, scopes: seq<Scope>, i: nat,
    stop: nat, laterStop: nat, fuel: nat, laterFuel: nat, n: nat, laterN: nat, c: nat)
    requires ScopesKept(guest, inv, f, scopes) && ScopesKept(later, inv, f, scopes)
    requires i <= |scopes| && inv(s.mem) && TryLevel(s.mem, f) == Some(LevelAt(f, scopes, i))
    requires c < |LocalUnwind(guest, s, f, stop, fuel, n).0|
    requires inv(t.mem) && TryLevel(t.mem, f) == TryLevel(LocalUnwind(guest, s, f, stop, fuel, n).0[c].at.mem, f)
    ensures var first := LocalUnwind(guest, s, f, stop, fuel, n).0[..c + 1];
            var second := LocalUnwind(later, t, f, laterStop, laterFuel, laterN).0;
            var all := first + second;
            forall a, b :: 0 <= a < b < |all| ==> all[a].level != all[b].level
  {
    hide LocalUnwind, TryLevel, ReadScope, ScopesKept, ScopesIn, RanAt, RanOne;
    var blocks := LocalUnwind(guest, s, f, stop, fuel, n).0;
    var places := LocalUnwindPlaces(guest, inv, s, f, scopes, i, stop, fuel, n);
    ScopesThere(guest, inv, s.mem, f, scopes);
    FoundLevel(inv, f, blocks, scopes, places, i, c);
    var second := LocalUnwind(later, t, f, laterStop, laterFuel, laterN).0;
    var rest := LocalUnwindPlaces(later, inv, t, f, scopes, places[c] + 1, laterStop, laterFuel, laterN);
    JoinRuns(inv, f, blocks, second, scopes, places, rest, i, c);
    LevelsApart(inv, s.mem, f, blocks[..c + 1] + second, scopes, places[..c + 1] + rest, i);
  }

  lemma FoundLevel(
    inv: Memory -> bool, f: MsvcFrame, blocks: seq<Block>, scopes: seq<Scope>, places: seq<nat>, i: nat, c: nat)
    requires RanAt(inv, f, blocks, scopes, places, i) && c < |blocks|
    ensures |places| == |blocks| && places[c] < |scopes|
    ensures TryLevel(blocks[c].at.mem, f) == Some(scopes[places[c]].enclosing)
  {
    hide TryLevel;
  }

  lemma JoinRuns(
    inv: Memory -> bool, f: MsvcFrame, first: seq<Block>, second: seq<Block>, scopes: seq<Scope>, places: seq<nat>,
    rest: seq<nat>, i: nat, c: nat)
    requires RanAt(inv, f, first, scopes, places, i) && c < |first| && |places| == |first|
    requires RanAt(inv, f, second, scopes, rest, places[c] + 1)
    ensures RanAt(inv, f, first[..c + 1] + second, scopes, places[..c + 1] + rest, i)
  {
    hide RanOne;
  }

  lemma LevelsApart(
    inv: Memory -> bool, m: Memory, f: MsvcFrame, blocks: seq<Block>, scopes: seq<Scope>, places: seq<nat>, i: nat)
    requires ScopesIn(m, f, scopes) && RanAt(inv, f, blocks, scopes, places, i)
    ensures forall a, b :: 0 <= a < b < |blocks| ==> blocks[a].level != blocks[b].level
  {
    hide TryLevel, ScopesIn;
    forall a, b | 0 <= a < b < |blocks| ensures blocks[a].level != blocks[b].level {
      assert RanOne(inv, f, blocks[a], scopes[places[a]]) && RanOne(inv, f, blocks[b], scopes[places[b]]);
      LevelsDistinct(m, f, scopes, places[a], places[b]);
    }
  }

  // And no block is lost: if the later unwind goes to the stop of the first, the blocks that the two called are those
  // that one unwind without the interruption calls.
  lemma CutUnwindCompletes(
    guest: Guest, later: Guest, inv: Memory -> bool, s: State, t: State, f: MsvcFrame, scopes: seq<Scope>, i: nat,
    j: nat, fuel: nat, n: nat, laterN: nat, c: nat)
    requires ScopesKept(guest, inv, f, scopes) && ScopesKept(later, inv, f, scopes)
    requires i <= j <= |scopes| && j - i <= fuel && inv(s.mem) && TryLevel(s.mem, f) == Some(LevelAt(f, scopes, i))
    requires c < |LocalUnwind(guest, s, f, LevelAt(f, scopes, j), fuel, n).0|
    requires inv(t.mem)
    requires TryLevel(t.mem, f) == TryLevel(LocalUnwind(guest, s, f, LevelAt(f, scopes, j), fuel, n).0[c].at.mem, f)
    ensures var stop := LevelAt(f, scopes, j);
            var first := LocalUnwind(guest, s, f, stop, fuel, n).0[..c + 1];
            var (second, end, e) := LocalUnwind(later, t, f, stop, fuel, laterN);
            Ran(inv, f, first + second, Finallys(scopes[i..j])) && e == Done && TryLevel(end.mem, f) == Some(stop)
  {
    hide LocalUnwind, TryLevel, ReadScope, ScopesKept, ScopesIn, Ran, Finallys;
    var stop := LevelAt(f, scopes, j);
    var blocks := LocalUnwind(guest, s, f, stop, fuel, n).0;
    LocalUnwindExact(guest, inv, s, f, scopes, i, j, fuel, n);
    var all := Finallys(scopes[i..j]);
    RanHere(inv, f, blocks, all, c);
    var k := ScopeOfFinally(scopes, i, j, c);
    ScopesThere(guest, inv, s.mem, f, scopes);
    LocalUnwindExact(later, inv, t, f, scopes, k + 1, j, fuel, laterN);
    RanOn(inv, f, blocks, LocalUnwind(later, t, f, stop, fuel, laterN).0, all, c);
  }

  lemma RanHere(inv: Memory -> bool, f: MsvcFrame, blocks: seq<Block>, all: seq<Scope>, c: nat)
    requires Ran(inv, f, blocks, all) && c < |blocks|
    ensures |all| == |blocks| && TryLevel(blocks[c].at.mem, f) == Some(all[c].enclosing)
  {
    hide TryLevel;
  }

  lemma RanOn(inv: Memory -> bool, f: MsvcFrame, first: seq<Block>, second: seq<Block>, all: seq<Scope>, c: nat)
    requires Ran(inv, f, first, all) && c < |first| && |all| == |first| && Ran(inv, f, second, all[c + 1..])
    ensures Ran(inv, f, first[..c + 1] + second, all)
  {
    hide RanOne;
  }

  // The scope of a block, and the blocks after it.
  lemma {:induction false} ScopeOfFinally(scopes: seq<Scope>, i: nat, j: nat, c: nat) returns (k: nat)
    requires i <= j <= |scopes| && c < |Finallys(scopes[i..j])|
    ensures i <= k < j && scopes[k] == Finallys(scopes[i..j])[c]
    ensures Finallys(scopes[k + 1..j]) == Finallys(scopes[i..j])[c + 1..]
    decreases j - i
  {
    assert scopes[i..j][1..] == scopes[i + 1..j];
    if scopes[i].filter != 0 {
      k := ScopeOfFinally(scopes, i + 1, j, c);
    } else if c > 0 {
      k := ScopeOfFinally(scopes, i + 1, j, c - 1);
    } else {
      k := i;
    }
  }

  // -- The MSVC language handler

  datatype Search = Accepts(scope: Scope) | Continues | NotTaken | SearchFault

  // The search from a level outwards: the result, the state after the filters, and the number of guest calls so far.
  // verdicts gives the return value of the filter of each level.
  function SearchLevels(guest: Guest, verdicts: nat -> int, s: State, f: MsvcFrame, level: nat, fuel: nat, n: nat)
    : (Search, State, nat)
    decreases fuel, n
  {
    if fuel == 0 || level == f.none then (NotTaken, s, n)
    else
      match ReadScope(s.mem, f, level)
      case None => (SearchFault, s, n)
      case Some(scope) =>
        if scope.filter == 0 then SearchLevels(guest, verdicts, s, f, scope.enclosing, fuel - 1, n)
        else
          var verdict := AsLong(verdicts(level));
          if verdict < 0 then (Continues, guest(n, s), n + 1)
          else if verdict > 0 then (Accepts(scope), guest(n, s), n + 1)
          else SearchLevels(guest, verdicts, guest(n, s), f, scope.enclosing, fuel - 1, n + 1)
  }

  // Where an __except block starts: the registers that the handler sets.
  datatype Result = ContinueSearch | ContinueExecution | ResumeAt(ebp: int, esp: nat, eip: nat) | Failed

  datatype Handled = Handled(result: Result, state: State, registrations: seq<Call>, blocks: seq<Block>)

  // msvc_handler
  function MsvcHandler(guest: Guest, verdicts: nat -> int, s: State, f: MsvcFrame, unwinding: bool): Handled
    requires f.registration >= 0
  {
    if unwinding then
      var (blocks, s', end) := LocalUnwind(guest, s, f, f.none, MAX_FRAMES, 0);
      Handled(if end.Fault? then Failed else ContinueSearch, s', [], blocks)
    else if TryLevel(s.mem, f).None? then Handled(Failed, s, [], [])
    else
      var (search, s1, n) := SearchLevels(guest, verdicts, s, f, TryLevel(s.mem, f).value, MAX_FRAMES, 0);
      match search
      case NotTaken => Handled(ContinueSearch, s1, [], [])
      case Continues => Handled(ContinueExecution, s1, [], [])
      case SearchFault => Handled(Failed, s1, [], [])
      case Accepts(scope) => AcceptException(guest, s1, f, scope, n)
  }

  // Unwind to the frame, leave the scopes inside the one that takes the exception, and continue in its block.
  function AcceptException(guest: Guest, s: State, f: MsvcFrame, scope: Scope, n: nat): Handled
    requires f.registration >= 0
  {
    var (registrations, s2) := UnwindRegistrations(guest, s, s.exceptionList, f.registration, MAX_FRAMES, n);
    var (blocks, s3, end) := LocalUnwind(guest, s2, f, scope.level, MAX_FRAMES, n + |registrations|);
    if end.Fault? then Handled(Failed, s3, registrations, blocks)
    else
      var s4 := s3.(mem := SetTryLevel(s3.mem, f, scope.enclosing));
      match ReadU32(s4.mem, f.registration + SAVED_ESP)
      case None => Handled(Failed, s4, registrations, blocks)
      case Some(esp) => Handled(ResumeAt(f.registration + FRAME_POINTER, esp, scope.handler), s4, registrations, blocks)
  }

  // Scope i is the first on the way out whose filter takes the exception.
  predicate FirstAccepting(scopes: seq<Scope>, verdicts: nat -> int, i: nat) {
    && i < |scopes| && scopes[i].filter != 0 && AsLong(verdicts(scopes[i].level)) > 0
    && forall j :: 0 <= j < i && scopes[j].filter != 0 ==> AsLong(verdicts(scopes[j].level)) == 0
  }

  lemma FilterKept(guest: Guest, inv: Memory -> bool, s: State, f: MsvcFrame, scopes: seq<Scope>, n: nat)
    requires inv(s.mem) && ScopesKept(guest, inv, f, scopes) && ListKept(guest, inv)
    ensures var s' := guest(n, s);
            inv(s'.mem) && TryLevel(s'.mem, f) == TryLevel(s.mem, f) && s'.exceptionList == s.exceptionList
  {
    hide TryLevel, SetTryLevel, ScopesIn;
  }

  // The search passes a scope that does not decide, and ends at scope i.
  lemma SearchStep(
    guest: Guest, verdicts: nat -> int, s: State, f: MsvcFrame, scopes: seq<Scope>, k: nat, i: nat, fuel: nat, n: nat)
    requires k <= i && fuel > 0 && FirstAccepting(scopes, verdicts, i) && ScopesIn(s.mem, f, scopes)
    ensures i < |scopes|
    ensures SearchLevels(guest, verdicts, s, f, scopes[k].level, fuel, n) ==
              if k == i then (Accepts(scopes[i]), guest(n, s), n + 1)
              else if scopes[k].filter == 0 then SearchLevels(guest, verdicts, s, f, scopes[k + 1].level, fuel - 1, n)
              else SearchLevels(guest, verdicts, guest(n, s), f, scopes[k + 1].level, fuel - 1, n + 1)
  {
    hide TryLevel, ReadScope, AsLong;
  }

  lemma {:induction false} SearchFinds(
    guest: Guest, verdicts: nat -> int, inv: Memory -> bool, s: State, f: MsvcFrame, scopes: seq<Scope>, k: nat, i: nat,
    fuel: nat, n: nat)
    requires k <= i && i - k < fuel && FirstAccepting(scopes, verdicts, i)
    requires inv(s.mem) && ScopesKept(guest, inv, f, scopes) && ListKept(guest, inv)
    ensures var (search, s', _) := SearchLevels(guest, verdicts, s, f, scopes[k].level, fuel, n);
            && search == Accepts(scopes[i]) && inv(s'.mem)
            && TryLevel(s'.mem, f) == TryLevel(s.mem, f) && s'.exceptionList == s.exceptionList
    decreases i - k
  {
    hide TryLevel, SetTryLevel, ReadScope, AsLong, ScopesKept, ListKept, ScopesIn, FirstAccepting, SearchLevels;
    ScopesThere(guest, inv, s.mem, f, scopes);
    FilterKept(guest, inv, s, f, scopes, n);
    SearchStep(guest, verdicts, s, f, scopes, k, i, fuel, n);
    if k < i {
      var s' := if scopes[k].filter == 0 then s else guest(n, s);
      SearchFinds(guest, verdicts, inv, s', f, scopes, k + 1, i, fuel - 1, if scopes[k].filter == 0 then n else n + 1);
    }
  }

  lemma {:induction false} UnwindKeepsLevel(
    guest: Guest, inv: Memory -> bool, s: State, f: MsvcFrame, scopes: seq<Scope>, address: nat, target: nat, fuel: nat,
    n: nat)
    requires inv(s.mem) && ScopesKept(guest, inv, f, scopes)
    ensures var (_, s') := UnwindRegistrations(guest, s, address, target, fuel, n);
            inv(s'.mem) && TryLevel(s'.mem, f) == TryLevel(s.mem, f)
    decreases fuel
  {
    hide TryLevel, ReadRegistration, StopsAt;
    if fuel > 0 && ReadRegistration(s.mem, address).Some? {
      var next := ReadRegistration(s.mem, address).value.0;
      UnwindKeepsLevel(guest, inv, guest(n, s).(exceptionList := next), f, scopes, next, target, fuel - 1, n + 1);
    }
  }

  // The frame of the handler is registration k of the thread's chain, and memory keeps chain, scopes and saved esp.
  ghost predicate FrameKept(
    guest: Guest, inv: Memory -> bool, f: MsvcFrame, scopes: seq<Scope>, chain: seq<Registration>, end: nat, k: nat,
    esp: nat)
  {
    && ScopesKept(guest, inv, f, scopes) && ChainKept(guest, inv, chain, end) && AddressOrdered(chain)
    && k < |chain| && f.registration == chain[k].address
    && (forall m :: inv(m) ==> ReadU32(m, f.registration + SAVED_ESP) == Some(esp))
    && ListKept(guest, inv)
  }

  // When the filter of scope i takes the exception: each registration inside the frame is unwound once, the __finally
  // blocks from the current scope up to but excluding scope i run once each, innermost first, the try level of the
  // frame is outside of scope i, and the __except block of scope i runs with the frame's ebp and esp. This is about any
  // call of the handler. If more than MAX_FRAMES registrations are inside the frame, which no dispatch can give, fs:[0]
  // is the one where the unwind stopped.
  lemma HandlerTakesException(
    guest: Guest, verdicts: nat -> int, inv: Memory -> bool, s: State, f: MsvcFrame, scopes: seq<Scope>, i: nat,
    chain: seq<Registration>, end: nat, k: nat, esp: nat)
    requires inv(s.mem) && FrameKept(guest, inv, f, scopes, chain, end, k, esp)
    requires FirstAccepting(scopes, verdicts, i) && i < MAX_FRAMES
    requires TryLevel(s.mem, f) == Some(scopes[0].level) && s.exceptionList == chain[0].address
    ensures f.registration >= 0
    ensures var h := MsvcHandler(guest, verdicts, s, f, false);
            && h.result == ResumeAt(f.registration + FRAME_POINTER, esp, scopes[i].handler)
            && Called(inv, h.registrations, chain[..if k <= MAX_FRAMES then k else MAX_FRAMES])
            && Ran(inv, f, h.blocks, Finallys(scopes[..i]))
            && (h.state.exceptionList == f.registration <==> k <= MAX_FRAMES)
            && TryLevel(h.state.mem, f) == Some(scopes[i].enclosing)
  {
    hide TryLevel, SetTryLevel, ReadScope, ReadU32, SearchLevels, UnwindRegistrations, LocalUnwind, AcceptException,
      FirstAccepting, AddressOrdered, ChainIn, Called, Ran;
    assert scopes[i] == scopes[i] && i < |scopes| by {
      AcceptingExists(scopes, verdicts, i);
    }
    SearchFinds(guest, verdicts, inv, s, f, scopes, 0, i, MAX_FRAMES, 0);
    var (_, s1, n) := SearchLevels(guest, verdicts, s, f, scopes[0].level, MAX_FRAMES, 0);
    AcceptUnwinds(guest, inv, s1, f, scopes, i, chain, end, k, esp, n);
  }

  // A frame that takes an exception of a dispatch is one of the first MAX_FRAMES records. So its unwind always reaches
  // it: however long the chain is, fs:[0] is the frame when its __except block runs.
  lemma DispatchReachesFrame(
    guest: Guest, inner: Guest, dispositions: nat -> int, verdicts: nat -> int, inv: Memory -> bool, s: State,
    f: MsvcFrame, scopes: seq<Scope>, i: nat, chain: seq<Registration>, end: nat, k: nat, esp: nat)
    requires inv(s.mem) && s.exceptionList == AddressAt(chain, end, 0) && ChainKept(guest, inv, chain, end)
    requires ListKept(guest, inv)
    requires k < |DispatchChain(guest, dispositions, s, s.exceptionList, MAX_FRAMES, 0).0|
    requires FrameKept(inner, inv, f, scopes, chain, end, k, esp)
    requires FirstAccepting(scopes, verdicts, i) && i < MAX_FRAMES
    requires var at := DispatchChain(guest, dispositions, s, s.exceptionList, MAX_FRAMES, 0).0[k].at;
             TryLevel(at.mem, f) == Some(scopes[0].level)
    ensures k < MAX_FRAMES && f.registration >= 0
    ensures var call := DispatchChain(guest, dispositions, s, s.exceptionList, MAX_FRAMES, 0).0[k];
            var h := MsvcHandler(inner, verdicts, call.at, f, false);
            && call.registration == chain[k]
            && h.result == ResumeAt(f.registration + FRAME_POINTER, esp, scopes[i].handler)
            && Called(inv, h.registrations, chain[..k]) && Ran(inv, f, h.blocks, Finallys(scopes[..i]))
            && h.state.exceptionList == f.registration
            && TryLevel(h.state.mem, f) == Some(scopes[i].enclosing)
  {
    var offered := DispatchOffers(guest, dispositions, inv, s, chain, end, 0, MAX_FRAMES, 0);
    var calls := DispatchChain(guest, dispositions, s, s.exceptionList, MAX_FRAMES, 0).0;
    assert calls[k].registration == chain[0 + k];
    hide DispatchChain, MsvcHandler, FirstAccepting, Called, Ran, TryLevel, ChainKept, FrameKept;
    assert k < |chain|;
    HandlerTakesException(inner, verdicts, inv, calls[k].at, f, scopes, i, chain, end, k, esp);
  }

  lemma AcceptingExists(scopes: seq<Scope>, verdicts: nat -> int, i: nat)
    requires FirstAccepting(scopes, verdicts, i)
    ensures i < |scopes|
  {
  }

  lemma AcceptUnwinds(
    guest: Guest, inv: Memory -> bool, s: State, f: MsvcFrame, scopes: seq<Scope>, i: nat, chain: seq<Registration>,
    end: nat, k: nat, esp: nat, n: nat)
    requires inv(s.mem) && FrameKept(guest, inv, f, scopes, chain, end, k, esp) && i < |scopes| && i < MAX_FRAMES
    requires TryLevel(s.mem, f) == Some(scopes[0].level) && s.exceptionList == chain[0].address
    ensures f.registration >= 0
    ensures var h := AcceptException(guest, s, f, scopes[i], n);
            && h.result == ResumeAt(f.registration + FRAME_POINTER, esp, scopes[i].handler)
            && Called(inv, h.registrations, chain[..if k <= MAX_FRAMES then k else MAX_FRAMES])
            && Ran(inv, f, h.blocks, Finallys(scopes[..i]))
            && (h.state.exceptionList == f.registration <==> k <= MAX_FRAMES)
            && TryLevel(h.state.mem, f) == Some(scopes[i].enclosing)
  {
    hide TryLevel, SetTryLevel, ReadScope, ReadU32, UnwindRegistrations, LocalUnwind, ChainIn, Called, Ran;
    UnwindReachesTarget(guest, inv, s, chain, end, k, n);
    UnwindKeepsLevel(guest, inv, s, f, scopes, s.exceptionList, f.registration, MAX_FRAMES, n);
    var (registrations, s2) := UnwindRegistrations(guest, s, s.exceptionList, f.registration, MAX_FRAMES, n);
    assert scopes[0..i] == scopes[..i];
    LocalUnwindExact(guest, inv, s2, f, scopes, 0, i, MAX_FRAMES, n + |registrations|);
    LocalUnwindKeepsChain(guest, inv, s2, f, scopes, scopes[i].level, MAX_FRAMES, n + |registrations|);
    var (_, s3, _) := LocalUnwind(guest, s2, f, scopes[i].level, MAX_FRAMES, n + |registrations|);
    assert ScopesIn(s3.mem, f, scopes);
    EnclosingBound(s3.mem, f, scopes, i);
    TryLevelSet(s3.mem, f, scopes[i].enclosing);
  }

  lemma {:induction false} LocalUnwindKeepsChain(
    guest: Guest, inv: Memory -> bool, s: State, f: MsvcFrame, scopes: seq<Scope>, stop: nat, fuel: nat, n: nat)
    requires inv(s.mem) && ScopesKept(guest, inv, f, scopes) && ListKept(guest, inv)
    ensures LocalUnwind(guest, s, f, stop, fuel, n).1.exceptionList == s.exceptionList
    decreases fuel
  {
    hide TryLevel, SetTryLevel, ReadScope, ScopesIn;
    if fuel > 0 && TryLevel(s.mem, f).Some? && ReadScope(s.mem, f, TryLevel(s.mem, f).value).Some? {
      var scope := ReadScope(s.mem, f, TryLevel(s.mem, f).value).value;
      var lowered := s.(mem := SetTryLevel(s.mem, f, scope.enclosing));
      LocalUnwindKeepsChain(guest, inv, lowered, f, scopes, stop, fuel - 1, n);
      LocalUnwindKeepsChain(guest, inv, guest(n, lowered), f, scopes, stop, fuel - 1, n + 1);
    }
  }

  // An unwind through the frame runs every __finally block from the current scope to the outside.
  lemma HandlerUnwinds(
    guest: Guest, verdicts: nat -> int, inv: Memory -> bool, s: State, f: MsvcFrame, scopes: seq<Scope>)
    requires f.registration >= 0 && |scopes| <= MAX_FRAMES
    requires inv(s.mem) && ScopesKept(guest, inv, f, scopes) && TryLevel(s.mem, f) == Some(LevelAt(f, scopes, 0))
    ensures var h := MsvcHandler(guest, verdicts, s, f, true);
            && h.result == ContinueSearch && Ran(inv, f, h.blocks, Finallys(scopes)) && h.registrations == []
            && TryLevel(h.state.mem, f) == Some(f.none)
  {
    hide LocalUnwind, TryLevel, Finallys;
    LocalUnwindExact(guest, inv, s, f, scopes, 0, |scopes|, MAX_FRAMES, 0);
    assert scopes[0..|scopes|] == scopes;
  }

  // -- The same in place

  // The state of a thread, which the generators change in place.
  class Thread {
    var mem: Memory
    var exceptionList: nat

    function Value(): State
      reads this
    {
      State(mem, exceptionList)
    }

    constructor (s: State)
      ensures Value() == s
    {
      mem, exceptionList := s.mem, s.exceptionList;
    }

    method CallGuest(guest: Guest, n: nat)
      modifies this
      ensures Value() == guest(n, old(Value()))
    {
      var s := guest(n, Value());
      mem, exceptionList := s.mem, s.exceptionList;
    }

    method Unwind(guest: Guest, target: nat, limit: nat, n: nat) returns (calls: seq<Call>)
      modifies this
      ensures (calls, Value()) == UnwindRegistrations(guest, old(Value()), old(exceptionList), target, limit, n)
    {
      hide ReadRegistration, StopsAt;
      var address, steps := exceptionList, 0;
      calls := [];
      ghost var all := UnwindRegistrations(guest, Value(), address, target, limit, n);
      assert [] + all.0 == all.0;
      while steps < limit
        invariant steps == |calls| <= limit
        invariant var rest := UnwindRegistrations(guest, Value(), address, target, limit - steps, n + steps);
                  all == (calls + rest.0, rest.1)
      {
        if address == 0 || address == END_OF_CHAIN {
          break;
        }
        var record := ReadRegistration(mem, address);
        if record.None? || StopsAt(address, target) {
          break;
        }
        var (next, handler) := record.value;
        ghost var before := calls;
        calls := calls + [Call(Registration(address, handler), Value())];
        CallGuest(guest, n + steps);
        exceptionList := next;
        address, steps := next, steps + 1;
        ghost var rest := UnwindRegistrations(guest, Value(), address, target, limit - steps, n + steps);
        Regroup(before, [calls[|before|]], rest.0);
      }
      assert calls + [] == calls;
    }

    // Offer an exception to the chain, up to the first handler that continues execution.
    method Dispatch(guest: Guest, dispositions: nat -> int, limit: nat, n: nat) returns (calls: seq<Call>, taken: bool)
      modifies this
      ensures (calls, Value(), taken) == DispatchChain(guest, dispositions, old(Value()), old(exceptionList), limit, n)
    {
      hide ReadRegistration;
      var address, steps := exceptionList, 0;
      calls, taken := [], false;
      ghost var all := DispatchChain(guest, dispositions, Value(), address, limit, n);
      assert [] + all.0 == all.0;
      while steps < limit
        invariant steps == |calls| <= limit && !taken
        invariant var rest := DispatchChain(guest, dispositions, Value(), address, limit - steps, n + steps);
                  all == (calls + rest.0, rest.1, rest.2)
      {
        if address == 0 || address == END_OF_CHAIN {
          break;
        }
        var record := ReadRegistration(mem, address);
        if record.None? {
          break;
        }
        var (next, handler) := record.value;
        ghost var before := calls;
        var call := Call(Registration(address, handler), Value());
        calls := calls + [call];
        CallGuest(guest, n + steps);
        if dispositions(n + steps) == CONTINUE_EXECUTION_DISPOSITION {
          return calls, true;
        }
        address, steps := next, steps + 1;
        ghost var rest := DispatchChain(guest, dispositions, Value(), address, limit - steps, n + steps);
        Regroup(before, [call], rest.0);
      }
      assert calls + [] == calls;
    }

    method LeaveScopes(guest: Guest, f: MsvcFrame, stop: nat, limit: nat, n: nat) returns (blocks: seq<Block>, end: End)
      modifies this
      ensures (blocks, Value(), end) == LocalUnwind(guest, old(Value()), f, stop, limit, n)
    {
      hide TryLevel, ReadScope, SetTryLevel;
      blocks, end := [], Done;
      var steps := 0;
      ghost var all := LocalUnwind(guest, Value(), f, stop, limit, n);
      assert [] + all.0 == all.0;
      while steps < limit
        invariant steps <= limit && end == Done
        invariant var rest := LocalUnwind(guest, Value(), f, stop, limit - steps, n + |blocks|);
                  all == (blocks + rest.0, rest.1, rest.2)
      {
        var level := TryLevel(mem, f);
        if level.None? {
          end := Fault;
          break;
        }
        if level.value == f.none || level.value == stop {
          break;
        }
        var scope := ReadScope(mem, f, level.value);
        if scope.None? {
          end := Fault;
          break;
        }
        mem := SetTryLevel(mem, f, scope.value.enclosing);
        steps := steps + 1;
        if scope.value.filter == 0 {
          ghost var before := blocks;
          var block := Block(level.value, scope.value.handler, Value());
          CallGuest(guest, n + |blocks|);
          blocks := blocks + [block];
          ghost var rest := LocalUnwind(guest, Value(), f, stop, limit - steps, n + |blocks|);
          Regroup(before, [block], rest.0);
        }
      }
      assert blocks + [] == blocks;
    }
  }
}
