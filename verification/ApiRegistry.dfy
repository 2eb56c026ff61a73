// speakeasy/windows/api_registry.py: the export entries of the loaded modules, and the tokens that their entry code
// jumps to.

module ApiRegistry {
  import opened Options
  import opened Bytes
  import opened ApiStub
  import opened FunctionTable

  const TRAP_SIZE: nat := 0x100000
  const TRAP_STRIDE: nat := 16
  const SLOT_SIZE: nat := 32
  const ENTRY_OFFSET: nat := 16

  datatype Export = Export(name: Option<string>, ordinal: nat, address: nat, isFunction: bool, forwarded: bool)

  // arena is the RVA and the size of the .dyn section.
  datatype Module = Module(arch: Arch, base: nat, synthetic: bool, exports: seq<Export>, arena: Option<(nat, nat)>)

  // owner is the identity of a module. An entry lasts longer than its place in the dictionaries.
  datatype Entry = Entry(owner: nat, exported: Export, names: seq<string>, trap: Option<nat>)

  // objects holds every entry ever made, and the dictionaries refer to it. memory is what the registry wrote.
  datatype State = State(
    objects: seq<Entry>, entries: map<nat, nat>, traps: map<nat, nat>, names: map<(nat, string), nat>,
    ordinals: map<(nat, nat), nat>, offsets: map<nat, nat>, trapBase: Option<nat>, addresses: seq<nat>, trapCount: nat,
    memory: Memory)

  datatype Error = NoSpace | Exhausted | GuestModule | ArenaFull | ArenaModified

  // An operation that fails can leave a changed state.
  datatype Outcome = Outcome(state: State, error: Option<Error>)

  const EMPTY: State := State([], map[], map[], map[], map[], map[], None, [], 0, map[])

  // --- The operations ---

  // found is the base of free address space for the tokens.
  function AllocateTrap(s: State, found: nat): Result<(State, nat), Error> {
    if s.trapBase.None? && found + TRAP_SIZE > W32 then Err(NoSpace)
    else
      var base := if s.trapBase.None? then found else s.trapBase.value;
      var offset := s.trapCount * TRAP_STRIDE;
      if offset >= TRAP_SIZE then Err(Exhausted)
      else Ok((s.(trapBase := Some(base), trapCount := s.trapCount + 1), base + offset))
  }

  function Insort(a: seq<nat>, x: nat): (r: seq<nat>)
    ensures |r| == |a| + 1
  {
    if a == [] || x < a[0] then [x] + a else [a[0]] + Insort(a[1..], x)
  }

  predicate Trapped(m: Module, e: Export) {
    m.synthetic && e.isFunction && !e.forwarded
  }

  function AddEntry(s: State, e: Entry): State {
    var id, a := |s.objects|, e.exported.address;
    s.(objects := s.objects + [e], entries := s.entries[a := id], addresses := Insort(s.addresses, a),
       traps := if e.trap.Some? then s.traps[e.trap.value := id] else s.traps)
  }

  // The names of an entry, and the dictionaries of the module that exports it
  function Alias(s: State, m: nat, e: Export, id: nat): State
    requires id < |s.objects|
  {
    var o := s.objects[id];
    if e.name.None? || e.name.value == "" then s.(ordinals := s.ordinals[(m, e.ordinal) := id])
    else
      var o' := if e.name.value in o.names then o else o.(names := o.names + [e.name.value]);
      s.(objects := s.objects[id := o'], names := s.names[(m, e.name.value) := id],
         ordinals := s.ordinals[(m, e.ordinal) := id])
  }

  // A new entry of module m with a token, and the code that the registry writes at a for it
  function AddTrapped(s: State, m: nat, e: Export, t: nat, a: nat, code: seq<byte>): State {
    AddEntry(s, Entry(m, e, [], Some(t))).(memory := Write(s.memory, a, code))
  }

  function RegisterExport(s: State, m: nat, home: Module, e: Export, found: nat): (r: Outcome)
    requires forall a :: a in s.entries ==> s.entries[a] < |s.objects|
  {
    if e.address == 0 then Outcome(s, None)
    else if e.address in s.entries then Outcome(Alias(s, m, e, s.entries[e.address]), None)
    else if !Trapped(home, e) then Outcome(Alias(AddEntry(s, Entry(m, e, [], None)), m, e, |s.objects|), None)
    else
      match AllocateTrap(s, found)
      case Err(error) => Outcome(s, Some(error))
      case Ok((s1, t)) =>
        var s2 := AddTrapped(s1, m, e, t, e.address, EncodeStub(home.arch, e.address, t));
        Outcome(Alias(s2, m, e, |s.objects|), None)
  }

  function Keep(a: seq<nat>, entries: map<nat, nat>): seq<nat> {
    if a == [] then [] else (if a[0] in entries then [a[0]] else []) + Keep(a[1..], entries)
  }

  // The entries of other modules
  function OfOthers(objects: seq<Entry>, ids: map<nat, nat>, m: nat): map<nat, nat>
    requires forall a :: a in ids ==> ids[a] < |objects|
  {
    map a | a in ids && objects[ids[a]].owner != m :: ids[a]
  }

  // The tokens of the entries of a module that are still there
  function TokensOf(objects: seq<Entry>, ids: map<nat, nat>, m: nat): set<nat>
    requires forall a :: a in ids ==> ids[a] < |objects|
  {
    set a | a in ids && objects[ids[a]].owner == m && objects[ids[a]].trap.Some? :: objects[ids[a]].trap.value
  }

  // The dictionaries of other modules
  function NotIn<T(==)>(ids: map<(nat, T), nat>, m: nat): map<(nat, T), nat> {
    map k | k in ids && k.0 != m :: ids[k]
  }

  function Unregister(s: State, m: nat): State
    requires forall a :: a in s.entries ==> s.entries[a] < |s.objects|
  {
    var entries := OfOthers(s.objects, s.entries, m);
    s.(entries := entries, traps := s.traps - TokensOf(s.objects, s.entries, m),
       addresses := Keep(s.addresses, entries), names := NotIn(s.names, m),
       ordinals := NotIn(s.ordinals, m), offsets := s.offsets - {m})
  }

  datatype Reference = ByName(name: string) | ByOrdinal(ordinal: nat)

  function Lookup(s: State, m: nat, r: Reference): Option<nat> {
    match r
    case ByName(n) => if (m, n) in s.names then Some(s.names[(m, n)]) else None
    case ByOrdinal(o) => if (m, o) in s.ordinals then Some(s.ordinals[(m, o)]) else None
  }

  function Offset(s: State, m: nat): nat {
    if m in s.offsets then s.offsets[m] else 0
  }

  function Slot(home: Module, offset: nat): nat
    requires home.arena.Some?
  {
    home.base + home.arena.value.0 + offset
  }

  function Nops(): seq<byte> {
    [0x90, 0x90, 0x90, 0x90, 0x90, 0x90, 0x90, 0x90, 0x90, 0x90, 0x90, 0x90, 0x90, 0x90, 0x90, 0x90]
  }

  function PadStub(code: seq<byte>): (r: seq<byte>)
    requires |code| <= 16
    ensures |r| == 16 && code <= r
    decreases 16 - |code|
  {
    if |code| == 16 then code else PadStub(code + [0xCC])
  }

  function Refer(s: State, m: nat, r: Reference, id: nat): State
    requires id < |s.objects|
  {
    match r
    case ByName(n) =>
      s.(objects := s.objects[id := s.objects[id].(names := [n])], names := s.names[(m, n) := id])
    case ByOrdinal(o) => s.(ordinals := s.ordinals[(m, o) := id])
  }

  // A new export in the slot at offset, with its code
  function Filled(s: State, m: nat, home: Module, r: Reference, offset: nat, t: nat): State
    requires home.arena.Some?
  {
    var slot := Slot(home, offset);
    var address := slot + ENTRY_OFFSET;
    var e := Export(if r.ByName? then Some(r.name) else None, if r.ByName? then 0 else r.ordinal, address, true, false);
    var s2 := AddTrapped(s, m, e, t, slot, Nops() + PadStub(EncodeStub(home.arch, address, t)));
    Refer(s2.(offsets := s2.offsets[m := offset + SLOT_SIZE]), m, r, |s.objects|)
  }

  // The export of a name or ordinal that the module does not export. pristine says that the slot is executable and the
  // guest did not write to it.
  function Dynamic(s: State, m: nat, home: Module, r: Reference, found: nat, pristine: bool): Outcome
  {
    if Lookup(s, m, r).Some? then Outcome(s, None)
    else if !home.synthetic then Outcome(s, Some(GuestModule))
    else if home.arena.None? || Offset(s, m) + SLOT_SIZE > home.arena.value.1 then Outcome(s, Some(ArenaFull))
    else if !pristine then Outcome(s, Some(ArenaModified))
    else
      match AllocateTrap(s, found)
      case Err(error) => Outcome(s, Some(error))
      case Ok((s1, t)) =>
        Outcome(Filled(s1, m, home, r, Offset(s, m), t), None)
  }

  // --- What every run keeps ---

  predicate RangesApart(a: int, n: nat, b: int, k: nat) {
    a + n <= b || b + k <= a
  }

  predicate SpotsApart(a: nat, b: nat) {
    a == b || RangesApart(a, 16, b, 16)
  }

  ghost predicate CodeOutside(mods: map<nat, Module>, address: nat) {
    forall j :: j in mods && mods[j].arena.Some? ==>
                  RangesApart(address, 16, Slot(mods[j], 0), mods[j].arena.value.1)
  }

  ghost predicate ExportsOk(mods: map<nat, Module>, m: Module) {
    forall e :: e in m.exports ==> CodeOutside(mods, e.address) && (e.address + 16 <= Space(m.arch))
  }

  ghost predicate ModulesApart(mods: map<nat, Module>, i: nat, j: nat)
    requires i in mods && j in mods
  {
    && (forall e, f :: e in mods[i].exports && f in mods[j].exports && Trapped(mods[i], e) && Trapped(mods[j], f) ==>
          SpotsApart(e.address, f.address))
    && (i != j && mods[i].arena.Some? && mods[j].arena.Some? ==>
          RangesApart(Slot(mods[i], 0), mods[i].arena.value.1, Slot(mods[j], 0), mods[j].arena.value.1))
  }

  // The modules that are loaded at one time, by identity: the function slots of synthetic modules are apart, and no
  // export is in a .dyn section.
  ghost predicate World(mods: map<nat, Module>) {
    && (forall i :: i in mods ==> ExportsOk(mods, mods[i]))
    && (forall i: nat, j: nat :: i in mods && j in mods ==> ModulesApart(mods, i, j))
    && (forall i :: i in mods && mods[i].arena.Some? ==>
          Slot(mods[i], 0) + mods[i].arena.value.1 <= Space(mods[i].arch))
  }

  // Where an entry of the registry can be: at an export of its module, or in a used slot of the module's .dyn section
  ghost predicate InUsedSlot(mods: map<nat, Module>, s: State, m: nat, address: nat)
    requires m in mods
  {
    && mods[m].arena.Some? && m in s.offsets
    && Slot(mods[m], 0) + ENTRY_OFFSET <= address && address + 16 <= Slot(mods[m], s.offsets[m])
    && (address - ENTRY_OFFSET - Slot(mods[m], 0)) % SLOT_SIZE == 0
  }

  ghost predicate PlaceOk(mods: map<nat, Module>, s: State, o: Entry) {
    && o.owner in mods
    && ((o.exported in mods[o.owner].exports && (o.trap.Some? ==> Trapped(mods[o.owner], o.exported)))
        || InUsedSlot(mods, s, o.owner, o.exported.address))
  }

  // Tokens go up in the order of the entries. So no two entries ever have the same token.
  ghost predicate TokensOk(s: State) {
    && s.trapCount * TRAP_STRIDE <= TRAP_SIZE
    && (s.trapBase.None? ==> s.trapCount == 0)
    && (s.trapBase.Some? ==> s.trapBase.value + TRAP_SIZE <= W32)
    && (forall i :: 0 <= i < |s.objects| && s.objects[i].trap.Some? ==>
          s.trapBase.Some? && s.trapBase.value <= s.objects[i].trap.value
          && s.objects[i].trap.value + TRAP_STRIDE <= s.trapBase.value + s.trapCount * TRAP_STRIDE)
    && (forall i, j :: 0 <= i < j < |s.objects| && s.objects[i].trap.Some? && s.objects[j].trap.Some? ==>
          s.objects[i].trap.value < s.objects[j].trap.value)
  }

  ghost predicate IndicesOk(s: State) {
    && (forall a :: a in s.entries ==> s.entries[a] < |s.objects|)
    && (forall t :: t in s.traps ==> s.traps[t] < |s.objects|)
  }

  ghost predicate EntryOk(mods: map<nat, Module>, s: State, a: nat)
    requires a in s.entries
  {
    && s.entries[a] < |s.objects|
    && var o := s.objects[s.entries[a]];
       && o.exported.address == a && PlaceOk(mods, s, o)
       && (o.trap.Some? ==>
             && o.trap.value in s.traps && s.traps[o.trap.value] == s.entries[a]
             && Holds(s.memory, a, EncodeStub(mods[o.owner].arch, a, o.trap.value)))
  }

  ghost predicate TrapOk(s: State, t: nat)
    requires t in s.traps
  {
    && s.traps[t] < |s.objects|
    && var o := s.objects[s.traps[t]];
       o.trap == Some(t) && o.exported.address in s.entries && s.entries[o.exported.address] == s.traps[t]
  }

  ghost predicate AddressesOk(s: State) {
    && (forall i, j :: 0 <= i < j < |s.addresses| ==> s.addresses[i] < s.addresses[j])
    && (forall a :: a in s.addresses <==> a in s.entries)
  }

  ghost predicate RefsOk(s: State) {
    && (forall k :: k in s.names ==> s.names[k] < |s.objects|)
    && (forall k :: k in s.ordinals ==> s.ordinals[k] < |s.objects|)
  }

  ghost predicate OffsetsOk(mods: map<nat, Module>, s: State) {
    forall m :: m in s.offsets ==>
                  m in mods && mods[m].arena.Some? && s.offsets[m] % SLOT_SIZE == 0
                    && s.offsets[m] <= mods[m].arena.value.1
  }

  ghost predicate Valid(mods: map<nat, Module>, s: State) {
    && TokensOk(s) && AddressesOk(s) && RefsOk(s) && OffsetsOk(mods, s)
    && (forall a :: a in s.entries ==> EntryOk(mods, s, a))
    && (forall t :: t in s.traps ==> TrapOk(s, t))
  }

  // --- Adding an entry ---

  ghost predicate Increasing(a: seq<nat>) {
    forall i, j :: 0 <= i < j < |a| ==> a[i] < a[j]
  }

  lemma {:induction false} InsortMembers(a: seq<nat>, x: nat, y: nat)
    ensures y in Insort(a, x) <==> y == x || y in a
  {
    if a != [] && x >= a[0] {
      InsortMembers(a[1..], x, y);
      assert a == [a[0]] + a[1..];
    }
  }

  lemma {:induction false} InsortIncreasing(a: seq<nat>, x: nat)
    requires Increasing(a) && x !in a
    ensures Increasing(Insort(a, x))
  {
    var r := Insort(a, x);
    if a != [] && x >= a[0] {
      InsortIncreasing(a[1..], x);
      var rest := Insort(a[1..], x);
      forall j | 1 <= j < |r| ensures a[0] < r[j] {
        assert r[j] == rest[j - 1] && rest[j - 1] in rest;
        InsortMembers(a[1..], x, rest[j - 1]);
      }
    }
  }

  lemma TokenAppended(s: State, found: nat, o: Entry)
    requires TokensOk(s) && AllocateTrap(s, found).Ok? && o.trap == Some(AllocateTrap(s, found).value.1)
    ensures var s1 := AllocateTrap(s, found).value.0;
            && TokensOk(s1.(objects := s1.objects + [o]))
            && o.trap.value < W32 && s1 == s.(trapBase := s1.trapBase, trapCount := s1.trapCount)
    ensures forall i :: 0 <= i < |s.objects| ==> s.objects[i].trap != o.trap
  {
  }

  // The code of every entry with a token is in memory.
  ghost predicate CodeHeld(mods: map<nat, Module>, s: State, memory: Memory) {
    forall a :: a in s.entries && s.entries[a] < |s.objects| ==> EntryCodeHeld(mods, s.objects[s.entries[a]], a, memory)
  }

  ghost predicate EntryCodeHeld(mods: map<nat, Module>, o: Entry, a: nat, memory: Memory) {
    o.trap.Some? && o.owner in mods ==> Holds(memory, a, EncodeStub(mods[o.owner].arch, a, o.trap.value))
  }

  lemma PlaceKept(mods: map<nat, Module>, s: State, s': State, o: Entry)
    requires PlaceOk(mods, s, o)
    requires forall m :: m in s.offsets ==> m in s'.offsets && s.offsets[m] <= s'.offsets[m]
    ensures PlaceOk(mods, s', o)
  {
  }

  lemma AddAddresses(s: State, o: Entry, s': State)
    requires AddressesOk(s) && o.exported.address !in s.entries
    requires s'.addresses == Insort(s.addresses, o.exported.address)
    requires s'.entries == s.entries[o.exported.address := |s.objects|]
    ensures AddressesOk(s')
  {
    var b := o.exported.address;
    InsortIncreasing(s.addresses, b);
    forall a ensures a in s'.addresses <==> a in s'.entries {
      InsortMembers(s.addresses, b, a);
    }
  }

  // s' is s with a new entry. Its place and its code are right, and the code of the other entries is still there.
  ghost predicate Added(mods: map<nat, Module>, s: State, o: Entry, s': State) {
    && s' == AddEntry(s, o).(trapBase := s'.trapBase, trapCount := s'.trapCount, offsets := s'.offsets,
                             memory := s'.memory)
    && PlaceOk(mods, s', o) && (forall m :: m in s.offsets ==> m in s'.offsets && s.offsets[m] <= s'.offsets[m])
    && CodeHeld(mods, s, s'.memory) && EntryCodeHeld(mods, o, o.exported.address, s'.memory)
    && (o.trap.Some? ==> forall i :: 0 <= i < |s.objects| ==> s.objects[i].trap != o.trap)
  }

  lemma AddedEntry(mods: map<nat, Module>, s: State, o: Entry, s': State, a: nat)
    requires Valid(mods, s) && o.exported.address !in s.entries && Added(mods, s, o, s') && a in s'.entries
    ensures EntryOk(mods, s', a)
  {
    hide EncodeStub, TokensOk, OffsetsOk, Holds, AddressesOk, Insort, RefsOk;
    if a != o.exported.address {
      assert EntryOk(mods, s, a);
      PlaceKept(mods, s, s', s.objects[s.entries[a]]);
      assert EntryCodeHeld(mods, s.objects[s.entries[a]], a, s'.memory);
    }
  }

  lemma AddedTrap(mods: map<nat, Module>, s: State, o: Entry, s': State, t: nat)
    requires Valid(mods, s) && o.exported.address !in s.entries && Added(mods, s, o, s') && t in s'.traps
    ensures TrapOk(s', t)
  {
    hide EncodeStub, TokensOk, OffsetsOk, Holds, AddressesOk, Insort, PlaceOk, RefsOk, CodeHeld;
    if Some(t) != o.trap {
      assert TrapOk(s, t);
    }
  }

  lemma AddKeeps(mods: map<nat, Module>, s: State, o: Entry, s': State)
    requires Valid(mods, s) && o.exported.address !in s.entries && Added(mods, s, o, s')
    requires TokensOk(s') && OffsetsOk(mods, s')
    ensures Valid(mods, s')
  {
    AddAddresses(s, o, s');
    hide EntryOk, TrapOk, TokensOk, OffsetsOk, AddressesOk, PlaceOk, EntryCodeHeld, CodeHeld;
    forall a | a in s'.entries ensures EntryOk(mods, s', a) {
      AddedEntry(mods, s, o, s', a);
    }
    forall t | t in s'.traps ensures TrapOk(s', t) {
      AddedTrap(mods, s, o, s', t);
    }
  }

  // Two states that differ only in the names of entries and in the dictionaries by name and ordinal
  ghost predicate SameButNames(s: State, s': State) {
    && s' == s.(objects := s'.objects, names := s'.names, ordinals := s'.ordinals) && |s'.objects| == |s.objects|
    && forall i :: 0 <= i < |s.objects| ==>
         s'.objects[i] == s.objects[i].(names := s'.objects[i].names)
  }

  lemma NamesKeep(mods: map<nat, Module>, s: State, s': State)
    requires Valid(mods, s) && SameButNames(s, s') && RefsOk(s')
    ensures Valid(mods, s')
  {
    hide EncodeStub, Holds, RefsOk;
    forall a | a in s'.entries ensures EntryOk(mods, s', a) {
      assert EntryOk(mods, s, a);
    }
    forall t | t in s'.traps ensures TrapOk(s', t) {
      assert TrapOk(s, t);
    }
  }

  lemma ValidRefs(mods: map<nat, Module>, s: State)
    requires Valid(mods, s)
    ensures RefsOk(s)
  {
  }

  lemma AliasRefs(s: State, m: nat, e: Export, id: nat)
    requires RefsOk(s) && id < |s.objects|
    ensures RefsOk(Alias(s, m, e, id)) && SameButNames(s, Alias(s, m, e, id))
  {
  }

  lemma AliasKeeps(mods: map<nat, Module>, s: State, m: nat, e: Export, id: nat)
    requires Valid(mods, s) && id < |s.objects|
    ensures Valid(mods, Alias(s, m, e, id)) && SameButNames(s, Alias(s, m, e, id))
  {
    hide EntryOk, TrapOk, TokensOk, AddressesOk, OffsetsOk, Valid;
    AliasRefs(s, m, e, id) by {
      ValidRefs(mods, s);
    }
    NamesKeep(mods, s, Alias(s, m, e, id));
  }

  lemma ReferKeeps(mods: map<nat, Module>, s: State, m: nat, r: Reference, id: nat)
    requires Valid(mods, s) && id < |s.objects|
    ensures Valid(mods, Refer(s, m, r, id)) && SameButNames(s, Refer(s, m, r, id))
  {
    hide EntryOk, TrapOk, TokensOk, AddressesOk, OffsetsOk;
    NamesKeep(mods, s, Refer(s, m, r, id));
  }

  // Code at a written range apart stays.
  lemma CodeStays(memory: Memory, a: nat, code: seq<byte>, b: nat, data: seq<byte>)
    requires Holds(memory, a, code) && RangesApart(a, |code|, b, |data|)
    ensures Holds(Write(memory, b, data), a, code)
  {
  }

  lemma StubLength(arch: Arch, entry: nat, trap: nat)
    ensures |EncodeStub(arch, entry, trap)| <= 16
  {
  }

  lemma WriteKeepsCode(mods: map<nat, Module>, s: State, b: nat, data: seq<byte>)
    requires Valid(mods, s)
    requires forall a :: a in s.entries && s.objects[s.entries[a]].trap.Some? ==> RangesApart(a, 16, b, |data|)
    ensures CodeHeld(mods, s, Write(s.memory, b, data))
  {
    hide TokensOk, AddressesOk, RefsOk, OffsetsOk, TrapOk, Write, PlaceOk, Holds;
    forall a | a in s.entries && s.entries[a] < |s.objects|
      ensures EntryCodeHeld(mods, s.objects[s.entries[a]], a, Write(s.memory, b, data))
    {
      assert EntryOk(mods, s, a);
      var o := s.objects[s.entries[a]];
      if o.trap.Some? && o.owner in mods {
        StubLength(mods[o.owner].arch, a, o.trap.value);
        CodeStays(s.memory, a, EncodeStub(mods[o.owner].arch, a, o.trap.value), b, data);
      }
    }
  }

  // --- The operations keep it ---

  lemma PlainKeeps(mods: map<nat, Module>, s: State, m: nat, e: Export)
    requires Valid(mods, s) && m in mods && e in mods[m].exports && e.address !in s.entries
    ensures Valid(mods, AddEntry(s, Entry(m, e, [], None)))
  {
    var o := Entry(m, e, [], None);
    var s' := AddEntry(s, o);
    hide Insort, EncodeStub, TrapOk, AddressesOk;
    forall a | a in s.entries && s.entries[a] < |s.objects|
      ensures EntryCodeHeld(mods, s.objects[s.entries[a]], a, s.memory)
    {
      assert EntryOk(mods, s, a);
    }
    hide EntryOk, EntryCodeHeld;
    AddKeeps(mods, s, o, s');
  }

  // The code of an entry is apart from the slot of another function export.
  lemma EntryApart(mods: map<nat, Module>, s: State, m: nat, e: Export, a: nat)
    requires World(mods) && Valid(mods, s) && m in mods && e in mods[m].exports && Trapped(mods[m], e)
    requires a in s.entries && s.objects[s.entries[a]].trap.Some? && a != e.address
    ensures RangesApart(a, 16, e.address, 16)
  {
    hide TokensOk, AddressesOk, RefsOk, TrapOk, EncodeStub, Holds;
    assert EntryOk(mods, s, a);
    var o := s.objects[s.entries[a]];
    if InUsedSlot(mods, s, o.owner, a) {
      assert ExportsOk(mods, mods[m]);
      assert CodeOutside(mods, e.address);
    } else {
      assert ModulesApart(mods, o.owner, m);
      assert SpotsApart(o.exported.address, e.address);
    }
  }

  // The code of an entry is apart from the next free slot of a .dyn section.
  lemma SlotApart(mods: map<nat, Module>, s: State, m: nat, a: nat)
    requires World(mods) && Valid(mods, s) && m in mods && mods[m].arena.Some? && a in s.entries
    requires Offset(s, m) + SLOT_SIZE <= mods[m].arena.value.1
    ensures RangesApart(a, 16, Slot(mods[m], Offset(s, m)), 32)
  {
    hide TokensOk, AddressesOk, RefsOk, TrapOk, EncodeStub, Holds;
    assert EntryOk(mods, s, a);
    var o := s.objects[s.entries[a]];
    if InUsedSlot(mods, s, o.owner, a) {
      assert ModulesApart(mods, o.owner, m);
    } else {
      assert ExportsOk(mods, mods[o.owner]);
      assert CodeOutside(mods, o.exported.address);
    }
  }

  lemma TokensKept(s: State, found: nat, o: Entry, s': State)
    requires TokensOk(s) && AllocateTrap(s, found).Ok? && o.trap == Some(AllocateTrap(s, found).value.1)
    requires var s1 := AllocateTrap(s, found).value.0;
             s'.objects == s.objects + [o] && s'.trapBase == s1.trapBase && s'.trapCount == s1.trapCount
    ensures TokensOk(s') && o.trap.value < W32
    ensures forall i :: 0 <= i < |s.objects| ==> s.objects[i].trap != o.trap
  {
    TokenAppended(s, found, o);
  }

  lemma TrappedKeeps(mods: map<nat, Module>, s: State, m: nat, e: Export, found: nat)
    requires World(mods) && Valid(mods, s) && m in mods && e in mods[m].exports && e.address !in s.entries
    requires Trapped(mods[m], e) && AllocateTrap(s, found).Ok?
    ensures var (s1, t) := AllocateTrap(s, found).value;
            Valid(mods, AddTrapped(s1, m, e, t, e.address, EncodeStub(mods[m].arch, e.address, t)))
  {
    hide EntryOk, TrapOk, TokensOk, AddressesOk, CodeHeld, World, EncodeStub, Write, Insort;
    var (s1, t) := AllocateTrap(s, found).value;
    var o, code := Entry(m, e, [], Some(t)), EncodeStub(mods[m].arch, e.address, t);
    var s' := AddTrapped(s1, m, e, t, e.address, code);
    TokensKept(s, found, o, s');
    StubLength(mods[m].arch, e.address, t);
    forall a | a in s.entries
      ensures s.entries[a] < |s.objects|
      ensures s.objects[s.entries[a]].trap.Some? ==> RangesApart(a, 16, e.address, |code|)
    {
      EntryBelow(mods, s, a);
      if s.objects[s.entries[a]].trap.Some? {
        EntryApart(mods, s, m, e, a);
      }
    }
    WriteKeepsCode(mods, s, e.address, code);
    AddKeeps(mods, s, o, s');
  }

  lemma EntryBelow(mods: map<nat, Module>, s: State, a: nat)
    requires Valid(mods, s) && a in s.entries
    ensures s.entries[a] < |s.objects|
  {
    assert EntryOk(mods, s, a);
  }

  lemma PaddedHolds(m: Memory, slot: nat, code: seq<byte>)
    requires |code| <= 16
    ensures |Nops() + PadStub(code)| == 32
    ensures Holds(Write(m, slot, Nops() + PadStub(code)), slot + 16, code)
  {
    var data := Nops() + PadStub(code);
    assert |Nops()| == 16;
    hide Nops, PadStub, Write;
    forall k | 0 <= k < |code| ensures data[16 + k] == code[k] {
    }
  }

  lemma NextOffset(offset: nat)
    requires offset % SLOT_SIZE == 0
    ensures (offset + SLOT_SIZE) % SLOT_SIZE == 0
  {
  }

  // The next slot of a .dyn section is used.
  lemma NextSlot(mods: map<nat, Module>, s: State, m: nat, s': State)
    requires OffsetsOk(mods, s) && m in mods && mods[m].arena.Some?
    requires Offset(s, m) + SLOT_SIZE <= mods[m].arena.value.1
    requires s'.offsets == s.offsets[m := Offset(s, m) + SLOT_SIZE]
    ensures Offset(s, m) % SLOT_SIZE == 0 && OffsetsOk(mods, s')
    ensures forall k :: k in s.offsets ==> k in s'.offsets && s.offsets[k] <= s'.offsets[k]
  {
    NextOffset(Offset(s, m));
  }

  lemma InNextSlot(mods: map<nat, Module>, m: nat, offset: nat, o: Entry, s': State)
    requires m in mods && mods[m].arena.Some? && offset % SLOT_SIZE == 0
    requires m in s'.offsets && s'.offsets[m] == offset + SLOT_SIZE
    requires o.owner == m && o.exported.address == Slot(mods[m], offset) + ENTRY_OFFSET
    ensures PlaceOk(mods, s', o)
  {
    assert o.exported.address - ENTRY_OFFSET - Slot(mods[m], 0) == offset;
  }

  lemma DynamicKeeps(mods: map<nat, Module>, s: State, m: nat, e: Export, found: nat)
    requires World(mods) && Valid(mods, s) && m in mods && mods[m].arena.Some? && AllocateTrap(s, found).Ok?
    requires Offset(s, m) + SLOT_SIZE <= mods[m].arena.value.1
    requires e.address == Slot(mods[m], Offset(s, m)) + ENTRY_OFFSET
    ensures var (s1, t) := AllocateTrap(s, found).value;
            var data := Nops() + PadStub(EncodeStub(mods[m].arch, e.address, t));
            var s2 := AddTrapped(s1, m, e, t, Slot(mods[m], Offset(s, m)), data);
            Valid(mods, s2.(offsets := s2.offsets[m := Offset(s, m) + SLOT_SIZE]))
  {
    hide EntryOk, TrapOk, TokensOk, AddressesOk, OffsetsOk, PlaceOk, CodeHeld, World, EncodeStub, Write, Insort, Nops,
      PadStub, Holds;
    var (s1, t) := AllocateTrap(s, found).value;
    var slot := Slot(mods[m], Offset(s, m));
    var code := EncodeStub(mods[m].arch, e.address, t);
    var data := Nops() + PadStub(code);
    var o := Entry(m, e, [], Some(t));
    var s2 := AddTrapped(s1, m, e, t, slot, data);
    var s' := s2.(offsets := s2.offsets[m := Offset(s, m) + SLOT_SIZE]);
    TokensKept(s, found, o, s');
    NextSlot(mods, s, m, s');
    InNextSlot(mods, m, Offset(s, m), o, s');
    StubLength(mods[m].arch, e.address, t);
    PaddedHolds(s.memory, slot, code);
    forall a | a in s.entries ensures RangesApart(a, 16, slot, 32) {
      SlotApart(mods, s, m, a);
    }
    WriteKeepsCode(mods, s, slot, data);
    AddKeeps(mods, s, o, s');
  }

  lemma {:induction false} KeepMembers(a: seq<nat>, entries: map<nat, nat>, x: nat)
    ensures x in Keep(a, entries) <==> x in a && x in entries
  {
    if a != [] {
      KeepMembers(a[1..], entries, x);
      assert a == [a[0]] + a[1..];
    }
  }

  lemma {:induction false} KeepIncreasing(a: seq<nat>, entries: map<nat, nat>)
    requires Increasing(a)
    ensures Increasing(Keep(a, entries))
  {
    if a != [] {
      KeepIncreasing(a[1..], entries);
      var rest, r := Keep(a[1..], entries), Keep(a, entries);
      if a[0] in entries {
        forall j | 1 <= j < |r| ensures a[0] < r[j] {
          assert r[j] == rest[j - 1] && rest[j - 1] in rest;
          KeepMembers(a[1..], entries, rest[j - 1]);
        }
      }
    }
  }

  lemma UnregisterAddresses(s: State, entries: map<nat, nat>, s': State)
    requires AddressesOk(s) && entries.Keys <= s.entries.Keys
    requires s'.entries == entries && s'.addresses == Keep(s.addresses, entries)
    ensures AddressesOk(s')
  {
    KeepIncreasing(s.addresses, entries);
    forall a ensures a in s'.addresses <==> a in s'.entries {
      KeepMembers(s.addresses, entries, a);
    }
  }

  lemma UnregisterRest(mods: map<nat, Module>, s: State, m: nat)
    requires IndicesOk(s) && TokensOk(s) && AddressesOk(s) && RefsOk(s) && OffsetsOk(mods, s)
    ensures var s' := Unregister(s, m);
            TokensOk(s') && AddressesOk(s') && RefsOk(s') && OffsetsOk(mods - {m}, s')
  {
    hide TokensOk, Keep;
    UnregisterAddresses(s, Unregister(s, m).entries, Unregister(s, m));
    TokensSame(s, Unregister(s, m));
  }

  lemma UnregisterKeeps(mods: map<nat, Module>, s: State, m: nat)
    requires Valid(mods, s) && IndicesOk(s)
    ensures Valid(mods - {m}, Unregister(s, m))
  {
    hide TokensOk, AddressesOk, EntryOk, TrapOk, RefsOk, OffsetsOk, Unregister;
    var s' := Unregister(s, m);
    UnregisterRest(mods, s, m);
    forall a | a in s'.entries ensures EntryOk(mods - {m}, s', a) {
      UnregisteredEntry(mods, s, m, a);
    }
    forall t | t in s'.traps ensures TrapOk(s', t) {
      UnregisteredTrap(mods, s, m, t);
    }
  }

  lemma UnregisteredEntry(mods: map<nat, Module>, s: State, m: nat, a: nat)
    requires Valid(mods, s) && IndicesOk(s)
    requires a in Unregister(s, m).entries
    ensures EntryOk(mods - {m}, Unregister(s, m), a)
  {
    hide Keep, EncodeStub, Holds, TokensOk, AddressesOk;
    assert EntryOk(mods, s, a);
  }

  lemma UnregisteredTrap(mods: map<nat, Module>, s: State, m: nat, t: nat)
    requires Valid(mods, s) && IndicesOk(s)
    requires t in Unregister(s, m).traps
    ensures TrapOk(Unregister(s, m), t)
  {
    hide Keep, EncodeStub, Holds, TokensOk, AddressesOk;
    assert TrapOk(s, t);
  }

  lemma TokensSame(s: State, s': State)
    requires TokensOk(s) && s'.objects == s.objects && s'.trapBase == s.trapBase && s'.trapCount == s.trapCount
    ensures TokensOk(s')
  {
  }

  // --- However the registry is used ---

  // Every entry that was ever made keeps its module, its export and its token.
  ghost predicate Grows(s: State, s': State) {
    && |s.objects| <= |s'.objects|
    && forall i :: 0 <= i < |s.objects| ==> s'.objects[i] == s.objects[i].(names := s'.objects[i].names)
  }

  lemma GrowsTrans(s: State, t: State, u: State)
    requires Grows(s, t) && Grows(t, u)
    ensures Grows(s, u)
  {
  }

  // What holds wherever the modules are, also if they overlap
  ghost predicate Sound(s: State) {
    IndicesOk(s) && TokensOk(s)
  }

  lemma NamesSound(s: State, s': State)
    requires Sound(s) && SameButNames(s, s')
    ensures Sound(s') && Grows(s, s')
  {
    assert forall i :: 0 <= i < |s.objects| ==> s'.objects[i].trap == s.objects[i].trap;
  }

  lemma PlainSound(s: State, o: Entry)
    requires Sound(s) && o.trap.None?
    ensures Sound(AddEntry(s, o)) && Grows(s, AddEntry(s, o))
  {
    hide Insort;
  }

  lemma TrappedSound(s: State, m: nat, e: Export, found: nat, a: nat, code: seq<byte>)
    requires Sound(s) && AllocateTrap(s, found).Ok?
    ensures var (s1, t) := AllocateTrap(s, found).value;
            var s' := AddTrapped(s1, m, e, t, a, code);
            Sound(s') && Grows(s, s') && |s'.objects| == |s.objects| + 1
  {
    hide Insort, Write, TokensOk;
    var (s1, t) := AllocateTrap(s, found).value;
    TokensKept(s, found, Entry(m, e, [], Some(t)), AddTrapped(s1, m, e, t, a, code));
  }

  lemma ExportSound(s: State, m: nat, home: Module, e: Export, found: nat)
    requires Sound(s)
    ensures var r := RegisterExport(s, m, home, e, found); Sound(r.state) && Grows(s, r.state)
  {
    hide TokensOk, AllocateTrap, EncodeStub, Insort, AddTrapped, AddEntry;
    if e.address == 0 {
    } else if e.address in s.entries {
      NamesSound(s, Alias(s, m, e, s.entries[e.address]));
    } else if !Trapped(home, e) {
      var o := Entry(m, e, [], None);
      PlainSound(s, o);
      LastEntry(s, o);
      NamesSound(AddEntry(s, o), Alias(AddEntry(s, o), m, e, |s.objects|));
    } else if AllocateTrap(s, found).Ok? {
      var (s1, t) := AllocateTrap(s, found).value;
      var code := EncodeStub(home.arch, e.address, t);
      AllocatedObjects(s, found);
      TrappedSound(s, m, e, found, e.address, code);
      var s2 := AddTrapped(s1, m, e, t, e.address, code);
      NamesSound(s2, Alias(s2, m, e, |s.objects|));
    }
  }

  lemma LastEntry(s: State, o: Entry)
    ensures |AddEntry(s, o).objects| == |s.objects| + 1
  {
  }

  lemma AllocatedObjects(s: State, found: nat)
    requires AllocateTrap(s, found).Ok?
    ensures AllocateTrap(s, found).value.0.objects == s.objects
  {
  }

  lemma DynamicSound(s: State, m: nat, home: Module, r: Reference, found: nat, pristine: bool)
    requires Sound(s)
    ensures var out := Dynamic(s, m, home, r, found, pristine); Sound(out.state) && Grows(s, out.state)
  {
    hide TokensOk, AllocateTrap, EncodeStub, Nops, PadStub, Lookup, AddTrapped;
    if Dynamic(s, m, home, r, found, pristine).state != s {
      var (s1, t) := AllocateTrap(s, found).value;
      AllocatedObjects(s, found);
      var slot := Slot(home, Offset(s, m));
      var address := slot + ENTRY_OFFSET;
      var e := Export(
        if r.ByName? then Some(r.name) else None, if r.ByName? then 0 else r.ordinal, address, true, false);
      var code := Nops() + PadStub(EncodeStub(home.arch, address, t));
      TrappedSound(s, m, e, found, slot, code);
      var s2 := AddTrapped(s1, m, e, t, slot, code);
      var s3 := s2.(offsets := s2.offsets[m := Offset(s, m) + SLOT_SIZE]);
      TokensSame(s2, s3);
      NamesSound(s3, Refer(s3, m, r, |s.objects|));
    }
  }

  lemma UnregisterSound(s: State, m: nat)
    requires Sound(s)
    ensures Sound(Unregister(s, m)) && Grows(s, Unregister(s, m))
  {
    hide TokensOk, Keep;
    TokensSame(s, Unregister(s, m));
  }

  // The first n exports of a module, up to the first error
  ghost function RegisterAll(s: State, m: nat, home: Module, found: nat, n: nat): (r: Outcome)
    requires n <= |home.exports| && Sound(s)
    ensures Sound(r.state) && Grows(s, r.state)
  {
    if n == 0 then Outcome(s, None)
    else
      var r := RegisterAll(s, m, home, found, n - 1);
      if r.error.Some? then r
      else
        ExportSound(r.state, m, home, home.exports[n - 1], found);
        RegisterExport(r.state, m, home, home.exports[n - 1], found)
  }

  // home is the module with identity m.
  datatype Op =
    | Register(m: nat, home: Module, found: nat)
    | Remove(m: nat)
    | Make(m: nat, home: Module, r: Reference, found: nat, pristine: bool)

  ghost function Apply(s: State, op: Op): (s': State)
    requires Sound(s)
    ensures Sound(s') && Grows(s, s')
  {
    hide Sound, RegisterExport, Dynamic, Unregister;
    match op
    case Register(m, home, found) => RegisterAll(s, m, home, found, |home.exports|).state
    case Remove(m) => UnregisterSound(s, m); SoundIndices(s); Unregister(s, m)
    case Make(m, home, r, found, pristine) =>
      DynamicSound(s, m, home, r, found, pristine);
      Dynamic(s, m, home, r, found, pristine).state
  }

  lemma SoundIndices(s: State)
    requires Sound(s)
    ensures IndicesOk(s)
  {
  }

  // The state after a run of registrations, removals and dynamic exports
  ghost function After(s: State, ops: seq<Op>): State
    requires Sound(s)
    decreases |ops|
  {
    hide Sound, Apply;
    if ops == [] then s else After(Apply(s, ops[0]), ops[1..])
  }

  lemma {:induction false} AfterSound(s: State, ops: seq<Op>)
    requires Sound(s)
    ensures Sound(After(s, ops)) && Grows(s, After(s, ops))
    decreases |ops|
  {
    hide Sound, Apply;
    if ops == [] {
    } else {
      AfterSound(Apply(s, ops[0]), ops[1..]);
      GrowsTrans(s, Apply(s, ops[0]), After(s, ops));
    }
  }

  ghost function Run(ops: seq<Op>): (s: State)
    ensures Sound(s)
  {
    AfterSound(EMPTY, ops);
    After(EMPTY, ops)
  }

  // Over every run of calls with any modules, also with modules that are loaded where removed ones were or that
  // overlap: two entries that were ever made have different tokens, an entry keeps its token, and the tokens lie in
  // the reservation below 4 GiB. So no token is shared, and no token is used again.
  lemma TokensNeverShared(before: seq<Op>, later: seq<Op>, i: nat, j: nat)
    requires i < |Run(before).objects| && Run(before).objects[i].trap.Some?
    requires j < |After(Run(before), later).objects| && j != i
    ensures var s, s' := Run(before), After(Run(before), later);
            && i < |s'.objects| && s'.objects[i].trap == s.objects[i].trap && s'.objects[j].trap != s.objects[i].trap
            && s'.trapBase.Some? && s'.trapBase.value <= s.objects[i].trap.value
            && s.objects[i].trap.value + TRAP_STRIDE <= s'.trapBase.value + TRAP_SIZE <= W32
  {
    hide After, Run, IndicesOk;
    var s, s' := Run(before), After(Run(before), later);
    AfterSound(s, later);
    assert s'.objects[i].trap == s.objects[i].trap;
  }

  // --- With modules that are loaded apart ---

  lemma ExportKeeps(mods: map<nat, Module>, s: State, m: nat, e: Export, found: nat)
    requires World(mods) && Valid(mods, s) && IndicesOk(s) && m in mods && e in mods[m].exports
    ensures Valid(mods, RegisterExport(s, m, mods[m], e, found).state)
  {
    hide Valid, World, AllocateTrap, EncodeStub, Write, Insort;
    if e.address == 0 {
    } else if e.address in s.entries {
      AliasKeeps(mods, s, m, e, s.entries[e.address]);
    } else if !Trapped(mods[m], e) {
      PlainKeeps(mods, s, m, e);
      AliasKeeps(mods, AddEntry(s, Entry(m, e, [], None)), m, e, |s.objects|);
    } else if AllocateTrap(s, found).Ok? {
      var (s1, t) := AllocateTrap(s, found).value;
      assert s1.objects == s.objects by {
        AllocatedObjects(s, found);
      }
      TrappedKeeps(mods, s, m, e, found);
      AliasKeeps(mods, AddTrapped(s1, m, e, t, e.address, EncodeStub(mods[m].arch, e.address, t)), m, e, |s.objects|);
    }
  }

  lemma DynamicStep(mods: map<nat, Module>, s: State, m: nat, r: Reference, found: nat, pristine: bool)
    requires World(mods) && Valid(mods, s) && m in mods
    ensures Valid(mods, Dynamic(s, m, mods[m], r, found, pristine).state)
  {
    hide Valid, World, AllocateTrap, EncodeStub, Write, Insort, Nops, PadStub, Lookup;
    if Dynamic(s, m, mods[m], r, found, pristine).state != s {
      var (s1, t) := AllocateTrap(s, found).value;
      AllocatedObjects(s, found);
      var slot := Slot(mods[m], Offset(s, m));
      var e := Export(if r.ByName? then Some(r.name) else None, if r.ByName? then 0 else r.ordinal, slot + ENTRY_OFFSET,
                      true, false);
      DynamicKeeps(mods, s, m, e, found);
      var s2 := AddTrapped(s1, m, e, t, slot, Nops() + PadStub(EncodeStub(mods[m].arch, slot + ENTRY_OFFSET, t)));
      ReferKeeps(mods, s2.(offsets := s2.offsets[m := Offset(s, m) + SLOT_SIZE]), m, r, |s.objects|);
    }
  }

  lemma {:induction false} RegisterAllKeeps(mods: map<nat, Module>, s: State, m: nat, found: nat, n: nat)
    requires World(mods) && Valid(mods, s) && Sound(s) && m in mods && n <= |mods[m].exports|
    ensures Valid(mods, RegisterAll(s, m, mods[m], found, n).state)
  {
    hide World, Valid, RegisterExport, TokensOk, IndicesOk;
    if n > 0 {
      RegisterAllKeeps(mods, s, m, found, n - 1);
      var r := RegisterAll(s, m, mods[m], found, n - 1);
      if r.error.None? {
        ExportKeeps(mods, r.state, m, mods[m].exports[n - 1], found);
      }
    }
  }

  // A module that is loaded changes nothing for the entries of the others.
  lemma LoadKeeps(mods: map<nat, Module>, s: State, m: nat, home: Module)
    requires Valid(mods, s) && (m in mods ==> mods[m] == home)
    ensures Valid(mods[m := home], s)
  {
    hide TokensOk, AddressesOk, RefsOk, TrapOk, EncodeStub, Holds;
    forall a | a in s.entries ensures EntryOk(mods[m := home], s, a) {
      assert EntryOk(mods, s, a);
    }
  }

  // The loaded modules after an operation. A module is loaded when it is registered, until it is removed.
  function LoadedAfter(mods: map<nat, Module>, op: Op): map<nat, Module> {
    match op
    case Register(m, home, _) => mods[m := home]
    case Remove(m) => mods - {m}
    case Make(_, _, _, _, _) => mods
  }

  // The modules that are loaded at the same time are apart, and a dynamic export is made in a loaded module.
  ghost predicate OpOk(mods: map<nat, Module>, op: Op) {
    match op
    case Register(m, home, _) => (m in mods ==> mods[m] == home) && World(mods[m := home])
    case Remove(_) => true
    case Make(m, home, _, _, _) => m in mods && mods[m] == home
  }

  lemma StepKeeps(mods: map<nat, Module>, s: State, op: Op)
    requires World(mods) && Valid(mods, s) && Sound(s) && OpOk(mods, op)
    ensures World(LoadedAfter(mods, op)) && Valid(LoadedAfter(mods, op), Apply(s, op))
  {
    hide Valid, RegisterAll, Dynamic, Unregister, TokensOk, IndicesOk, EncodeStub;
    match op {
      case Register(m, home, found) =>
        hide World;
        LoadKeeps(mods, s, m, home);
        RegisterAllKeeps(mods[m := home], s, m, found, |home.exports|);
      case Remove(m) =>
        hide Apply;
        UnregisterKeeps(mods, s, m);
        FewerApart(mods, m);
        RemovedState(s, m);
      case Make(m, home, r, found, pristine) =>
        hide World;
        DynamicStep(mods, s, m, r, found, pristine);
    }
  }

  lemma RemovedState(s: State, m: nat)
    requires Sound(s)
    ensures IndicesOk(s) && Apply(s, Remove(m)) == Unregister(s, m)
  {
  }

  lemma FewerApart(mods: map<nat, Module>, m: nat)
    requires World(mods)
    ensures World(mods - {m})
  {
    hide RangesApart, SpotsApart, Trapped;
    var fewer := mods - {m};
    forall i | i in fewer ensures ExportsOk(fewer, fewer[i]) {
      assert ExportsOk(mods, mods[i]);
    }
    forall i: nat, j: nat | i in fewer && j in fewer ensures ModulesApart(fewer, i, j) {
      assert ModulesApart(mods, i, j);
    }
  }

  function Loaded(mods: map<nat, Module>, ops: seq<Op>): map<nat, Module>
    decreases |ops|
  {
    if ops == [] then mods else Loaded(LoadedAfter(mods, ops[0]), ops[1..])
  }

  // A run in which the modules that are loaded at the same time are apart
  ghost predicate RunOk(mods: map<nat, Module>, ops: seq<Op>)
    decreases |ops|
  {
    ops == [] || (OpOk(mods, ops[0]) && RunOk(LoadedAfter(mods, ops[0]), ops[1..]))
  }

  lemma {:induction false} RunKeeps(mods: map<nat, Module>, s: State, ops: seq<Op>)
    requires World(mods) && Valid(mods, s) && Sound(s) && RunOk(mods, ops)
    ensures Valid(Loaded(mods, ops), After(s, ops))
    decreases |ops|
  {
    hide World, Valid, OpOk, Sound, LoadedAfter, Apply;
    if ops != [] {
      StepKeeps(mods, s, ops[0]);
      RunKeeps(LoadedAfter(mods, ops[0]), Apply(s, ops[0]), ops[1..]);
    }
  }

  lemma EmptyIsValid()
    ensures World(map[]) && Valid(map[], EMPTY) && Sound(EMPTY)
  {
  }

  // Such a run can load a module where a removed one was.
  lemma AddressReused(home: Module, found: nat, found': nat)
    requires World(map[0 := home]) && World(map[1 := home])
    ensures RunOk(map[], [Register(0, home, found), Remove(0), Register(1, home, found')])
  {
    hide World;
    var ops := [Register(0, home, found), Remove(0), Register(1, home, found')];
    var none: map<nat, Module> := map[];
    assert none[0 := home] == map[0 := home] && map[0 := home] - {0} == none && none[1 := home] == map[1 := home];
    assert ops[1..][1..] == ops[2..] && ops[2..] == [ops[2]] && ops[2..][1..] == [];
    assert RunOk(map[1 := home], []);
    assert RunOk(none, ops[2..]);
    assert RunOk(map[0 := home], ops[1..]);
  }

  function ArchOf(mods: map<nat, Module>, o: Entry): Arch {
    if o.owner in mods then mods[o.owner].arch else X86
  }

  // After every such run, the entry code of each export that is left and has a token reaches the token, and the token
  // leads back to that export, if the guest did not write over the code.
  lemma CallReachesEntry(ops: seq<Op>, a: nat, t: nat, c: Cpu)
    requires RunOk(map[], ops)
    requires a in Run(ops).entries && c.ip == a && c.mem == Run(ops).memory
    requires var s := Run(ops); s.objects[s.entries[a]].trap == Some(t)
    requires var s := Run(ops); Runnable(ArchOf(Loaded(map[], ops), s.objects[s.entries[a]]), c)
    ensures var s := Run(ops);
            var arch := ArchOf(Loaded(map[], ops), s.objects[s.entries[a]]);
            var r := Steps(arch, c, if arch == X86 then 5 else 2);
            && r.Some? && r.value == c.(ip := t, mem := r.value.mem) && SameButBelow(c.mem, r.value.mem, c.sp)
            && t in s.traps && s.traps[t] == s.entries[a]
  {
    var s, mods := Run(ops), Loaded(map[], ops);
    EmptyIsValid();
    RunKeeps(map[], EMPTY, ops);
    hide Run, Loaded, After, RunOk, Steps, EncodeStub, Runnable, World, AddressesOk, RefsOk, OffsetsOk, TrapOk,
      PlaceOk;
    assert EntryOk(mods, s, a);
    var o := s.objects[s.entries[a]];
    assert t < W32;
    StubReachesToken(ArchOf(mods, o), c, t);
  }

  // --- The registry object ---

  // The entry with the greatest address at or before this one
  ghost predicate Nearest(s: State, a: nat, address: nat) {
    a in s.entries && a <= address && forall b :: b in s.entries && b <= address ==> b <= a
  }

  // How far a name for an address inside an entry reaches
  function Extent(o: Entry): nat {
    if o.exported.isFunction && o.trap.Some? then SLOT_SIZE - ENTRY_OFFSET else 1
  }

  class Registry {
    var objects: seq<Entry>
    var entries: map<nat, nat>
    var traps: map<nat, nat>
    var names: map<(nat, string), nat>
    var ordinals: map<(nat, nat), nat>
    var dynamicOffsets: map<nat, nat>
    var trapBase: Option<nat>
    var addresses: seq<nat>
    var trapCount: nat
    var memory: Memory
    // The loaded modules, by identity
    ghost var modules: map<nat, Module>

    ghost function Now(): State
      reads this
    {
      State(objects, entries, traps, names, ordinals, dynamicOffsets, trapBase, addresses, trapCount, memory)
    }

    ghost predicate Intact()
      reads this
    {
      World(modules) && Valid(modules, Now()) && Sound(Now())
    }

    constructor ()
      ensures Intact() && modules == map[] && Now() == EMPTY
    {
      modules := map[];
      objects, entries, traps, names, ordinals, dynamicOffsets := [], map[], map[], map[], map[], map[];
      trapBase, addresses, trapCount, memory := None, [], 0, map[];
      EmptyIsValid();
    }

    method TakeToken(found: nat) returns (r: Result<nat, Error>)
      modifies this`trapBase, this`trapCount
      ensures match AllocateTrap(old(Now()), found)
              case Err(e) => r == Err(e) && Now() == old(Now())
              case Ok(p) => r == Ok(p.1) && Now() == p.0
    {
      var base: nat;
      if trapBase.None? {
        if found + TRAP_SIZE > W32 {
          return Err(NoSpace);
        }
        base := found;
      } else {
        base := trapBase.value;
      }
      var offset := trapCount * TRAP_STRIDE;
      if offset >= TRAP_SIZE {
        return Err(Exhausted);
      }
      trapBase := Some(base);
      trapCount := trapCount + 1;
      return Ok(base + offset);
    }

    method PutEntry(o: Entry) returns (id: nat)
      modifies this`objects, this`entries, this`traps, this`addresses
      ensures id == |old(objects)| && Now() == AddEntry(old(Now()), o)
    {
      id := |objects|;
      objects := objects + [o];
      entries := entries[o.exported.address := id];
      addresses := Insort(addresses, o.exported.address);
      if o.trap.Some? {
        traps := traps[o.trap.value := id];
      }
    }

    method NameEntry(m: nat, e: Export, id: nat)
      requires id < |objects|
      modifies this`objects, this`names, this`ordinals
      ensures Now() == Alias(old(Now()), m, e, id)
    {
      if e.name.Some? && e.name.value != "" {
        if e.name.value !in objects[id].names {
          objects := objects[id := objects[id].(names := objects[id].names + [e.name.value])];
        }
        names := names[(m, e.name.value) := id];
      }
      ordinals := ordinals[(m, e.ordinal) := id];
    }

    method RegisterOne(m: nat, home: Module, e: Export, found: nat) returns (error: Option<Error>)
      requires IndicesOk(Now())
      modifies this
      ensures RegisterExport(old(Now()), m, home, e, found) == Outcome(Now(), error) && modules == old(modules)
    {
      hide Insort, EncodeStub, Write;
      if e.address == 0 {
        return None;
      }
      var id: nat;
      if e.address in entries {
        id := entries[e.address];
      } else if Trapped(home, e) {
        var token := TakeToken(found);
        if token.Err? {
          return Some(token.error);
        }
        memory := Write(memory, e.address, EncodeStub(home.arch, e.address, token.value));
        id := PutEntry(Entry(m, e, [], Some(token.value)));
      } else {
        id := PutEntry(Entry(m, e, [], None));
      }
      NameEntry(m, e, id);
      return None;
    }

    method RegisterModule(m: nat, home: Module, found: nat) returns (error: Option<Error>)
      requires Sound(Now())
      modifies this
      ensures Sound(Now()) && Grows(old(Now()), Now()) && modules == old(modules)[m := home]
      ensures RegisterAll(old(Now()), m, home, found, |home.exports|) == Outcome(Now(), error)
      ensures old(Intact()) && OpOk(old(modules), Register(m, home, found)) ==> Intact()
    {
      error := RegisterExports(m, home, found);
      modules := modules[m := home];
      hide World, Valid, RegisterAll, Sound;
      if old(Intact()) && OpOk(old(modules), Register(m, home, found)) {
        StepKeeps(old(modules), old(Now()), Register(m, home, found));
      }
    }

    method RegisterExports(m: nat, home: Module, found: nat) returns (error: Option<Error>)
      requires Sound(Now())
      modifies this
      ensures Sound(Now()) && Grows(old(Now()), Now()) && modules == old(modules)
      ensures RegisterAll(old(Now()), m, home, found, |home.exports|) == Outcome(Now(), error)
    {
      hide RegisterExport, TokensOk, IndicesOk;
      for n := 0 to |home.exports|
        invariant Sound(Now()) && modules == old(modules)
        invariant RegisterAll(old(Now()), m, home, found, n) == Outcome(Now(), None)
      {
        ghost var next := RegisterAll(old(Now()), m, home, found, n + 1);
        error := RegisterOne(m, home, home.exports[n], found);
        assert next == Outcome(Now(), error);
        if error.Some? {
          FailureStays(old(Now()), m, home, found, n + 1, |home.exports|);
          return;
        }
      }
      return None;
    }

    method UnregisterModule(m: nat)
      requires Sound(Now())
      modifies this
      ensures Sound(Now()) && IndicesOk(old(Now())) && Now() == Unregister(old(Now()), m)
      ensures modules == old(modules) - {m} && (old(Intact()) ==> Intact())
    {
      UnregisterSound(Now(), m);
      if Intact() {
        UnregisterKeeps(modules, Now(), m);
        FewerApart(modules, m);
      }
      Purge(m);
      modules := modules - {m};
    }

    method Purge(m: nat)
      requires IndicesOk(Now())
      modifies this
      ensures IndicesOk(old(Now())) && Now() == Unregister(old(Now()), m) && modules == old(modules)
    {
      hide Keep;
      hide OfOthers, TokensOf, NotIn;
      var kept := OfOthers(objects, entries, m);
      traps := traps - TokensOf(objects, entries, m);
      entries := kept;
      addresses := Keep(addresses, kept);
      names := NotIn(names, m);
      ordinals := NotIn(ordinals, m);
      dynamicOffsets := dynamicOffsets - {m};
    }

    method DynamicExport(m: nat, home: Module, r: Reference, found: nat, pristine: bool) returns (error: Option<Error>)
      requires Sound(Now())
      modifies this
      ensures Sound(Now()) && Grows(old(Now()), Now()) && modules == old(modules)
      ensures Dynamic(old(Now()), m, home, r, found, pristine) == Outcome(Now(), error)
      ensures error.None? ==> Lookup(Now(), m, r).Some?
      ensures old(Intact()) && OpOk(modules, Make(m, home, r, found, pristine)) ==> Intact()
    {
      DynamicSound(Now(), m, home, r, found, pristine);
      if Intact() && OpOk(modules, Make(m, home, r, found, pristine)) {
        DynamicStep(modules, Now(), m, r, found, pristine);
      }
      hide World, Valid, Insort, EncodeStub, Write, Nops, PadStub, Grows, Sound;
      error := MakeExport(m, home, r, found, pristine);
    }

    method ReferTo(m: nat, r: Reference, id: nat)
      requires id < |objects|
      modifies this`objects, this`names, this`ordinals
      ensures Now() == Refer(old(Now()), m, r, id)
    {
      match r {
        case ByName(n) =>
          objects := objects[id := objects[id].(names := [n])];
          names := names[(m, n) := id];
        case ByOrdinal(o) =>
          ordinals := ordinals[(m, o) := id];
      }
    }

    method FillSlot(m: nat, home: Module, r: Reference, offset: nat, token: nat)
      requires home.arena.Some?
      modifies this
      ensures Now() == Filled(old(Now()), m, home, r, offset, token) && modules == old(modules)
    {
      hide Insort, EncodeStub, Write, Nops, PadStub;
      var slot := Slot(home, offset);
      var address := slot + ENTRY_OFFSET;
      var e := Export(
        if r.ByName? then Some(r.name) else None, if r.ByName? then 0 else r.ordinal, address, true, false);
      memory := Write(memory, slot, Nops() + PadStub(EncodeStub(home.arch, address, token)));
      var id := PutEntry(Entry(m, e, [], Some(token)));
      ReferTo(m, r, id);
      dynamicOffsets := dynamicOffsets[m := offset + SLOT_SIZE];
    }

    method MakeExport(m: nat, home: Module, r: Reference, found: nat, pristine: bool) returns (error: Option<Error>)
      modifies this
      ensures Dynamic(old(Now()), m, home, r, found, pristine) == Outcome(Now(), error) && modules == old(modules)
    {
      hide Filled;
      if Lookup(State(objects, entries, traps, names, ordinals, dynamicOffsets, trapBase, addresses, trapCount, memory),
        m,
                r).Some?
      {
        return None;
      }
      if !home.synthetic {
        return Some(GuestModule);
      }
      var offset := if m in dynamicOffsets then dynamicOffsets[m] else 0;
      if home.arena.None? || offset + SLOT_SIZE > home.arena.value.1 {
        return Some(ArenaFull);
      }
      if !pristine {
        return Some(ArenaModified);
      }
      var token := TakeToken(found);
      if token.Err? {
        return Some(token.error);
      }
      FillSlot(m, home, r, offset, token.value);
      return None;
    }

    // A name for an address inside an entry: the nearest entry at or before it, if it reaches that far
    method Symbol(address: nat) returns (r: Option<(nat, nat)>)
      requires IndicesOk(Now()) && AddressesOk(Now())
      ensures address in entries ==> r == Some((address, 0))
      ensures address !in entries && r.Some? ==>
                Nearest(Now(), r.value.0, address) && r.value.1 == address - r.value.0
                && r.value.1 < Extent(objects[entries[r.value.0]])
      ensures address !in entries && r.None? ==>
                forall a: nat :: Nearest(Now(), a, address) ==> a + Extent(objects[entries[a]]) <= address
    {
      hide Extent;
      if address in entries {
        return Some((address, 0));
      }
      var index := BisectRight(addresses, address);
      if index > 0 {
        var start := addresses[index - 1];
        NearestAt(Now(), address, index);
        var extent := Extent(objects[entries[start]]);
        if start < address < start + extent {
          return Some((start, address - start));
        }
      } else {
        NoneBefore(Now(), address);
      }
      return None;
    }
  }

  lemma NearestAt(s: State, address: nat, index: nat)
    requires AddressesOk(s) && 0 < index <= |s.addresses| && address !in s.entries
    requires (forall i, j :: 0 <= i < j < |s.addresses| ==> s.addresses[i] <= s.addresses[j]) ==>
               (forall i :: 0 <= i < index ==> s.addresses[i] <= address)
               && (forall i :: index <= i < |s.addresses| ==> address < s.addresses[i])
    ensures Nearest(s, s.addresses[index - 1], address) && s.addresses[index - 1] < address
  {
    var start := s.addresses[index - 1];
    assert start in s.addresses;
    forall b | b in s.entries && b <= address ensures b <= start {
      assert b in s.addresses;
      var i :| 0 <= i < |s.addresses| && s.addresses[i] == b;
      assert i < index;
    }
  }

  lemma NoneBefore(s: State, address: nat)
    requires AddressesOk(s)
    requires (forall i, j :: 0 <= i < j < |s.addresses| ==> s.addresses[i] <= s.addresses[j]) ==>
               forall i :: 0 <= i < |s.addresses| ==> address < s.addresses[i]
    ensures forall a :: !Nearest(s, a, address)
  {
    forall a | a in s.entries ensures address < a {
      assert a in s.addresses;
    }
  }

  lemma {:induction false} FailureStays(s: State, m: nat, home: Module, found: nat, n: nat, k: nat)
    requires n <= k <= |home.exports| && Sound(s)
    requires RegisterAll(s, m, home, found, n).error.Some?
    ensures RegisterAll(s, m, home, found, k) == RegisterAll(s, m, home, found, n)
  {
    hide RegisterExport, TokensOk, IndicesOk;
    if n < k {
      FailureStays(s, m, home, found, n, k - 1);
    }
  }
}
