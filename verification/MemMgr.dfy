// speakeasy/memmgr.py: the memory manager, a first-fit page allocator with shared page blocks and reservations.

module MemMgr {
  import opened Options
  import opened Sets

  const PAGE: nat := 0x1000
  const ALLOCATION_GRANULARITY: nat := 0x10000

  // One allocation, and the block that holds it.
  datatype MemMap = MemMap(base: int, size: nat, free: bool, blockBase: int, blockSize: nat)

  datatype Reserve = Reserve(base: int, size: nat)

  // pages are the base addresses of the pages that the engine has mapped.
  datatype State = State(
    maps: seq<MemMap>, reserves: seq<Reserve>, pages: set<int>,
    blockBase: int, blockSize: nat, blockOffset: nat, allocBase: int)

  predicate Aligned(a: int) {
    a % PAGE == 0
  }

  function PageOf(a: int): int {
    a - a % PAGE
  }

  // At least a page, and whole pages
  function RoundUp(size: nat): (total: nat)
    ensures total >= size && total >= PAGE && Aligned(total) && total < size + 2 * PAGE
  {
    if size < PAGE then PAGE else if size % PAGE != 0 then size + (PAGE - size % PAGE) else size
  }

  // The page steps of a range
  function RangePages(base: int, size: nat): (pages: set<int>)
    ensures forall p :: p in pages <==> base <= p < base + size && Aligned(p - base)
    decreases size
  {
    if size == 0 then {} else if size <= PAGE then {base} else {base} + RangePages(base + PAGE, size - PAGE)
  }

  function ReservedPages(reserves: seq<Reserve>): set<int> {
    if reserves == [] then {} else RangePages(reserves[0].base, reserves[0].size) + ReservedPages(reserves[1..])
  }

  function Taken(s: State): set<int> {
    s.pages + ReservedPages(s.reserves)
  }

  // -- First fit

  predicate Misses(taken: set<int>, base: int, total: nat) {
    forall p :: p in taken ==> !(base <= p < base + total)
  }

  // The lowest page-aligned base at or after start whose whole range is free.
  ghost predicate FirstFit(taken: set<int>, start: int, total: nat, base: int) {
    && Aligned(base) && start <= base && Misses(taken, base, total)
    && forall b :: start <= b < base && Aligned(b) ==> !Misses(taken, b, total)
  }

  ghost predicate AllAligned(s: set<int>) {
    forall p :: p in s ==> Aligned(p)
  }

  // If the page-aligned base at start is free, it is the first fit.
  lemma FreeIsFirst(taken: set<int>, start: int, total: nat, base: int)
    requires FirstFit(taken, start, total, base) && Aligned(start) && Misses(taken, start, total)
    ensures base == start
  {
  }

  method SortedPages(pages: set<int>) returns (curr: seq<int>)
    ensures forall p :: p in curr <==> p in pages
    ensures forall i, j :: 0 <= i < j < |curr| ==> curr[i] < curr[j]
  {
    var rest := pages;
    curr := [];
    while rest != {}
      invariant rest <= pages
      invariant forall p :: p in curr <==> p in pages - rest
      invariant forall i, p :: 0 <= i < |curr| && p in rest ==> curr[i] < p
      invariant forall i, j :: 0 <= i < j < |curr| ==> curr[i] < curr[j]
      decreases rest
    {
      LeastExists(rest);
      var least :| least in rest && forall p :: p in rest ==> least <= p;
      curr := curr + [least];
      rest := rest - {least};
    }
  }

  // A page that blocks a base also blocks the bases up to it.
  lemma PageBlocks(taken: set<int>, base: int, total: nat, page: int)
    requires page in taken && Aligned(page) && base <= page < base + total
    ensures forall b :: base <= b < page + PAGE && Aligned(b) ==> !Misses(taken, b, total)
  {
    forall b | base <= b < page + PAGE && Aligned(b) ensures !Misses(taken, b, total) {
      assert b <= page;
    }
  }

  lemma NextAligned(page: int)
    requires Aligned(page)
    ensures Aligned(page + PAGE)
  {
  }

  method FindFit(taken: set<int>, start: int, total: nat) returns (base: int)
    requires Aligned(start) && AllAligned(taken)
    ensures FirstFit(taken, start, total, base)
  {
    var curr := SortedPages(taken);
    base := start;
    var i := 0;
    hide Misses, Aligned;
    while i < |curr|
      invariant 0 <= i <= |curr| && Aligned(base) && start <= base
      invariant forall j :: 0 <= j < i ==> curr[j] < base
      invariant forall b :: start <= b < base && Aligned(b) ==> !Misses(taken, b, total)
    {
      var page := curr[i];
      assert page in curr;
      if page >= base + total {
        break;
      }
      if page >= base {
        PageBlocks(taken, base, total, page);
        NextAligned(page);
        base := page + PAGE;
      }
      i := i + 1;
    }
    NothingIn(taken, curr, i, base, total);
  }

  lemma NothingIn(taken: set<int>, curr: seq<int>, i: nat, base: int, total: nat)
    requires forall p :: p in curr <==> p in taken
    requires forall j, k :: 0 <= j < k < |curr| ==> curr[j] < curr[k]
    requires i <= |curr| && (i < |curr| ==> curr[i] >= base + total) && forall j :: 0 <= j < i ==> curr[j] < base
    ensures Misses(taken, base, total)
  {
    forall p | p in taken ensures !(base <= p < base + total) {
      var j :| 0 <= j < |curr| && curr[j] == p;
    }
  }

  // -- What every operation keeps

  ghost predicate MapOk(m: MemMap) {
    && m.size > 0 && m.blockSize > 0 && Aligned(m.blockBase) && Aligned(m.blockSize)
    && m.blockBase <= m.base && m.base + m.size <= m.blockBase + m.blockSize
  }

  predicate Apart(a: int, aSize: nat, b: int, bSize: nat) {
    a + aSize <= b || b + bSize <= a
  }

  // Blocks are equal or apart.
  ghost predicate BlocksAgree(a: MemMap, b: MemMap) {
    (a.blockBase == b.blockBase && a.blockSize == b.blockSize)
      || Apart(a.blockBase, a.blockSize, b.blockBase, b.blockSize)
  }

  ghost predicate MapsOk(maps: seq<MemMap>) {
    && (forall i :: 0 <= i < |maps| ==> MapOk(maps[i]))
    && (forall i, j :: 0 <= i < j < |maps| ==> Apart(maps[i].base, maps[i].size, maps[j].base, maps[j].size))
    && (forall i, j :: 0 <= i < j < |maps| ==> BlocksAgree(maps[i], maps[j]))
  }

  predicate InBlock(m: MemMap, page: int) {
    m.blockBase <= page < m.blockBase + m.blockSize
  }

  // The mapped pages are exactly those of the blocks of the listed allocations.
  ghost predicate PagesMatch(s: State) {
    && AllAligned(s.pages)
    && (forall i, p :: 0 <= i < |s.maps| && InBlock(s.maps[i], p) && Aligned(p) ==> p in s.pages)
    && (forall p :: p in s.pages ==> exists i :: 0 <= i < |s.maps| && InBlock(s.maps[i], p))
  }

  ghost predicate ReservesOk(s: State) {
    && (forall i :: 0 <= i < |s.reserves| ==> Aligned(s.reserves[i].base) && s.reserves[i].size > 0)
    && (forall i, j :: 0 <= i < j < |s.reserves| ==>
          RangePages(s.reserves[i].base, s.reserves[i].size) !! RangePages(s.reserves[j].base, s.reserves[j].size))
    && s.pages !! ReservedPages(s.reserves)
  }

  // The current shared block is one page, is mapped, and its allocations are below the offset.
  ghost predicate SharedOk(s: State) {
    && s.blockOffset <= PAGE && (s.blockSize == 0 || s.blockSize == PAGE)
    && (s.blockBase != 0 ==>
          && s.blockSize == PAGE && s.blockBase in s.pages
          && forall i :: 0 <= i < |s.maps| && InBlock(s.maps[i], s.blockBase) ==>
               && s.maps[i].blockBase == s.blockBase && s.maps[i].blockSize == PAGE
               && s.maps[i].base + s.maps[i].size <= s.blockBase + s.blockOffset)
  }

  ghost predicate Valid(s: State) {
    MapsOk(s.maps) && PagesMatch(s) && ReservesOk(s) && SharedOk(s)
  }

  // -- The operations on values

  // Whole pages at a base
  function AddPages(s: State, base: int, total: nat): State {
    var blockSize := if total > s.blockSize then total else s.blockSize;
    s.(maps := s.maps + [MemMap(base, total, false, base, blockSize)], pages := s.pages + RangePages(base, total))
  }

  function Padded(size: nat): (r: nat)
    ensures size < r <= size + 16
  {
    size + (16 - size % 16)
  }

  predicate RoomInBlock(s: State, size: nat) {
    s.blockBase != 0 && s.blockBase + s.blockOffset + size <= s.blockBase + PAGE
  }

  // A small allocation in the current shared block
  function AddShared(s: State, size: nat): State {
    s.(maps := s.maps + [MemMap(s.blockBase + s.blockOffset, size, false, s.blockBase, s.blockSize)],
       blockOffset := s.blockOffset + size)
  }

  // A new shared block at a base
  function OpenBlock(s: State, base: int): State {
    s.(pages := s.pages + {base}, blockBase := base, blockSize := PAGE, blockOffset := 0)
  }

  function IndexAt(maps: seq<MemMap>, address: int): (i: nat)
    ensures i <= |maps|
    ensures i < |maps| ==> maps[i].base <= address <= maps[i].base + maps[i].size - 1
    ensures forall j :: 0 <= j < i ==> !(maps[j].base <= address <= maps[j].base + maps[j].size - 1)
  {
    if maps == [] || maps[0].base <= address <= maps[0].base + maps[0].size - 1 then 0
    else 1 + IndexAt(maps[1..], address)
  }

  predicate AllFree(maps: seq<MemMap>, blockBase: int) {
    forall i :: 0 <= i < |maps| && maps[i].blockBase == blockBase ==> maps[i].free
  }

  function WithoutBlock(maps: seq<MemMap>, blockBase: int): seq<MemMap> {
    if maps == [] then []
    else (if maps[0].blockBase == blockBase then [] else [maps[0]]) + WithoutBlock(maps[1..], blockBase)
  }

  function MarkFree(s: State, i: nat): State
    requires i < |s.maps|
  {
    s.(maps := s.maps[i := s.maps[i].(free := true)])
  }

  // Unmap the block of allocation i.
  function UnmapBlock(s: State, i: nat): State
    requires i < |s.maps|
  {
    var m := s.maps[i];
    s.(maps := WithoutBlock(s.maps, m.blockBase), pages := s.pages - RangePages(m.blockBase, m.blockSize),
      blockBase := 0)
  }

  function Free(s: State, address: int, keep: bool): State {
    var i := IndexAt(s.maps, address);
    if i == |s.maps| then s
    else
      var marked := MarkFree(s, i);
      if keep || !AllFree(marked.maps, s.maps[i].blockBase) then marked else UnmapBlock(marked, i)
  }

  function WithoutReserve(reserves: seq<Reserve>, base: int): seq<Reserve> {
    if reserves == [] then []
    else (if reserves[0].base == base then [] else [reserves[0]]) + WithoutReserve(reserves[1..], base)
  }

  function ReserveIndex(reserves: seq<Reserve>, base: int): (i: nat)
    ensures i <= |reserves|
    ensures i < |reserves| ==> reserves[i].base == base
    ensures forall j :: 0 <= j < i ==> reserves[j].base != base
  {
    if reserves == [] || reserves[0].base == base then 0 else 1 + ReserveIndex(reserves[1..], base)
  }

  function AddReserve(s: State, base: int, size: nat): State {
    s.(reserves := s.reserves + [Reserve(base, size)])
  }

  function TakeReserve(s: State, i: nat): State
    requires i < |s.reserves|
  {
    s.(reserves := s.reserves[..i] + s.reserves[i + 1..])
  }

  // -- Each operation keeps the invariant

  // A whole range of pages that is free, for a new block
  ghost predicate IsFree(s: State, base: int, total: nat) {
    Aligned(base) && Aligned(total) && total > 0 && Misses(Taken(s), base, total)
  }

  // A block that is listed is apart from a free range, and a block without some page is apart from that page.
  lemma BlockApart(m: MemMap, base: int, total: nat, pages: set<int>)
    requires MapOk(m) && Aligned(base) && Aligned(total) && total > 0
    requires forall p :: InBlock(m, p) && Aligned(p) ==> p in pages
    requires forall p :: p in pages && InBlock(m, p) ==> !(base <= p < base + total)
    ensures Apart(m.blockBase, m.blockSize, base, total)
  {
    var p := if base < m.blockBase then m.blockBase else base;
    assert Aligned(p);
    assert InBlock(m, p) ==> p in pages;
  }

  lemma AddPagesKeeps(s: State, base: int, total: nat)
    requires Valid(s) && IsFree(s, base, total) && total >= PAGE
    ensures Valid(AddPages(s, base, total))
  {
    var s', m := AddPages(s, base, total), MemMap(base, total, false, base, total);
    assert s'.maps == s.maps + [m];
    forall i | 0 <= i < |s.maps| ensures Apart(s.maps[i].blockBase, s.maps[i].blockSize, base, total) {
      assert MapOk(s.maps[i]);
      BlockApart(s.maps[i], base, total, s.pages);
    }
    assert MapsOk(s'.maps);
    assert PagesMatch(s') by {
      hide Apart, MapOk, BlocksAgree;
      PagesAdded(s, s', m);
    }
    assert ReservesOk(s') && SharedOk(s');
  }

  lemma PagesAdded(s: State, s': State, m: MemMap)
    requires PagesMatch(s) && Aligned(m.blockBase)
    requires s'.maps == s.maps + [m] && s'.pages == s.pages + RangePages(m.blockBase, m.blockSize)
    ensures PagesMatch(s')
  {
    forall p | p in s'.pages ensures Aligned(p) && exists i :: 0 <= i < |s'.maps| && InBlock(s'.maps[i], p) {
      AddedPage(s, s', m, p);
    }
    hide RangePages, Aligned;
    forall i, p | 0 <= i < |s'.maps| && InBlock(s'.maps[i], p) && Aligned(p) ensures p in s'.pages {
      if i < |s.maps| {
        assert s'.maps[i] == s.maps[i];
      } else {
        BlockPage(m, p);
      }
    }
  }

  lemma BlockPage(m: MemMap, p: int)
    requires Aligned(m.blockBase) && InBlock(m, p) && Aligned(p)
    ensures p in RangePages(m.blockBase, m.blockSize)
  {
  }

  lemma AddedPage(s: State, s': State, m: MemMap, p: int)
    requires PagesMatch(s) && Aligned(m.blockBase) && p in s'.pages
    requires s'.maps == s.maps + [m] && s'.pages == s.pages + RangePages(m.blockBase, m.blockSize)
    ensures Aligned(p) && exists i :: 0 <= i < |s'.maps| && InBlock(s'.maps[i], p)
  {
    if p in s.pages {
      hide RangePages, Aligned;
      var i :| 0 <= i < |s.maps| && InBlock(s.maps[i], p);
      assert InBlock(s'.maps[i], p);
    } else {
      PageOfBlock(m, p);
      hide RangePages, Aligned;
      assert InBlock(s'.maps[|s.maps|], p);
    }
  }

  lemma PageOfBlock(m: MemMap, p: int)
    requires Aligned(m.blockBase) && p in RangePages(m.blockBase, m.blockSize)
    ensures Aligned(p) && InBlock(m, p)
  {
  }

  // A block of the list that does not hold the page of a one-page block is apart from it.
  lemma PageApart(m: MemMap, base: int)
    requires MapOk(m) && Aligned(base) && !InBlock(m, base)
    ensures Apart(m.blockBase, m.blockSize, base, PAGE)
  {
  }

  lemma AddSharedKeeps(s: State, size: nat)
    requires Valid(s) && RoomInBlock(s, size) && size > 0
    ensures Valid(AddShared(s, size))
  {
    var s', m := AddShared(s, size), MemMap(s.blockBase + s.blockOffset, size, false, s.blockBase, PAGE);
    assert Aligned(s.blockBase) && s'.maps == s.maps + [m];
    forall i | 0 <= i < |s.maps| && !InBlock(s.maps[i], s.blockBase)
      ensures Apart(s.maps[i].blockBase, s.maps[i].blockSize, s.blockBase, PAGE)
    {
      assert MapOk(s.maps[i]);
      PageApart(s.maps[i], s.blockBase);
    }
    assert MapsOk(s'.maps);
    assert PagesMatch(s') by {
      hide Apart, MapOk, BlocksAgree;
      PageKept(s, s', m);
    }
    assert SharedOk(s');
  }

  lemma PageKept(s: State, s': State, m: MemMap)
    requires PagesMatch(s) && m.blockBase in s.pages && m.blockSize == PAGE
    requires s'.maps == s.maps + [m] && s'.pages == s.pages
    ensures PagesMatch(s')
  {
    forall p | p in s'.pages ensures exists i :: 0 <= i < |s'.maps| && InBlock(s'.maps[i], p) {
      var i :| 0 <= i < |s.maps| && InBlock(s.maps[i], p);
      assert s'.maps[i] == s.maps[i];
    }
    forall i, p | 0 <= i < |s'.maps| && InBlock(s'.maps[i], p) && Aligned(p) ensures p in s'.pages {
      assert i < |s.maps| ==> s'.maps[i] == s.maps[i];
    }
  }

  // A new shared block with its first allocation
  lemma NewSharedKeeps(s: State, base: int, size: nat)
    requires Valid(s) && IsFree(s, base, PAGE) && 0 < size <= PAGE
    ensures Valid(AddShared(OpenBlock(s, base), size))
  {
    var s', m := AddShared(OpenBlock(s, base), size), MemMap(base, size, false, base, PAGE);
    assert s'.maps == s.maps + [m];
    forall i | 0 <= i < |s.maps| ensures Apart(s.maps[i].blockBase, s.maps[i].blockSize, base, PAGE) {
      assert MapOk(s.maps[i]);
      BlockApart(s.maps[i], base, PAGE, s.pages);
    }
    assert MapsOk(s'.maps);
    assert PagesMatch(s') by {
      hide Apart, MapOk, BlocksAgree;
      OnePage(base);
      PagesAdded(s, s', m);
    }
    assert ReservesOk(s') by {
      assert !(base in ReservedPages(s.reserves));
    }
    assert forall i :: 0 <= i < |s.maps| ==> s'.maps[i] == s.maps[i] && !InBlock(s.maps[i], base);
    assert SharedOk(s');
  }

  lemma OnePage(base: int)
    requires Aligned(base)
    ensures RangePages(base, PAGE) == {base}
  {
  }

  lemma MarkFreeKeeps(s: State, i: nat)
    requires Valid(s) && i < |s.maps|
    ensures Valid(MarkFree(s, i))
  {
    var s' := MarkFree(s, i);
    assert forall j :: 0 <= j < |s.maps| ==> s'.maps[j] == s.maps[j].(free := s'.maps[j].free);
    hide Apart;
    SameMapsOk(s.maps, s'.maps);
    hide MapsOk;
    forall p | p in s'.pages ensures exists j :: 0 <= j < |s'.maps| && InBlock(s'.maps[j], p) {
      var j :| 0 <= j < |s.maps| && InBlock(s.maps[j], p);
      assert InBlock(s'.maps[j], p);
    }
  }

  lemma SameMapsOk(maps: seq<MemMap>, maps': seq<MemMap>)
    requires MapsOk(maps) && |maps'| == |maps|
    requires forall j :: 0 <= j < |maps| ==> maps'[j] == maps[j].(free := maps'[j].free)
    ensures MapsOk(maps')
  {
    hide Apart, MapOk;
    forall i | 0 <= i < |maps'| ensures MapOk(maps'[i]) {
      assert MapOk(maps[i]);
      FreeMapOk(maps[i], maps'[i].free);
    }
  }

  lemma FreeMapOk(m: MemMap, free: bool)
    requires MapOk(m)
    ensures MapOk(m.(free := free))
  {
  }

  // What is left after a block is taken out of a list
  lemma {:induction false} WithoutBlockMembers(maps: seq<MemMap>, blockBase: int)
    ensures forall m :: m in WithoutBlock(maps, blockBase) <==> m in maps && m.blockBase != blockBase
  {
    if maps != [] {
      WithoutBlockMembers(maps[1..], blockBase);
      assert forall m :: m in maps <==> m == maps[0] || m in maps[1..];
    }
  }

  lemma MapsOkCons(m: MemMap, rest: seq<MemMap>)
    requires MapOk(m) && MapsOk(rest)
    requires forall r :: r in rest ==> Apart(m.base, m.size, r.base, r.size) && BlocksAgree(m, r)
    ensures MapsOk([m] + rest)
  {
    hide Apart, MapOk, BlocksAgree;
  }

  lemma {:induction false} WithoutBlockOk(maps: seq<MemMap>, blockBase: int)
    requires MapsOk(maps)
    ensures MapsOk(WithoutBlock(maps, blockBase))
  {
    hide Apart, MapOk, BlocksAgree;
    if maps != [] {
      var rest := WithoutBlock(maps[1..], blockBase);
      WithoutBlockOk(maps[1..], blockBase);
      WithoutBlockMembers(maps[1..], blockBase);
      forall r | r in rest ensures Apart(maps[0].base, maps[0].size, r.base, r.size) && BlocksAgree(maps[0], r) {
        var k :| 0 <= k < |maps[1..]| && maps[1..][k] == r;
        assert maps[k + 1] == r;
      }
      MapsOkCons(maps[0], rest);
    }
  }

  lemma UnmapKeeps(s: State, i: nat)
    requires Valid(s) && i < |s.maps|
    ensures Valid(UnmapBlock(s, i))
  {
    var s', b := UnmapBlock(s, i), s.maps[i].blockBase;
    WithoutBlockOk(s.maps, b);
    WithoutBlockMembers(s.maps, b);
    UnmapMatches(s, i);
    hide MapsOk, PagesMatch, RangePages;
    assert ReservesOk(s') && SharedOk(s');
  }

  lemma UnmapMatches(s: State, i: nat)
    requires MapsOk(s.maps) && PagesMatch(s) && i < |s.maps|
    ensures PagesMatch(UnmapBlock(s, i))
  {
    var s', m := UnmapBlock(s, i), s.maps[i];
    WithoutBlockMembers(s.maps, m.blockBase);
    assert MapOk(m) by {
      assert MapOk(s.maps[i]);
    }
    forall j, p | 0 <= j < |s.maps| && InBlock(s.maps[j], p)
      ensures InBlock(m, p) <==> s.maps[j].blockBase == m.blockBase
    {
      BlocksSame(s.maps, i, j);
    }
    assert Aligned(m.blockBase);
    hide MapsOk, MapOk, InBlock, WithoutBlock, Aligned;
    forall p | p in s'.pages ensures exists j :: 0 <= j < |s'.maps| && InBlock(s'.maps[j], p) {
      var j :| 0 <= j < |s.maps| && InBlock(s.maps[j], p);
      assert !InBlock(m, p) by { PageInBlock(m, p); }
      assert s.maps[j] in s'.maps;
    }
    forall j, p | 0 <= j < |s'.maps| && InBlock(s'.maps[j], p) && Aligned(p) ensures p in s'.pages {
      assert s'.maps[j] in s.maps;
      var k :| 0 <= k < |s.maps| && s.maps[k] == s'.maps[j];
      assert !InBlock(m, p);
      PageInBlock(m, p);
    }
  }

  lemma PageInBlock(m: MemMap, p: int)
    requires Aligned(m.blockBase) && Aligned(p)
    ensures p in RangePages(m.blockBase, m.blockSize) <==> InBlock(m, p)
  {
  }

  // Blocks i and j are one block exactly when they start at the same address.
  ghost predicate SameBlock(maps: seq<MemMap>, i: nat, j: nat)
    requires i < |maps| && j < |maps|
  {
    if maps[i].blockBase == maps[j].blockBase then maps[i].blockSize == maps[j].blockSize
    else Apart(maps[i].blockBase, maps[i].blockSize, maps[j].blockBase, maps[j].blockSize)
  }

  lemma BlocksSame(maps: seq<MemMap>, i: nat, j: nat)
    requires MapsOk(maps) && i < |maps| && j < |maps|
    ensures SameBlock(maps, i, j)
  {
    assert MapOk(maps[i]) && MapOk(maps[j]);
    if i < j {
      assert BlocksAgree(maps[i], maps[j]);
    } else if j < i {
      assert BlocksAgree(maps[j], maps[i]);
    }
  }

  lemma FreeKeeps(s: State, address: int, keep: bool)
    requires Valid(s)
    ensures Valid(Free(s, address, keep))
  {
    hide Valid, MarkFree, UnmapBlock;
    var i := IndexAt(s.maps, address);
    if i < |s.maps| {
      MarkFreeKeeps(s, i);
      MarkedLength(s, i);
      UnmapKeeps(MarkFree(s, i), i);
    }
  }

  lemma MarkedLength(s: State, i: nat)
    requires i < |s.maps|
    ensures |MarkFree(s, i).maps| == |s.maps|
  {
  }

  // A page is unmapped only when every allocation of its block is free, and only if freed memory is not kept.
  lemma UnmapsFreeBlocks(s: State, address: int, keep: bool, page: int, j: nat)
    requires Valid(s) && page in s.pages && page !in Free(s, address, keep).pages
    requires j < |s.maps| && InBlock(s.maps[j], page)
    ensures !keep && (s.maps[j].free || j == IndexAt(s.maps, address))
    ensures forall m :: m in Free(s, address, keep).maps ==> !InBlock(m, page)
  {
    var i := IndexAt(s.maps, address);
    assert MapOk(s.maps[i]);
    BlocksSame(s.maps, i, j);
    var marked := MarkFree(s, i);
    assert marked.maps[j].blockBase == s.maps[j].blockBase;
    FreeKeeps(s, address, keep);
    forall m | m in Free(s, address, keep).maps ensures !InBlock(m, page) {
      var k :| 0 <= k < |Free(s, address, keep).maps| && Free(s, address, keep).maps[k] == m;
    }
  }

  // -- Reservations

  lemma {:induction false} ReservedMember(reserves: seq<Reserve>, p: int)
    ensures p in ReservedPages(reserves)
       <==> exists i :: 0 <= i < |reserves| && p in RangePages(reserves[i].base, reserves[i].size)
  {
    hide RangePages;
    if reserves != [] {
      var rest := reserves[1..];
      ReservedMember(rest, p);
      if i :| 0 <= i < |rest| && p in RangePages(rest[i].base, rest[i].size) {
        assert reserves[i + 1] == rest[i];
      }
      if i :| 0 <= i < |reserves| && p in RangePages(reserves[i].base, reserves[i].size) {
        assert i > 0 ==> rest[i - 1] == reserves[i];
      }
    }
  }

  lemma AddReserveKeeps(s: State, base: int, size: nat)
    requires Valid(s) && Aligned(base) && size > 0 && RangePages(base, size) !! Taken(s)
    ensures Valid(AddReserve(s, base, size))
  {
    hide RangePages;
    var s' := AddReserve(s, base, size);
    forall p | p in ReservedPages(s'.reserves) ensures p !in s'.pages {
      ReservedMember(s'.reserves, p);
      ReservedMember(s.reserves, p);
      var i :| 0 <= i < |s'.reserves| && p in RangePages(s'.reserves[i].base, s'.reserves[i].size);
      assert i < |s.reserves| ==> s'.reserves[i] == s.reserves[i];
    }
    forall i | 0 <= i < |s.reserves|
      ensures RangePages(s.reserves[i].base, s.reserves[i].size) !! RangePages(base, size)
    {
      forall p | p in RangePages(s.reserves[i].base, s.reserves[i].size) ensures p !in RangePages(base, size) {
        ReservedMember(s.reserves, p);
      }
    }
    assert ReservesOk(s');
    assert PagesMatch(s') && SharedOk(s');
  }

  lemma TakeReserveKeeps(s: State, i: nat)
    requires Valid(s) && i < |s.reserves|
    ensures Valid(TakeReserve(s, i))
    ensures RangePages(s.reserves[i].base, s.reserves[i].size) !! Taken(TakeReserve(s, i))
  {
    hide RangePages;
    var s', r := TakeReserve(s, i), s.reserves[i];
    assert forall j :: 0 <= j < |s'.reserves| ==> s'.reserves[j] == s.reserves[if j < i then j else j + 1];
    forall p | p in ReservedPages(s'.reserves)
      ensures p in ReservedPages(s.reserves) && p !in RangePages(r.base, r.size)
    {
      ReservedMember(s'.reserves, p);
      ReservedMember(s.reserves, p);
    }
    forall p | p in RangePages(r.base, r.size) ensures p !in s.pages {
      ReservedMember(s.reserves, p);
    }
    hide MapsOk, PagesMatch, SharedOk, ReservedPages;
    assert ReservesOk(s');
    SamePages(s, s');
  }

  lemma SamePages(s: State, s': State)
    requires PagesMatch(s) && SharedOk(s) && s' == s.(reserves := s'.reserves)
    ensures PagesMatch(s') && SharedOk(s')
  {
  }

  lemma {:induction false} WithoutReserveTakes(reserves: seq<Reserve>, base: int)
    requires forall i, j :: 0 <= i < j < |reserves| ==> reserves[i].base != reserves[j].base
    ensures var i := ReserveIndex(reserves, base);
            WithoutReserve(reserves, base) == if i < |reserves| then reserves[..i] + reserves[i + 1..] else reserves
  {
    if reserves != [] {
      WithoutReserveTakes(reserves[1..], base);
      assert forall j ::
        1 <= j < |reserves| ==> reserves[0].base != reserves[j].base && reserves[1..][j - 1] == reserves[j];
    }
  }

  lemma ReserveBasesDistinct(s: State)
    requires Valid(s)
    ensures forall i, j :: 0 <= i < j < |s.reserves| ==> s.reserves[i].base != s.reserves[j].base
  {
    forall i, j | 0 <= i < j < |s.reserves| ensures s.reserves[i].base != s.reserves[j].base {
      var a, b := s.reserves[i], s.reserves[j];
      assert a.base in RangePages(a.base, a.size) && b.base in RangePages(b.base, b.size);
    }
  }

  lemma TakenAligned(s: State)
    requires Valid(s)
    ensures AllAligned(Taken(s))
  {
    hide MapsOk, PagesMatch, SharedOk, RangePages, Aligned;
    forall p | p in ReservedPages(s.reserves) ensures Aligned(p) {
      ReservedMember(s.reserves, p);
      var i :| 0 <= i < |s.reserves| && p in RangePages(s.reserves[i].base, s.reserves[i].size);
      PageAligned(s.reserves[i].base, s.reserves[i].size, p);
    }
    PagesAligned(s);
  }

  lemma PageAligned(base: int, size: nat, p: int)
    requires Aligned(base) && p in RangePages(base, size)
    ensures Aligned(p)
  {
    AlignedSum(base, p);
  }

  lemma PagesAligned(s: State)
    requires PagesMatch(s)
    ensures AllAligned(s.pages)
  {
  }

  lemma AlignedSum(base: int, p: int)
    requires Aligned(base)
    ensures Aligned(p - base) <==> Aligned(p)
  {
  }

  // The whole pages of a range start inside it.
  lemma LastPage(base: int, size: nat, p: int)
    requires Aligned(base) && size > 0 && Aligned(p) && base <= p < base + RoundUp(size)
    ensures p in RangePages(base, size)
  {
    AlignedSum(base, p);
  }

  // The range of a reservation is free once the reservation is taken back.
  lemma ReserveIsFree(s: State, i: nat)
    requires Valid(s) && i < |s.reserves|
    ensures IsFree(TakeReserve(s, i), s.reserves[i].base, RoundUp(s.reserves[i].size))
  {
    var r, s' := s.reserves[i], TakeReserve(s, i);
    TakeReserveKeeps(s, i);
    TakenAligned(s');
    hide TakeReserve, Taken, RangePages, RoundUp, MapsOk, PagesMatch, SharedOk, Aligned;
    forall p | p in Taken(s') ensures !(r.base <= p < r.base + RoundUp(r.size)) {
      if r.base <= p < r.base + RoundUp(r.size) {
        LastPage(r.base, r.size, p);
      }
    }
  }

  // So it is the first fit for its own address.
  lemma MapReserveExact(s: State, i: nat, base: int)
    requires Valid(s) && i < |s.reserves|
    requires FirstFit(Taken(TakeReserve(s, i)), PageOf(s.reserves[i].base), RoundUp(s.reserves[i].size), base)
    ensures base == s.reserves[i].base
  {
    hide TakeReserve, Taken, RoundUp, MapsOk, PagesMatch, SharedOk, FirstFit;
    ReserveIsFree(s, i);
    FreeIsFirst(Taken(TakeReserve(s, i)), s.reserves[i].base, RoundUp(s.reserves[i].size), base);
  }

  // -- Runs

  datatype Op =
    | MapPages(base: int, total: nat)
    | MapShared(size: nat)
    | MapNewShared(base: int, size: nat)
    | FreeAt(address: int, keep: bool)
    | ReserveRange(base: int, size: nat)
    | Unreserve(base: int)
    | MapReserved(index: nat)
    | AllocateFrom(base: int)

  // A reservation of an explicit range is page aligned and free; the ranges of mappings come from the search.
  ghost predicate Enabled(s: State, op: Op) {
    match op
    case MapPages(base, total) => IsFree(s, base, total) && total >= PAGE
    case MapShared(size) => size > 0 && RoomInBlock(s, size)
    case MapNewShared(base, size) => 0 < size <= PAGE && IsFree(s, base, PAGE)
    case FreeAt(_, _) => true
    case ReserveRange(base, size) => Aligned(base) && size > 0 && RangePages(base, size) !! Taken(s)
    case Unreserve(_) => true
    case MapReserved(i) => i < |s.reserves|
    case AllocateFrom(_) => true
  }

  ghost function Apply(s: State, op: Op): State
    requires Enabled(s, op)
  {
    match op
    case MapPages(base, total) => AddPages(s, base, total)
    case MapShared(size) => AddShared(s, size)
    case MapNewShared(base, size) => AddShared(OpenBlock(s, base), size)
    case FreeAt(address, keep) => Free(s, address, keep)
    case ReserveRange(base, size) => AddReserve(s, base, size)
    case Unreserve(base) => s.(reserves := WithoutReserve(s.reserves, base))
    case MapReserved(i) => AddPages(TakeReserve(s, i), s.reserves[i].base, RoundUp(s.reserves[i].size))
    case AllocateFrom(base) => s.(allocBase := base, blockBase := 0, blockOffset := 0)
  }

  lemma StepKeeps(s: State, op: Op)
    requires Valid(s) && Enabled(s, op)
    ensures Valid(Apply(s, op))
  {
    hide AddPages, AddShared, OpenBlock, Free, MapsOk, RangePages, Taken;
    match op
    case MapPages(base, total) => AddPagesKeeps(s, base, total);
    case MapShared(size) => AddSharedKeeps(s, size);
    case MapNewShared(base, size) => NewSharedKeeps(s, base, size);
    case FreeAt(address, keep) => FreeKeeps(s, address, keep);
    case ReserveRange(base, size) => AddReserveKeeps(s, base, size);
    case Unreserve(base) => UnreserveKeeps(s, base);
    case MapReserved(i) =>
      TakeReserveKeeps(s, i);
      ReserveIsFree(s, i);
      AddPagesKeeps(TakeReserve(s, i), s.reserves[i].base, RoundUp(s.reserves[i].size));
    case AllocateFrom(_) =>
  }

  lemma UnreserveKeeps(s: State, base: int)
    requires Valid(s)
    ensures Valid(s.(reserves := WithoutReserve(s.reserves, base)))
  {
    hide Valid;
    ReserveBasesDistinct(s);
    WithoutReserveTakes(s.reserves, base);
    var i := ReserveIndex(s.reserves, base);
    if i < |s.reserves| {
      TakeReserveKeeps(s, i);
    }
  }

  ghost predicate EnabledAll(s: State, ops: seq<Op>)
    decreases |ops|
  {
    ops == [] || (Enabled(s, ops[0]) && EnabledAll(Apply(s, ops[0]), ops[1..]))
  }

  ghost function ApplyAll(s: State, ops: seq<Op>): State
    requires EnabledAll(s, ops)
    decreases |ops|
  {
    if ops == [] then s else ApplyAll(Apply(s, ops[0]), ops[1..])
  }

  const INITIAL: State := State([], [], {}, 0, 0, 0, ALLOCATION_GRANULARITY)

  lemma {:induction false} RunKeeps(s: State, ops: seq<Op>)
    requires Valid(s) && EnabledAll(s, ops)
    ensures Valid(ApplyAll(s, ops))
    decreases |ops|
  {
    hide Valid, Enabled, Apply;
    if ops != [] {
      StepKeeps(s, ops[0]);
      RunKeeps(Apply(s, ops[0]), ops[1..]);
    }
  }

  // After every run from an empty memory: allocations do not overlap, the engine has exactly the pages of the listed
  // blocks, and the current shared block is mapped.
  lemma EveryRun(ops: seq<Op>)
    requires EnabledAll(INITIAL, ops)
    ensures var s := ApplyAll(INITIAL, ops);
            && (forall i, j ::
                  0 <= i < j < |s.maps| ==> Apart(s.maps[i].base, s.maps[i].size, s.maps[j].base, s.maps[j].size))
            && (forall p :: Aligned(p) ==> (p in s.pages <==> exists i :: 0 <= i < |s.maps| && InBlock(s.maps[i], p)))
            && (s.blockBase != 0 ==> s.blockBase in s.pages)
            && s.pages !! ReservedPages(s.reserves)
  {
    RunKeeps(INITIAL, ops);
    hide MapOk, BlocksAgree, Apart;
  }

  // -- The manager

  datatype MemoryError = OutOfMemory

  class MemoryManager {
    const keepOnFree: bool
    const limit: Option<int>
    var maps: seq<MemMap>
    var reserves: seq<Reserve>
    var pages: set<int>
    var blockBase: int
    var blockSize: nat
    var blockOffset: nat
    var allocBase: int

    function Value(): State
      reads this
    {
      State(maps, reserves, pages, blockBase, blockSize, blockOffset, allocBase)
    }

    constructor (keepOnFree: bool, limit: Option<int>)
      ensures Value() == INITIAL && Valid(Value())
      ensures this.keepOnFree == keepOnFree && this.limit == limit
    {
      this.keepOnFree, this.limit := keepOnFree, limit;
      maps, reserves, pages, blockBase, blockSize, blockOffset := [], [], {}, 0, 0, 0;
      allocBase := ALLOCATION_GRANULARITY;
    }

    // A range that starts below the limit and ends above it
    predicate Crosses(addr: int, end: int) {
      limit.Some? && addr < limit.value < end
    }

    // The range is the first that is free, and an error means that it would cross the limit.
    method GetValidRanges(size: nat, addr: int) returns (base: int, total: nat, r: Result<(), MemoryError>)
      requires Valid(Value())
      ensures total == RoundUp(size) && FirstFit(Taken(Value()), PageOf(addr), total, base)
      ensures r.Err? <==> Crosses(addr, base + total)
    {
      total := RoundUp(size);
      TakenAligned(Value());
      base := FindFit(pages + ReservedPages(reserves), PageOf(addr), total);
      r := if Crosses(addr, base + total) then Err(OutOfMemory) else Ok(());
    }

    // fit is the first fit for the pages of the allocation, or for the page of a new shared block.
    method MapMemory(size: nat, base: Option<int>) returns (r: Result<int, MemoryError>, ghost fit: int)
      requires Valid(Value())
      modifies this
      ensures Valid(Value())
      ensures var (s, start) := (old(Value()), if base.Some? then base.value else old(allocBase));
              r.Err? ==>
                Value() == s && FirstFit(Taken(s), PageOf(start), RoundUp(size), fit)
                && Crosses(start, fit + RoundUp(size))
      ensures r.Ok? && !(base.None? && 0 < size < PAGE) ==>
                !Crosses(if base.Some? then base.value else old(allocBase), r.value + RoundUp(size))
      ensures r.Ok? && base.None? && 0 < size < PAGE ==>
                var (s, n) := (old(Value()), Padded(size));
                if RoomInBlock(s, n) then r.value == s.blockBase + s.blockOffset && Value() == AddShared(s, n)
                else
                  FirstFit(Taken(s), PageOf(s.allocBase), PAGE, r.value)
                  && Value() == AddShared(OpenBlock(s, r.value), n)
      ensures r.Ok? && !(base.None? && 0 < size < PAGE) ==>
                var s := old(Value());
                && FirstFit(Taken(s), PageOf(if base.Some? then base.value else s.allocBase), RoundUp(size), r.value)
                && Value() == AddPages(s, r.value, RoundUp(size))
    {
      hide Valid, FirstFit, Taken, RangePages;
      ghost var s := Value();
      if base.None? && size < PAGE && size % PAGE != 0 {
        var addr, padded := blockBase + blockOffset, Padded(size);
        PaddedFits(size);
        if blockBase == 0 || addr + padded > blockBase + PAGE {
          var block, total, ok := GetValidRanges(PAGE, allocBase);
          if ok.Err? {
            return Err(OutOfMemory), block;
          }
          FitIsFree(s, PageOf(allocBase), PAGE, block);
          NewSharedKeeps(s, block, padded);
          blockBase, blockSize := block, total;
          pages := pages + {block};
          blockOffset := 0;
          addr := blockBase + blockOffset;
        } else {
          AddSharedKeeps(s, padded);
        }
        maps := maps + [MemMap(addr, padded, false, blockBase, blockSize)];
        blockOffset := blockOffset + padded;
        return Ok(addr), addr;
      }
      var start := if base.Some? then base.value else allocBase;
      var block, total, ok := GetValidRanges(size, start);
      if ok.Err? {
        return Err(OutOfMemory), block;
      }
      FitIsFree(s, PageOf(start), total, block);
      AddPagesKeeps(s, block, total);
      var mapSize := blockSize;
      if total > mapSize {
        mapSize := total;
      }
      pages := pages + RangePages(block, total);
      maps := maps + [MemMap(block, total, false, block, mapSize)];
      return Ok(block), block;
    }

    method FreeMemory(address: int)
      requires Valid(Value())
      modifies this
      ensures Valid(Value()) && Value() == Free(old(Value()), address, keepOnFree)
    {
      FreeKeeps(Value(), address, keepOnFree);
      hide Valid, RangePages;
      var i := IndexAt(maps, address);
      if i < |maps| {
        var mm := maps[i];
        maps := maps[i := mm.(free := true)];
        if keepOnFree || !AllFree(maps, mm.blockBase) {
          return;
        }
        blockBase := 0;
        pages := pages - RangePages(mm.blockBase, mm.blockSize);
        maps := WithoutBlock(maps, mm.blockBase);
      }
    }

    // Reserve a range without mapping it. An explicit range is recorded as it is; the invariant stays if it is page
    // aligned and free.
    method ReserveMemory(size: nat, base: Option<int>) returns (r: Result<int, MemoryError>)
      requires Valid(Value())
      modifies this`reserves
      ensures base.None? || (Aligned(base.value) && size > 0 && RangePages(base.value, size) !! Taken(old(Value()))) ==>
                Valid(Value())
      ensures r.Err? ==> Value() == old(Value())
      ensures r.Ok? ==> Value() == AddReserve(old(Value()), r.value, if base.Some? then size else RoundUp(size))
      ensures r.Ok? && base.None? ==> FirstFit(Taken(old(Value())), PageOf(allocBase), RoundUp(size), r.value)
      ensures base.Some? ==> r == Ok(base.value)
    {
      hide Valid, FirstFit, Taken, RangePages;
      if base.Some? {
        if Aligned(base.value) && size > 0 && RangePages(base.value, size) !! Taken(Value()) {
          AddReserveKeeps(Value(), base.value, size);
        }
        reserves := reserves + [Reserve(base.value, size)];
        return Ok(base.value);
      }
      var block, total, ok := GetValidRanges(size, allocBase);
      if ok.Err? {
        return Err(OutOfMemory);
      }
      FitIsFree(Value(), PageOf(allocBase), total, block);
      FreeRangePages(Value(), block, total);
      AddReserveKeeps(Value(), block, total);
      reserves := reserves + [Reserve(block, total)];
      return Ok(block);
    }

    method UnreserveMemory(base: int)
      requires Valid(Value())
      modifies this`reserves
      ensures Valid(Value()) && Value() == Apply(old(Value()), Unreserve(base))
    {
      UnreserveKeeps(Value(), base);
      hide Valid;
      reserves := WithoutReserve(reserves, base);
    }

    // Enter or leave a block of allocations from another base.
    method AllocationsFrom(base: int) returns (previous: int)
      requires Valid(Value())
      modifies this`allocBase, this`blockBase, this`blockOffset
      ensures Valid(Value()) && Value() == Apply(old(Value()), AllocateFrom(base)) && previous == old(allocBase)
    {
      StepKeeps(Value(), AllocateFrom(base));
      hide Valid;
      previous := allocBase;
      allocBase, blockBase, blockOffset := base, 0, 0;
    }

    // Map a reserved range: exactly that range, if it does not cross the limit.
    method MapReserve(base: int) returns (r: Option<Result<int, MemoryError>>)
      requires Valid(Value())
      modifies this
      ensures Valid(Value())
      ensures var (s, i) := (old(Value()), ReserveIndex(old(reserves), base));
              if i == |s.reserves| then r == None && Value() == s
              else if Crosses(base, base + RoundUp(s.reserves[i].size)) then
                r == Some(Err(OutOfMemory)) && Value() == TakeReserve(s, i)
              else r == Some(Ok(base)) && Value() == Apply(s, MapReserved(i))
    {
      hide Valid, FirstFit, Taken, RangePages, RoomInBlock;
      var i := ReserveIndex(reserves, base);
      if i == |reserves| {
        return None;
      }
      ghost var s := Value();
      var reserve := reserves[i];
      TakeReserveKeeps(s, i);
      reserves := reserves[..i] + reserves[i + 1..];
      var mapped, fit := MapMemory(reserve.size, Some(reserve.base));
      MapReserveExact(s, i, if mapped.Ok? then mapped.value else fit);
      assert mapped.Err? ==> mapped.error.OutOfMemory?;
      return Some(mapped);
    }
  }

  lemma PaddedFits(size: nat)
    requires size < PAGE
    ensures Padded(size) <= PAGE
  {
  }

  lemma FitIsFree(s: State, start: int, total: nat, base: int)
    requires FirstFit(Taken(s), start, total, base) && Aligned(total) && total > 0
    ensures IsFree(s, base, total)
  {
  }

  lemma FreeRangePages(s: State, base: int, total: nat)
    requires IsFree(s, base, total)
    ensures RangePages(base, total) !! Taken(s)
  {
  }
}
