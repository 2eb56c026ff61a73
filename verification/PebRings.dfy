// speakeasy/windows/objman.py: the three loader lists of a process, linked into rings in guest memory.

module PebRings {
  import opened Options
  import opened Bytes

  datatype Link = Link(flink: nat, blink: nat)

  // A loader entry: its address, the base of its module, whether the module is an executable, and its three links
  datatype Entry = Entry(address: nat, base: nat, exe: bool, links: seq<Link>)

  // The pointer size, the address of PEB_LDR_DATA, and the base of the main module
  datatype Config = Config(ptr: nat, ldr: nat, mainBase: nat) {
    // Where list k has its links in an entry: load order, memory order, initialization order
    function Offset(k: nat): nat {
      if k == 0 then 0 else if k == 1 then 2 * ptr else 4 * ptr
    }

    function Heads(): nat {
      ldr + 8 + ptr
    }

    function Head(k: nat): nat {
      Heads() + Offset(k)
    }

    function Node(e: Entry, k: nat): nat {
      e.address + Offset(k)
    }

    // The main executable is not in the initialization order list.
    predicate Listed(e: Entry, k: nat) {
      !(k == 2 && e.base == mainBase && e.exe)
    }
  }

  // The nodes of list k, in load order
  function Nodes(c: Config, entries: seq<Entry>, k: nat): seq<nat> {
    if entries == [] then []
    else
      var n := |entries| - 1;
      Nodes(c, entries[..n], k) + if c.Listed(entries[n], k) then [c.Node(entries[n], k)] else []
  }

  function Rank(c: Config, entries: seq<Entry>, k: nat, i: nat): nat
    requires i <= |entries|
  {
    |Nodes(c, entries[..i], k)|
  }

  function RingLink(c: Config, k: nat, nodes: seq<nat>, r: nat): Link
    requires r < |nodes|
  {
    Link(if r + 1 < |nodes| then nodes[r + 1] else c.Head(k), if r > 0 then nodes[r - 1] else c.Head(k))
  }

  function HeadLink(c: Config, k: nat, nodes: seq<nat>): Link {
    if nodes == [] then Link(c.Head(k), c.Head(k)) else Link(nodes[0], nodes[|nodes| - 1])
  }

  lemma {:induction false} NodeRank(c: Config, entries: seq<Entry>, k: nat, i: nat)
    requires i < |entries| && c.Listed(entries[i], k)
    ensures var r := Rank(c, entries, k, i);
            r < |Nodes(c, entries, k)| && Nodes(c, entries, k)[r] == c.Node(entries[i], k)
  {
    var n := |entries| - 1;
    if i < n {
      NodeRank(c, entries[..n], k, i);
      assert entries[..n][..i] == entries[..i];
    }
  }

  // The entry that a node of the list belongs to
  lemma {:induction false} NodeOwner(c: Config, entries: seq<Entry>, k: nat, r: nat) returns (i: nat)
    requires r < |Nodes(c, entries, k)|
    ensures i < |entries| && c.Listed(entries[i], k) && Rank(c, entries, k, i) == r
    ensures Nodes(c, entries, k)[r] == c.Node(entries[i], k)
  {
    var n := |entries| - 1;
    if r < |Nodes(c, entries[..n], k)| {
      i := NodeOwner(c, entries[..n], k, r);
      assert entries[..n][..i] == entries[..i];
    } else {
      i := n;
    }
  }

  // The link that an entry gets in list k
  function LinkFor(c: Config, entries: seq<Entry>, k: nat, i: nat): Link
    requires i < |entries|
  {
    if c.Listed(entries[i], k) then
      NodeRank(c, entries, k, i);
      RingLink(c, k, Nodes(c, entries, k), Rank(c, entries, k, i))
    else Link(c.Node(entries[i], k), c.Node(entries[i], k))
  }

  function LinksFor(c: Config, entries: seq<Entry>, i: nat): (links: seq<Link>)
    requires i < |entries|
    ensures |links| == 3
  {
    [LinkFor(c, entries, 0, i), LinkFor(c, entries, 1, i), LinkFor(c, entries, 2, i)]
  }

  function HeadLinks(c: Config, entries: seq<Entry>): seq<Link> {
    [HeadLink(c, 0, Nodes(c, entries, 0)), HeadLink(c, 1, Nodes(c, entries, 1)), HeadLink(c, 2, Nodes(c, entries, 2))]
  }

  // --- Guest memory ---

  function LinkWords(links: seq<Link>): (ws: seq<nat>)
    requires |links| == 3
    ensures |ws| == 6
  {
    [links[0].flink, links[0].blink, links[1].flink, links[1].blink, links[2].flink, links[2].blink]
  }

  function ReadPtr(c: Config, m: Memory, a: nat): Option<nat> {
    ReadLE(m, a, c.ptr)
  }

  ghost predicate ThreeLinks(entries: seq<Entry>) {
    forall i :: 0 <= i < |entries| ==> |entries[i].links| == 3
  }

  lemma LinksAt(entries: seq<Entry>, i: nat)
    requires i < |entries| && ThreeLinks(entries)
    ensures |entries[i].links| == 3
  {
  }

  // The links of the first n entries, written back
  ghost function WriteEntries(c: Config, m: Memory, entries: seq<Entry>, n: nat): Memory
    requires n <= |entries| && ThreeLinks(entries)
  {
    if n == 0 then m
    else
      LinksAt(entries, n - 1);
      Write(WriteEntries(c, m, entries, n - 1), entries[n - 1].address, Words(LinkWords(entries[n - 1].links), c.ptr))
  }

  lemma WriteNone(c: Config, m: Memory, entries: seq<Entry>)
    requires ThreeLinks(entries)
    ensures WriteEntries(c, m, entries, 0) == m
  {
  }

  lemma WriteNext(c: Config, m: Memory, entries: seq<Entry>, n: nat)
    requires n < |entries| && ThreeLinks(entries)
    ensures |entries[n].links| == 3
    ensures WriteEntries(c, m, entries, n + 1)
         == Write(WriteEntries(c, m, entries, n), entries[n].address, Words(LinkWords(entries[n].links), c.ptr))
  {
    hide Write, Words, LinkWords;
  }

  predicate Apart(c: Config, a: nat, b: nat) {
    a + 6 * c.ptr <= b || b + 6 * c.ptr <= a
  }

  // Entries and list heads do not overlap, and every address fits a pointer.
  ghost predicate Laid(c: Config, entries: seq<Entry>) {
    && (c.ptr == 4 || c.ptr == 8) && c.Heads() + 6 * c.ptr <= Pow256(c.ptr) && ThreeLinks(entries)
    && (forall i :: 0 <= i < |entries| ==>
          entries[i].address + 6 * c.ptr <= Pow256(c.ptr)
          && Apart(c, entries[i].address, c.Heads()))
    && (forall i, j :: 0 <= i < j < |entries| ==> Apart(c, entries[i].address, entries[j].address))
  }

  // Every entry, and PEB_LDR_DATA, has its links in memory.
  ghost predicate LinksHeld(c: Config, m: Memory, entries: seq<Entry>) {
    && Holds(m, c.Heads(), Words(LinkWords(HeadLinks(c, entries)), c.ptr))
    && forall i :: 0 <= i < |entries| ==> EntryHeld(c, m, entries, i)
  }

  ghost predicate EntryHeld(c: Config, m: Memory, entries: seq<Entry>, i: nat)
    requires i < |entries|
  {
    Holds(m, entries[i].address, Words(LinkWords(LinksFor(c, entries, i)), c.ptr))
  }

  lemma WriteKeeps(m: Memory, a: nat, data: seq<byte>, b: nat, other: seq<byte>)
    requires Holds(m, a, data) && (a + |data| <= b || b + |other| <= a)
    ensures Holds(Write(m, b, other), a, data)
  {
  }

  lemma {:induction false} WrittenEntries(c: Config, m: Memory, entries: seq<Entry>, n: nat, i: nat)
    requires Laid(c, entries) && i < n <= |entries|
    ensures Holds(WriteEntries(c, m, entries, n), entries[i].address, Words(LinkWords(entries[i].links), c.ptr))
  {
    WordsLength(LinkWords(entries[i].links), c.ptr);
    WordsLength(LinkWords(entries[n - 1].links), c.ptr);
    if i < n - 1 {
      assert Apart(c, entries[i].address, entries[n - 1].address);
      hide Laid, Words, Write, LinkWords, Holds;
      WrittenEntries(c, m, entries, n - 1, i);
      WriteKeeps(WriteEntries(c, m, entries, n - 1), entries[i].address, Words(LinkWords(entries[i].links), c.ptr),
                 entries[n - 1].address, Words(LinkWords(entries[n - 1].links), c.ptr));
    }
  }

  // --- Rings ---

  // The nodes of a ring: the list head, then the entries
  function Cycle(c: Config, k: nat, nodes: seq<nat>): seq<nat> {
    [c.Head(k)] + nodes
  }

  function Next(n: nat, i: nat): nat {
    if i + 1 == n then 0 else i + 1
  }

  // Flink leads from each node to the next one and at last to the head, Blink leads back, and no node is there twice.
  ghost predicate Ring(c: Config, m: Memory, k: nat, nodes: seq<nat>) {
    var cycle := Cycle(c, k, nodes);
    && (forall i :: 0 <= i < |cycle| ==> RingAt(c, m, cycle, i))
    && (forall i, j :: 0 <= i < j < |cycle| ==> cycle[i] != cycle[j])
  }

  lemma LinkHeld(c: Config, m: Memory, a: nat, links: seq<Link>, k: nat)
    requires (c.ptr == 4 || c.ptr == 8) && |links| == 3 && k < 3 && Holds(m, a, Words(LinkWords(links), c.ptr))
    requires links[k].flink < Pow256(c.ptr) && links[k].blink < Pow256(c.ptr)
    ensures ReadPtr(c, m, a + c.Offset(k)) == Some(links[k].flink)
    ensures ReadPtr(c, m, a + c.Offset(k) + c.ptr) == Some(links[k].blink)
  {
    hide Words, Holds, ReadLE, Pow256;
    var ws := LinkWords(links);
    WordHeld(m, a, ws, c.ptr, 2 * k);
    WordHeld(m, a, ws, c.ptr, 2 * k + 1);
  }

  lemma {:induction false} NodeSmall(c: Config, entries: seq<Entry>, k: nat, r: nat)
    requires Laid(c, entries) && k < 3 && r < |Nodes(c, entries, k)|
    ensures Nodes(c, entries, k)[r] < Pow256(c.ptr) && Nodes(c, entries, k)[r] != c.Head(k)
    ensures forall q :: r < q < |Nodes(c, entries, k)| ==> Nodes(c, entries, k)[q] != Nodes(c, entries, k)[r]
  {
    var i := NodeOwner(c, entries, k, r);
    hide Pow256, Nodes;
    forall q | r < q < |Nodes(c, entries, k)| ensures Nodes(c, entries, k)[q] != Nodes(c, entries, k)[r] {
      var j := NodeOwner(c, entries, k, q);
      assert i != j;
      assert i < j ==> Apart(c, entries[i].address, entries[j].address);
      assert j < i ==> Apart(c, entries[j].address, entries[i].address);
    }
  }

  lemma RingLinkSmall(c: Config, entries: seq<Entry>, k: nat, r: nat)
    requires Laid(c, entries) && k < 3 && r < |Nodes(c, entries, k)|
    ensures var link := RingLink(c, k, Nodes(c, entries, k), r);
            link.flink < Pow256(c.ptr) && link.blink < Pow256(c.ptr)
  {
    var nodes := Nodes(c, entries, k);
    hide Pow256, Nodes;
    if r + 1 < |nodes| {
      NodeSmall(c, entries, k, r + 1);
    }
    if r > 0 {
      NodeSmall(c, entries, k, r - 1);
    }
  }

  lemma NodeEntry(c: Config, entries: seq<Entry>, k: nat, r: nat) returns (i: nat)
    requires k < 3 && r < |Nodes(c, entries, k)|
    ensures i < |entries| && Nodes(c, entries, k)[r] == entries[i].address + c.Offset(k)
    ensures LinksFor(c, entries, i)[k] == RingLink(c, k, Nodes(c, entries, k), r)
  {
    i := NodeOwner(c, entries, k, r);
    hide Nodes, RingLink, Rank;
  }

  // What the links of node r of list k are in memory
  lemma NodeLinks(c: Config, m: Memory, entries: seq<Entry>, k: nat, r: nat)
    requires Laid(c, entries) && LinksHeld(c, m, entries) && k < 3 && r < |Nodes(c, entries, k)|
    ensures var nodes := Nodes(c, entries, k);
            && ReadPtr(c, m, nodes[r]) == Some(RingLink(c, k, nodes, r).flink)
            && ReadPtr(c, m, nodes[r] + c.ptr) == Some(RingLink(c, k, nodes, r).blink)
  {
    hide Words, Holds, ReadLE, Pow256, Nodes, LinkWords, Rank, RingLink, LinksFor, HeadLinks;
    var i := NodeEntry(c, entries, k, r);
    RingLinkSmall(c, entries, k, r);
    assert EntryHeld(c, m, entries, i);
    LinkHeld(c, m, entries[i].address, LinksFor(c, entries, i), k);
  }

  lemma HeadLinksRead(c: Config, m: Memory, entries: seq<Entry>, k: nat)
    requires Laid(c, entries) && LinksHeld(c, m, entries) && k < 3
    ensures var link := HeadLink(c, k, Nodes(c, entries, k));
            ReadPtr(c, m, c.Head(k)) == Some(link.flink) && ReadPtr(c, m, c.Head(k) + c.ptr) == Some(link.blink)
  {
    hide Words, Holds, ReadLE, Pow256, Nodes, LinkWords, LinksFor, EntryHeld;
    var nodes := Nodes(c, entries, k);
    if nodes != [] {
      NodeSmall(c, entries, k, 0);
      NodeSmall(c, entries, k, |nodes| - 1);
    }
    LinkHeld(c, m, c.Heads(), HeadLinks(c, entries), k);
  }

  // The links at place i of the ring
  ghost predicate RingAt(c: Config, m: Memory, cycle: seq<nat>, i: nat)
    requires i < |cycle|
  {
    && ReadPtr(c, m, cycle[i]) == Some(cycle[Next(|cycle|, i)])
    && ReadPtr(c, m, cycle[Next(|cycle|, i)] + c.ptr) == Some(cycle[i])
  }

  lemma RingAtHolds(c: Config, m: Memory, entries: seq<Entry>, k: nat, i: nat)
    requires Laid(c, entries) && LinksHeld(c, m, entries) && k < 3 && i <= |Nodes(c, entries, k)|
    ensures RingAt(c, m, Cycle(c, k, Nodes(c, entries, k)), i)
  {
    var nodes := Nodes(c, entries, k);
    hide Laid, LinksHeld, Nodes, ReadPtr;
    HeadLinksRead(c, m, entries, k);
    if i > 0 {
      NodeLinks(c, m, entries, k, i - 1);
    }
    if i < |nodes| {
      NodeLinks(c, m, entries, k, i);
    }
  }

  lemma RingHolds(c: Config, m: Memory, entries: seq<Entry>, k: nat)
    requires Laid(c, entries) && LinksHeld(c, m, entries) && k < 3
    ensures Ring(c, m, k, Nodes(c, entries, k))
  {
    hide Laid, LinksHeld, Nodes, RingAt;
    var cycle := Cycle(c, k, Nodes(c, entries, k));
    forall i | 0 <= i < |cycle| ensures RingAt(c, m, cycle, i) {
      RingAtHolds(c, m, entries, k, i);
    }
    forall i, j | 0 <= i < j < |cycle| ensures cycle[i] != cycle[j] {
      NodeSmall(c, entries, k, if i > 0 then i - 1 else j - 1);
    }
  }

  // An executable that is the main module is linked to itself in initialization order.
  lemma {:induction false} MainIsAlone(c: Config, m: Memory, entries: seq<Entry>, i: nat)
    requires Laid(c, entries) && LinksHeld(c, m, entries) && i < |entries| && !c.Listed(entries[i], 2)
    ensures var node := c.Node(entries[i], 2);
            && ReadPtr(c, m, node) == Some(node) && ReadPtr(c, m, node + c.ptr) == Some(node)
            && node !in Nodes(c, entries, 2)
  {
    assert EntryHeld(c, m, entries, i);
    hide Words, Holds, ReadLE, Pow256, Nodes, LinkWords, HeadLinks;
    LinkHeld(c, m, entries[i].address, LinksFor(c, entries, i), 2);
    var nodes := Nodes(c, entries, 2);
    forall r: nat | r < |nodes| ensures nodes[r] != c.Node(entries[i], 2) {
      var j := NodeOwner(c, entries, 2, r);
      assert i < j ==> Apart(c, entries[i].address, entries[j].address);
      assert j < i ==> Apart(c, entries[j].address, entries[i].address);
    }
  }

  // Following Flink from a node: the nodes up to the head
  function Walk(c: Config, m: Memory, head: nat, at: nat, fuel: nat): Option<seq<nat>>
    decreases fuel
  {
    if at == head then Some([])
    else if fuel == 0 then None
    else
      var next :- ReadPtr(c, m, at);
      var rest :- Walk(c, m, head, next, fuel - 1);
      Some([at] + rest)
  }

  lemma {:induction false} WalkFrom(c: Config, m: Memory, k: nat, nodes: seq<nat>, r: nat, fuel: nat)
    requires Ring(c, m, k, nodes) && r <= |nodes| && fuel >= |nodes| - r
    ensures Walk(c, m, c.Head(k), if r < |nodes| then nodes[r] else c.Head(k), fuel) == Some(nodes[r..])
    decreases |nodes| - r
  {
    if r < |nodes| {
      var cycle := Cycle(c, k, nodes);
      assert cycle[r + 1] == nodes[r] && cycle[0] == c.Head(k);
      assert RingAt(c, m, cycle, r + 1);
      var next := if r + 1 < |nodes| then nodes[r + 1] else c.Head(k);
      assert cycle[Next(|cycle|, r + 1)] == next && cycle[0] != cycle[r + 1];
      assert ReadPtr(c, m, nodes[r]) == Some(next);
      hide ReadPtr, Ring;
      WalkFrom(c, m, k, nodes, r + 1, fuel - 1);
      assert Walk(c, m, c.Head(k), next, fuel - 1) == Some(nodes[r + 1..]);
      assert nodes[r..] == [nodes[r]] + nodes[r + 1..];
    } else {
      assert nodes[r..] == [];
    }
  }

  // A walk along Flink from the head visits the attached modules in load order once, and comes back to the head.
  lemma WalkVisitsAll(c: Config, m: Memory, entries: seq<Entry>, k: nat, fuel: nat)
    requires Laid(c, entries) && LinksHeld(c, m, entries) && k < 3 && fuel >= |entries|
    ensures ReadPtr(c, m, c.Head(k)).Some?
    ensures Walk(c, m, c.Head(k), ReadPtr(c, m, c.Head(k)).value, fuel) == Some(Nodes(c, entries, k))
  {
    var nodes := Nodes(c, entries, k);
    RingHolds(c, m, entries, k);
    NodeCount(c, entries, k);
    var cycle := Cycle(c, k, nodes);
    assert cycle[0] == c.Head(k) && (nodes != [] ==> cycle[1] == nodes[0]);
    assert RingAt(c, m, cycle, 0);
    hide Laid, LinksHeld, Nodes, ReadPtr, Ring, Walk;
    WalkFrom(c, m, k, nodes, 0, fuel);
    assert nodes[0..] == nodes;
  }

  lemma {:induction false} NodeCount(c: Config, entries: seq<Entry>, k: nat)
    ensures |Nodes(c, entries, k)| <= |entries|
    ensures k < 2 ==> |Nodes(c, entries, k)| == |entries|
  {
    if entries != [] {
      NodeCount(c, entries[..|entries| - 1], k);
    }
  }

  // --- The lists of a process ---

  // The same entries, with other links
  ghost predicate SameEntries(a: seq<Entry>, b: seq<Entry>) {
    |a| == |b| && forall i :: 0 <= i < |a| ==> b[i] == a[i].(links := b[i].links)
  }

  lemma {:induction false} NodesSame(c: Config, a: seq<Entry>, b: seq<Entry>, k: nat)
    requires SameEntries(a, b)
    ensures Nodes(c, a, k) == Nodes(c, b, k)
  {
    if a != [] {
      NodesSame(c, a[..|a| - 1], b[..|b| - 1], k);
    }
  }

  lemma LinkSame(c: Config, a: seq<Entry>, b: seq<Entry>, k: nat, i: nat)
    requires SameEntries(a, b) && i < |a|
    ensures LinkFor(c, a, k, i) == LinkFor(c, b, k, i)
  {
    NodesSame(c, a, b, k);
    NodesSame(c, a[..i], b[..i], k);
  }

  ghost predicate BasesOk(entries: seq<Entry>, bases: set<nat>) {
    && (forall i :: 0 <= i < |entries| ==> entries[i].base in bases)
    && (forall b :: b in bases ==> exists i :: 0 <= i < |entries| && entries[i].base == b)
    && (forall i, j :: 0 <= i < j < |entries| ==> entries[i].base != entries[j].base)
  }

  // The entries of the other modules
  function Without(entries: seq<Entry>, base: nat): seq<Entry> {
    if entries == [] then []
    else
      var n := |entries| - 1;
      Without(entries[..n], base) + if entries[n].base == base then [] else [entries[n]]
  }

  // Link k of an entry is set, and its other links are as they were.
  ghost predicate LinkSet(c: Config, before: seq<Entry>, after: seq<Entry>, k: nat, i: nat)
    requires |before| == |after| && i < |before|
  {
    |before[i].links| == 3 && k < 3
    && after[i] == before[i].(links := before[i].links[k := LinkFor(c, before, k, i)])
  }

  class Process {
    const c: Config
    var entries: seq<Entry>
    var bases: set<nat>
    var heads: seq<Link>
    var memory: Memory

    ghost predicate Valid()
      reads this
    {
      Laid(c, entries) && BasesOk(entries, bases) && |heads| == 3
    }

    // The three lists in memory are rings of the attached modules.
    ghost predicate Attached()
      reads this
    {
      LinksHeld(c, memory, entries)
    }

    constructor (config: Config, m: Memory)
      requires Laid(config, [])
      ensures Valid() && Attached() && entries == [] && c == config
    {
      c := config;
      entries, bases, memory := [], {}, m;
      heads := [Link(0, 0), Link(0, 0), Link(0, 0)];
      new;
      Sync();
    }

    // The nodes of list k and their entries. An entry that is not in the list is linked to itself.
    method Collect(k: nat) returns (nodes: seq<nat>, places: seq<nat>)
      requires k < 3 && ThreeLinks(entries)
      modifies this`entries
      ensures nodes == Nodes(c, old(entries), k) && PlacesOk(c, old(entries), k, places, |old(entries)|)
      ensures entries == SelfLinked(c, old(entries), k, |old(entries)|)
    {
      ghost var before := entries;
      assert before[..|before|] == before;
      NoPlaces(c, before, k);
      assert SelfLinked(c, before, k, 0) == before;
      hide Nodes, PlacesOk, ThreeLinks, SelfLinked;
      nodes, places := [], [];
      for i := 0 to |entries|
        invariant |entries| == |before| && nodes == Nodes(c, before[..i], k) && PlacesOk(c, before, k, places, i)
        invariant entries == SelfLinked(c, before, k, i)
      {
        SelfLinkedAt(c, before, k, i, i);
        SelfLinkedNext(c, before, k, i);
        NextPlace(c, before, k, places, i);
        var node := c.Node(entries[i], k);
        if c.Listed(entries[i], k) {
          nodes := nodes + [node];
          places := places + [i];
        } else {
          entries := entries[i := entries[i].(links := entries[i].links[k := Link(node, node)])];
        }
      }
    }

    // Link the nodes of list k to each other.
    method LinkNodes(k: nat, nodes: seq<nat>, places: seq<nat>)
      requires k < 3 && |places| == |nodes| && ThreeLinks(entries)
      requires forall r :: 0 <= r < |places| ==> places[r] < |entries|
      modifies this`entries
      ensures entries == RingLinked(c, k, nodes, places, old(entries), |nodes|)
    {
      hide RingLink, ThreeLinks;
      ghost var before := entries;
      for r := 0 to |nodes|
        invariant |entries| == |before| && entries == RingLinked(c, k, nodes, places, before, r) && ThreeLinks(entries)
      {
        var i := places[r];
        LinksAt(entries, i);
        entries := entries[i := entries[i].(links := entries[i].links[k := RingLink(c, k, nodes, r)])];
      }
    }

    // Link list k into a ring.
    method LinkList(k: nat)
      requires k < 3 && |heads| == 3 && ThreeLinks(entries)
      modifies this`entries, this`heads
      ensures AllSet(c, old(entries), entries, k) && ThreeLinks(entries)
      ensures heads == old(heads)[k := HeadLink(c, k, Nodes(c, old(entries), k))]
    {
      ghost var before := entries;
      var nodes, places := Collect(k);
      heads := heads[k := HeadLink(c, k, nodes)];
      SelfLinkedThree(c, before, k, |before|);
      PlacesBound(c, before, k, places);
      LinkNodes(k, nodes, places);
      AllSetBy(c, before, k, places);
    }

    // Link the entries of each list into a ring through the list head, and write everything back.
    method Sync()
      requires Laid(c, entries) && |heads| == 3
      modifies this`entries, this`heads, this`memory
      ensures Laid(c, entries) && |heads| == 3 && SameEntries(old(entries), entries) && Attached()
    {
      hide Laid, SameEntries, HeadLinks, Linked, LinksHeld;
      LinkAll();
      WriteBack();
    }

    method LinkAll()
      requires Laid(c, entries) && |heads| == 3
      modifies this`entries, this`heads
      ensures Laid(c, entries) && SameEntries(old(entries), entries) && heads == HeadLinks(c, entries)
      ensures |heads| == 3 && Linked(c, entries)
    {
      ghost var before := entries;
      assert ThreeLinks(entries);
      hide Laid, AllSet, Linked, Nodes, HeadLink, ThreeLinks;
      LinkList(0);
      ghost var first := entries;
      LinkList(1);
      ghost var second := entries;
      LinkList(2);
      AllLinked(c, before, first, second, entries);
      SyncedHeads(c, before, first, second, entries);
    }

    method WriteBack()
      requires Laid(c, entries) && heads == HeadLinks(c, entries) && Linked(c, entries)
      modifies this`memory
      ensures Attached()
    {
      assert ThreeLinks(entries);
      AllWritten(c, memory, entries);
      hide Words, Write, LinkWords, HeadLinks, Laid, Linked, LinksHeld, ThreeLinks, WriteEntries;
      WriteLinks();
      memory := Write(memory, c.Heads(), Words(LinkWords(heads), c.ptr));
    }

    method WriteLinks()
      requires ThreeLinks(entries)
      modifies this`memory
      ensures memory == WriteEntries(c, old(memory), entries, |entries|)
    {
      ghost var before := memory;
      WriteNone(c, before, entries);
      hide Words, Write, LinkWords, ThreeLinks, WriteEntries;
      for n := 0 to |entries|
        invariant memory == WriteEntries(c, before, entries, n)
      {
        LinksAt(entries, n);
        WriteNext(c, before, entries, n);
        memory := Write(memory, entries[n].address, Words(LinkWords(entries[n].links), c.ptr));
      }
    }

    method AddModule(base: nat, exe: bool, address: nat)
      requires Valid() && Attached()
      requires base !in bases ==> Laid(c, entries + [Entry(address, base, exe, [Link(0, 0), Link(0, 0), Link(0, 0)])])
      modifies this
      ensures Valid() && Attached() && bases == old(bases) + {base}
      ensures base in old(bases) ==> SameEntries(old(entries), entries)
      ensures base !in old(bases) ==>
                SameEntries(old(entries) + [Entry(address, base, exe, [Link(0, 0), Link(0, 0), Link(0, 0)])], entries)
    {
      if base in bases {
        Sync();
        return;
      }
      entries := entries + [Entry(address, base, exe, [Link(0, 0), Link(0, 0), Link(0, 0)])];
      bases := bases + {base};
      assert entries[|entries| - 1].base == base;
      ghost var added := entries;
      assert BasesOk(entries, bases) by {
        BasesAdded(old(entries), old(bases), added[|added| - 1]);
      }
      Sync();
      BasesSame(added, entries, bases);
    }

    method RemoveModule(base: nat)
      requires Valid() && Attached()
      modifies this
      ensures Valid() && Attached() && bases == old(bases) - {base}
      ensures SameEntries(Without(old(entries), base), entries)
    {
      if base !in bases {
        WithoutNothing(entries, base);
        return;
      }
      WithoutLaid(c, entries, base);
      BasesRemoved(entries, bases, base);
      entries := Without(entries, base);
      bases := bases - {base};
      ghost var kept := entries;
      Sync();
      BasesSame(kept, entries, bases);
    }
  }

  // places lists the entries of list k among the first n, in order.
  ghost predicate PlacesOk(c: Config, entries: seq<Entry>, k: nat, places: seq<nat>, n: nat) {
    && n <= |entries| && |places| == |Nodes(c, entries[..n], k)|
    && (forall r :: 0 <= r < |places| ==>
          places[r] < n && c.Listed(entries[places[r]], k) && Rank(c, entries, k, places[r]) == r)
    && (forall j :: 0 <= j < n && c.Listed(entries[j], k) ==>
          Rank(c, entries, k, j) < |places| && places[Rank(c, entries, k, j)] == j)
  }

  ghost predicate AllSet(c: Config, before: seq<Entry>, after: seq<Entry>, k: nat) {
    |before| == |after| && forall i :: 0 <= i < |before| ==> LinkSet(c, before, after, k, i)
  }

  // Every entry has the links of its places in the three rings.
  ghost predicate Linked(c: Config, entries: seq<Entry>) {
    forall i :: 0 <= i < |entries| ==> entries[i].links == LinksFor(c, entries, i)
  }

  // The first n entries that are not in list k, linked to themselves
  ghost function SelfLinked(c: Config, entries: seq<Entry>, k: nat, n: nat): (r: seq<Entry>)
    requires n <= |entries| && k < 3 && ThreeLinks(entries)
    ensures |r| == |entries|
  {
    if n == 0 then entries
    else
      var r := SelfLinked(c, entries, k, n - 1);
      if c.Listed(entries[n - 1], k) then r
      else
        LinksAt(entries, n - 1);
        var node := c.Node(entries[n - 1], k);
        r[n - 1 := entries[n - 1].(links := entries[n - 1].links[k := Link(node, node)])]
  }

  lemma {:induction false} SelfLinkedAt(c: Config, entries: seq<Entry>, k: nat, n: nat, j: nat)
    requires n <= |entries| && k < 3 && ThreeLinks(entries) && j < |entries|
    ensures |entries[j].links| == 3
    ensures SelfLinked(c, entries, k, n)[j]
         == if j < n && !c.Listed(entries[j], k)
            then entries[j].(links := entries[j].links[k := Link(c.Node(entries[j], k), c.Node(entries[j], k))])
            else entries[j]
  {
    if n > 0 {
      SelfLinkedAt(c, entries, k, n - 1, j);
    }
  }

  lemma SelfLinkedNext(c: Config, entries: seq<Entry>, k: nat, n: nat)
    requires n < |entries| && k < 3 && ThreeLinks(entries)
    ensures |entries[n].links| == 3
    ensures SelfLinked(c, entries, k, n + 1)
         == if c.Listed(entries[n], k) then SelfLinked(c, entries, k, n)
            else
              var node := c.Node(entries[n], k);
              SelfLinked(c, entries, k, n)[n := entries[n].(links := entries[n].links[k := Link(node, node)])]
  {
  }

  lemma SelfLinkedThree(c: Config, entries: seq<Entry>, k: nat, n: nat)
    requires n <= |entries| && k < 3 && ThreeLinks(entries)
    ensures ThreeLinks(SelfLinked(c, entries, k, n))
  {
    forall j | 0 <= j < |entries| ensures |SelfLinked(c, entries, k, n)[j].links| == 3 {
      SelfLinkedAt(c, entries, k, n, j);
    }
  }

  // The first n nodes of list k, linked to each other
  ghost function RingLinked(c: Config, k: nat, nodes: seq<nat>, places: seq<nat>, entries: seq<Entry>, n: nat)
    : (r: seq<Entry>)
    requires n <= |nodes| == |places| && k < 3 && ThreeLinks(entries)
    requires forall q :: 0 <= q < |places| ==> places[q] < |entries|
    ensures |r| == |entries| && ThreeLinks(r)
  {
    if n == 0 then entries
    else
      var r := RingLinked(c, k, nodes, places, entries, n - 1);
      var i := places[n - 1];
      r[i := r[i].(links := r[i].links[k := RingLink(c, k, nodes, n - 1)])]
  }

  lemma {:induction false} RingLinkedAt(
    c: Config, before: seq<Entry>, k: nat, places: seq<nat>, entries: seq<Entry>, n: nat, j: nat)
    requires PlacesOk(c, before, k, places, |before|) && n <= |Nodes(c, before, k)| == |places|
    requires |entries| == |before| && k < 3 && ThreeLinks(entries) && j < |entries|
    requires forall q :: 0 <= q < |places| ==> places[q] < |entries|
    ensures RingLinked(c, k, Nodes(c, before, k), places, entries, n)[j]
         == if c.Listed(before[j], k) && Rank(c, before, k, j) < n
            then entries[j].(links := entries[j].links[k := RingLink(c, k, Nodes(c, before, k), Rank(c, before, k, j))])
            else entries[j]
  {
    hide Nodes, RingLink;
    if n > 0 {
      RingLinkedAt(c, before, k, places, entries, n - 1, j);
    }
  }

  lemma PlacesBound(c: Config, before: seq<Entry>, k: nat, places: seq<nat>)
    requires PlacesOk(c, before, k, places, |before|)
    ensures |Nodes(c, before, k)| == |places| && forall q :: 0 <= q < |places| ==> places[q] < |before|
  {
    assert before[..|before|] == before;
  }

  // Both loops together set link k of every entry.
  lemma AllSetBy(c: Config, before: seq<Entry>, k: nat, places: seq<nat>)
    requires k < 3 && ThreeLinks(before) && PlacesOk(c, before, k, places, |before|)
    requires |Nodes(c, before, k)| == |places| && forall q :: 0 <= q < |places| ==> places[q] < |before|
    requires ThreeLinks(SelfLinked(c, before, k, |before|))
    ensures var after := RingLinked(c, k, Nodes(c, before, k), places, SelfLinked(c, before, k, |before|), |places|);
            AllSet(c, before, after, k)
  {
    var self := SelfLinked(c, before, k, |before|);
    var after := RingLinked(c, k, Nodes(c, before, k), places, self, |places|);
    hide Nodes, RingLinked, SelfLinked, ThreeLinks;
    forall i | 0 <= i < |before| ensures LinkSet(c, before, after, k, i) {
      RingLinkedAt(c, before, k, places, self, |places|, i);
      SelfLinkedAt(c, before, k, |before|, i);
      assert c.Listed(before[i], k) ==> Rank(c, before, k, i) < |places|;
      hide Rank, RingLink, PlacesOk;
    }
  }

  lemma NoPlaces(c: Config, entries: seq<Entry>, k: nat)
    ensures Nodes(c, entries[..0], k) == [] && PlacesOk(c, entries, k, [], 0)
  {
  }

  lemma NextPlace(c: Config, entries: seq<Entry>, k: nat, places: seq<nat>, i: nat)
    requires i < |entries| && PlacesOk(c, entries, k, places, i)
    ensures var listed := c.Listed(entries[i], k);
            && PlacesOk(c, entries, k, if listed then places + [i] else places, i + 1)
            && Nodes(c, entries[..i + 1], k)
               == if listed then Nodes(c, entries[..i], k) + [c.Node(entries[i], k)] else Nodes(c, entries[..i], k)
  {
    assert entries[..i + 1][..i] == entries[..i];
  }

  lemma SetSame(c: Config, a: seq<Entry>, b: seq<Entry>, k: nat)
    requires AllSet(c, a, b, k)
    ensures SameEntries(a, b) && ThreeLinks(b)
  {
    hide LinkFor;
    forall i | 0 <= i < |a| ensures b[i] == a[i].(links := b[i].links) && |b[i].links| == 3 {
      assert LinkSet(c, a, b, k, i);
    }
  }

  lemma AllLinked(c: Config, before: seq<Entry>, first: seq<Entry>, second: seq<Entry>, third: seq<Entry>)
    requires AllSet(c, before, first, 0) && AllSet(c, first, second, 1) && AllSet(c, second, third, 2)
      && Laid(c, before)
    ensures SameEntries(before, first) && SameEntries(before, second) && SameEntries(before, third)
    ensures Laid(c, third) && Linked(c, third)
  {
    hide LinkFor, LinksFor;
    SetSame(c, before, first, 0);
    SetSame(c, first, second, 1);
    SetSame(c, second, third, 2);
    forall i | 0 <= i < |before| ensures third[i].links == LinksFor(c, third, i) {
      assert LinkSet(c, before, first, 0, i) && LinkSet(c, first, second, 1, i) && LinkSet(c, second, third, 2, i);
      OneLinked(c, before, first, second, third, i);
    }
    hide LinkSet;
    forall i, j | 0 <= i < j < |third| ensures Apart(c, third[i].address, third[j].address) {
      assert Apart(c, before[i].address, before[j].address);
    }
  }

  lemma OneLinked(c: Config, before: seq<Entry>, first: seq<Entry>, second: seq<Entry>, third: seq<Entry>, i: nat)
    requires SameEntries(before, first) && SameEntries(before, second) && SameEntries(before, third) && i < |before|
    requires LinkSet(c, before, first, 0, i) && LinkSet(c, first, second, 1, i) && LinkSet(c, second, third, 2, i)
    ensures third[i].links == LinksFor(c, third, i)
  {
    LinkSame(c, before, third, 0, i);
    LinkSame(c, before, first, 1, i);
    LinkSame(c, before, third, 1, i);
    LinkSame(c, before, second, 2, i);
    LinkSame(c, before, third, 2, i);
    hide LinkFor, SameEntries;
    assert third[i].links == [LinkFor(c, third, 0, i), LinkFor(c, third, 1, i), LinkFor(c, third, 2, i)];
  }

  lemma SyncedHeads(c: Config, before: seq<Entry>, first: seq<Entry>, second: seq<Entry>, third: seq<Entry>)
    requires SameEntries(before, first) && SameEntries(before, second) && SameEntries(before, third)
    ensures HeadLinks(c, third)
         == [HeadLink(c, 0, Nodes(c, before, 0)), HeadLink(c, 1, Nodes(c, first, 1)),
           HeadLink(c, 2, Nodes(c, second, 2))]
  {
    NodesSame(c, before, third, 0);
    NodesSame(c, before, first, 1);
    NodesSame(c, before, third, 1);
    NodesSame(c, before, second, 2);
    NodesSame(c, before, third, 2);
  }

  lemma EntryWritten(c: Config, m: Memory, entries: seq<Entry>, i: nat, heads: seq<byte>)
    requires Laid(c, entries) && i < |entries| && |heads| == 6 * c.ptr
    requires entries[i].links == LinksFor(c, entries, i)
    ensures EntryHeld(c, Write(WriteEntries(c, m, entries, |entries|), c.Heads(), heads), entries, i)
  {
    hide Words, Write, WriteEntries, LinkWords, LinksFor, Holds;
    WrittenEntries(c, m, entries, |entries|, i);
    WordsLength(LinkWords(entries[i].links), c.ptr);
    WriteKeeps(WriteEntries(c, m, entries, |entries|), entries[i].address, Words(LinkWords(entries[i].links), c.ptr),
               c.Heads(), heads);
  }

  lemma AllWritten(c: Config, m: Memory, entries: seq<Entry>)
    requires Laid(c, entries) && Linked(c, entries)
    ensures LinksHeld(c, Write(WriteEntries(c, m, entries, |entries|), c.Heads(),
                               Words(LinkWords(HeadLinks(c, entries)), c.ptr)), entries)
  {
    var heads := Words(LinkWords(HeadLinks(c, entries)), c.ptr);
    var m' := Write(WriteEntries(c, m, entries, |entries|), c.Heads(), heads);
    WordsLength(LinkWords(HeadLinks(c, entries)), c.ptr);
    hide Words, Write, WriteEntries, LinkWords, LinksFor, HeadLinks, EntryHeld, Laid;
    forall i | 0 <= i < |entries| ensures EntryHeld(c, m', entries, i) {
      EntryWritten(c, m, entries, i, heads);
    }
  }

  lemma BasesAdded(entries: seq<Entry>, bases: set<nat>, e: Entry)
    requires BasesOk(entries, bases) && e.base !in bases
    ensures BasesOk(entries + [e], bases + {e.base})
  {
    var longer := entries + [e];
    forall b | b in bases + {e.base} ensures exists i :: 0 <= i < |longer| && longer[i].base == b {
      if b == e.base {
        assert longer[|entries|].base == b;
      } else {
        var i :| 0 <= i < |entries| && entries[i].base == b;
        assert longer[i].base == b;
      }
    }
  }

  lemma BasesSame(a: seq<Entry>, b: seq<Entry>, bases: set<nat>)
    requires SameEntries(a, b) && BasesOk(a, bases)
    ensures BasesOk(b, bases)
  {
    forall x | x in bases ensures exists i :: 0 <= i < |b| && b[i].base == x {
      var i :| 0 <= i < |a| && a[i].base == x;
      assert b[i].base == x;
    }
  }

  lemma {:induction false} WithoutNothing(entries: seq<Entry>, base: nat)
    requires forall i :: 0 <= i < |entries| ==> entries[i].base != base
    ensures Without(entries, base) == entries
  {
    if entries != [] {
      WithoutNothing(entries[..|entries| - 1], base);
    }
  }

  // What is kept keeps its order: kept[j] is entries[from[j]], and from goes up.
  lemma {:induction false} WithoutPlaces(entries: seq<Entry>, base: nat) returns (from: seq<nat>)
    ensures var kept := Without(entries, base);
            && |from| == |kept| && (forall j :: 0 <= j < |from| ==> from[j] < |entries| && kept[j] == entries[from[j]])
            && (forall i, j :: 0 <= i < j < |from| ==> from[i] < from[j])
            && (forall j :: 0 <= j < |kept| ==> kept[j].base != base)
  {
    from := [];
    if entries != [] {
      var n := |entries| - 1;
      from := WithoutPlaces(entries[..n], base);
      if entries[n].base != base {
        from := from + [n];
      }
    }
  }

  lemma {:induction false} WithoutKeeps(entries: seq<Entry>, base: nat, i: nat) returns (j: nat)
    requires i < |entries| && entries[i].base != base
    ensures j < |Without(entries, base)| && Without(entries, base)[j] == entries[i]
  {
    var n := |entries| - 1;
    if i == n {
      j := |Without(entries[..n], base)|;
    } else {
      j := WithoutKeeps(entries[..n], base, i);
    }
  }

  lemma WithoutLaid(c: Config, entries: seq<Entry>, base: nat)
    requires Laid(c, entries)
    ensures Laid(c, Without(entries, base))
  {
    var from := WithoutPlaces(entries, base);
    var kept := Without(entries, base);
    forall i, j | 0 <= i < j < |kept| ensures Apart(c, kept[i].address, kept[j].address) {
      assert Apart(c, entries[from[i]].address, entries[from[j]].address);
    }
  }

  lemma BasesRemoved(entries: seq<Entry>, bases: set<nat>, base: nat)
    requires BasesOk(entries, bases)
    ensures BasesOk(Without(entries, base), bases - {base})
  {
    var from := WithoutPlaces(entries, base);
    var kept := Without(entries, base);
    forall b | b in bases - {base} ensures exists i :: 0 <= i < |kept| && kept[i].base == b {
      var i :| 0 <= i < |entries| && entries[i].base == b;
      var j := WithoutKeeps(entries, base, i);
      assert kept[j].base == b;
    }
  }
}
