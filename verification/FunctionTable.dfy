// speakeasy/windows/unwind.py: the tables of RUNTIME_FUNCTIONs, of an image or added at runtime.

module FunctionTable {
  import opened Options
  import opened Bytes
  import opened Sequences
  import opened Unwind

  const PER_PAGE: nat := 0x1000 / 12

  // The RVAs of one RUNTIME_FUNCTION
  datatype Row = Row(begin: nat, end: nat, unwindInfo: nat)

  datatype ReadError = Fault

  function RowOf(data: seq<byte>): Row
    requires |data| >= 12
  {
    Row(FromLE(data[..4]), FromLE(data[4..8]), FromLE(data[8..12]))
  }

  function Unpack(data: seq<byte>): (rows: seq<Row>)
    ensures |rows| == |data| / 12
  {
    if |data| < 12 then [] else [RowOf(data)] + Unpack(data[12..])
  }

  lemma RowOfPrefix(a: seq<byte>, b: seq<byte>)
    requires |a| >= 12
    ensures RowOf(a + b) == RowOf(a)
  {
    hide FromLE;
    assert (a + b)[..4] == a[..4] && (a + b)[4..8] == a[4..8] && (a + b)[8..12] == a[8..12];
  }

  lemma {:induction false} UnpackConcat(a: seq<byte>, b: seq<byte>)
    requires |a| % 12 == 0
    ensures Unpack(a + b) == Unpack(a) + Unpack(b)
  {
    hide RowOf;
    if a == [] {
      assert a + b == b;
    } else {
      assert (a + b)[12..] == a[12..] + b;
      RowOfPrefix(a, b);
      Regroup([RowOf(a)], Unpack(a[12..]), Unpack(b));
      UnpackConcat(a[12..], b);
    }
  }

  lemma ReadConcat(m: Memory, a: int, n: nat, k: nat)
    requires Mapped(m, a, n) && Mapped(m, a + n, k)
    ensures Mapped(m, a, n + k)
    ensures BytesAt(m, a, n + k) == BytesAt(m, a, n) + BytesAt(m, a + n, k)
  {
    var both, left, right := BytesAt(m, a, n + k), BytesAt(m, a, n), BytesAt(m, a + n, k);
    forall i | 0 <= i < n + k ensures both[i] == (left + right)[i] {
      assert m[a + i] == both[a + i - a];
      if i < n {
        assert m[a + i] == left[a + i - a];
      } else {
        assert m[a + i] == right[a + i - (a + n)];
      }
    }
  }

  // The table read in one piece.
  function ReadWhole(m: Memory, address: int, count: nat): (r: Option<seq<Row>>)
    ensures r.Some? ==> |r.value| == count
    ensures r.Some? <==> Mapped(m, address, 12 * count)
  {
    var data :- Read(m, address, 12 * count);
    Some(Unpack(data))
  }

  function PageRows(count: nat, first: nat): nat
    requires first <= count
  {
    if count - first < PER_PAGE then count - first else PER_PAGE
  }

  // What a reader gets that fails at the first page it cannot read: the rows of the whole pages before.
  ghost predicate ReadByPage(m: Memory, address: int, count: nat, rows: seq<Row>, fault: bool) {
    && |rows| <= count && ReadWhole(m, address, |rows|) == Some(rows)
    && if fault then |rows| < count && !Mapped(m, address + 12 * |rows|, 12 * PageRows(count, |rows|))
       else |rows| == count
  }

  lemma PageAppends(m: Memory, address: int, first: nat, rows: seq<Row>, n: nat)
    requires ReadWhole(m, address, first) == Some(rows) && Mapped(m, address + 12 * first, 12 * n)
    ensures ReadWhole(m, address, first + n) == Some(rows + Unpack(BytesAt(m, address + 12 * first, 12 * n)))
  {
    hide BytesAt, Unpack, Holds;
    ReadConcat(m, address, 12 * first, 12 * n);
    UnpackConcat(BytesAt(m, address, 12 * first), BytesAt(m, address + 12 * first, 12 * n));
    assert 12 * (first + n) == 12 * first + 12 * n;
  }

  lemma PageFails(m: Memory, address: int, count: nat, first: nat)
    requires first < count && !Mapped(m, address + 12 * first, 12 * PageRows(count, first))
    ensures ReadWhole(m, address, count) == None
  {
  }

  method ReadFunctionTable(m: Memory, address: int, count: nat) returns (rows: seq<Row>, fault: bool)
    ensures ReadByPage(m, address, count, rows, fault)
    ensures ReadWhole(m, address, count) == if fault then None else Some(rows)
    ensures fault ==> |rows| % PER_PAGE == 0
  {
    hide ReadWhole, Unpack;
    rows, fault := [], false;
    var first := 0;
    ghost var pages := 0;
    NoRows(m, address);
    while first < count
      invariant first <= count && |rows| == first && (first < count ==> first == PER_PAGE * pages)
      invariant ReadWhole(m, address, first) == Some(rows)
    {
      var n := PageRows(count, first);
      var page := Read(m, address + 12 * first, 12 * n);
      if page.None? {
        PageFails(m, address, count, first);
        assert |rows| % PER_PAGE == 0 by {
          assert |rows| == 341 * pages;
        }
        return rows, true;
      }
      PageAppends(m, address, first, rows, n);
      rows := rows + Unpack(page.value);
      first, pages := first + n, pages + 1;
    }
  }

  lemma NoRows(m: Memory, address: int)
    ensures ReadWhole(m, address, 0) == Some([])
  {
  }

  predicate Contains(row: Row, rva: int) {
    row.begin <= rva < row.end
  }

  // The index of the first row from i on that contains rva, or the number of rows.
  function FirstContaining(rows: seq<Row>, rva: int, i: nat): (r: nat)
    requires i <= |rows|
    ensures i <= r <= |rows|
    ensures r < |rows| ==> Contains(rows[r], rva)
    ensures forall j :: i <= j < r ==> !Contains(rows[j], rva)
    decreases |rows| - i
  {
    if i == |rows| || Contains(rows[i], rva) then i else FirstContaining(rows, rva, i + 1)
  }

  // The first row that contains rva is row i of the table, and the search could read it.
  ghost predicate FoundAt(m: Memory, address: int, count: nat, rva: int, rows: seq<Row>, i: nat) {
    && |rows| <= count && ReadWhole(m, address, |rows|) == Some(rows)
    && i < |rows| && FirstContaining(rows, rva, 0) == i
  }

  ghost predicate NotFound(m: Memory, address: int, count: nat, rva: int, rows: seq<Row>, fault: bool) {
    ReadByPage(m, address, count, rows, fault) && FirstContaining(rows, rva, 0) == |rows|
  }

  // The search of a table from row first on, one page after the other.
  function SearchPages(m: Memory, address: int, count: nat, base: int, pc: int, first: nat)
    : Result<Option<RuntimeFunction>, ReadError>
    decreases count - first
  {
    if first >= count then Ok(None)
    else
      var n := PageRows(count, first);
      match Read(m, address + 12 * first, 12 * n)
      case None => Err(Fault)
      case Some(page) =>
        var k := FirstContaining(Unpack(page), pc - base, 0);
        if k < n then Ok(ReadRuntimeFunction(m, base, address + 12 * (first + k)))
        else SearchPages(m, address, count, base, pc, first + n)
  }

  lemma NextPage(m: Memory, address: int, count: nat, base: int, pc: int, first: nat)
    ensures SearchPages(m, address, count, base, pc, first) ==
      if first >= count then Ok(None)
      else
        var n := PageRows(count, first);
        var page := Read(m, address + 12 * first, 12 * n);
        if page.None? then Err(Fault)
        else
          var k := FirstContaining(Unpack(page.value), pc - base, 0);
          if k < n then Ok(ReadRuntimeFunction(m, base, address + 12 * (first + k)))
          else SearchPages(m, address, count, base, pc, first + n)
  {
    hide Read, FirstContaining, Unpack, ReadRuntimeFunction;
  }

  // A table of the sample's, searched in order. The search reads no page after the one with its result.
  method SearchFunctionTable(m: Memory, address: int, count: nat, base: int, pc: int)
    returns (r: Result<Option<RuntimeFunction>, ReadError>, ghost rows: seq<Row>)
    ensures r == SearchPages(m, address, count, base, pc, 0)
    ensures r.Err? ==> NotFound(m, address, count, pc - base, rows, true)
    ensures r == Ok(None) ==> NotFound(m, address, count, pc - base, rows, false)
    ensures r.Ok? && r.value.Some? ==>
              var i := FirstContaining(rows, pc - base, 0);
              FoundAt(m, address, count, pc - base, rows, i)
                && r.value == ReadRuntimeFunction(m, base, address + 12 * i)
  {
    hide ReadWhole, Unpack, FirstContaining, ReadRuntimeFunction, Contains, Mapped, BytesAt, SearchPages;
    NoRows(m, address);
    rows := [];
    var first := 0;
    while first < count
      invariant first <= count && |rows| == first
      invariant ReadWhole(m, address, first) == Some(rows)
      invariant FirstContaining(rows, pc - base, 0) == |rows|
      invariant SearchPages(m, address, count, base, pc, 0) == SearchPages(m, address, count, base, pc, first)
    {
      var n := PageRows(count, first);
      NextPage(m, address, count, base, pc, first);
      var page := Read(m, address + 12 * first, 12 * n);
      if page.None? {
        return Err(Fault), rows;
      }
      var pageRows := Unpack(page.value);
      var k := FirstContaining(pageRows, pc - base, 0);
      PageAppends(m, address, first, rows, n);
      SearchConcat(rows, pageRows, pc - base);
      rows := rows + pageRows;
      if k < n {
        RowMapped(m, base, address, first + n, rows, first + k);
        return Ok(ReadRuntimeFunction(m, base, address + 12 * (first + k))), rows;
      }
      first := first + n;
    }
    NextPage(m, address, count, base, pc, first);
    return Ok(None), rows;
  }

  lemma {:induction false} SearchConcat(a: seq<Row>, b: seq<Row>, rva: int)
    requires FirstContaining(a, rva, 0) == |a|
    ensures FirstContaining(a + b, rva, 0) == |a| + FirstContaining(b, rva, 0)
  {
    var ab, r := a + b, FirstContaining(a + b, rva, 0);
    hide FirstContaining;
    assert forall j :: 0 <= j < |a| ==> ab[j] == a[j];
    assert forall j :: 0 <= j < |b| ==> b[j] == ab[|a| + j];
    assert forall j :: |a| <= j < |ab| ==> ab[j] == b[j - |a|];
  }

  lemma RowMapped(m: Memory, base: int, address: int, count: nat, rows: seq<Row>, i: nat)
    requires ReadWhole(m, address, count) == Some(rows) && i < count
    ensures ReadRuntimeFunction(m, base, address + 12 * i).Some?
  {
  }

  // -- The .pdata of an image

  // bisect.bisect_right between two positions. On a list that is not sorted it ends somewhere.
  function Bisect(a: seq<int>, x: int, lo: nat, hi: nat): (r: nat)
    requires lo <= hi <= |a|
    ensures lo <= r <= hi
    decreases hi - lo
  {
    if lo == hi then lo
    else
      var mid := (lo + hi) / 2;
      if x < a[mid] then Bisect(a, x, lo, mid) else Bisect(a, x, mid + 1, hi)
  }

  ghost predicate Sorted(a: seq<int>) {
    forall i, j :: 0 <= i < j < |a| ==> a[i] <= a[j]
  }

  // On a sorted list it ends after the last element that is at most x.
  lemma {:induction false} BisectSplits(a: seq<int>, x: int, lo: nat, hi: nat)
    requires Sorted(a) && lo <= hi <= |a|
    requires (forall i :: 0 <= i < lo ==> a[i] <= x) && (forall i :: hi <= i < |a| ==> x < a[i])
    ensures var r := Bisect(a, x, lo, hi);
            (forall i :: 0 <= i < r ==> a[i] <= x) && (forall i :: r <= i < |a| ==> x < a[i])
    decreases hi - lo
  {
    if lo < hi {
      var mid := (lo + hi) / 2;
      if x < a[mid] {
        BisectSplits(a, x, lo, mid);
      } else {
        BisectSplits(a, x, mid + 1, hi);
      }
    }
  }

  method BisectRight(a: seq<int>, x: int) returns (r: nat)
    ensures r == Bisect(a, x, 0, |a|)
    ensures Sorted(a) ==> (forall i :: 0 <= i < r ==> a[i] <= x) && (forall i :: r <= i < |a| ==> x < a[i])
  {
    if Sorted(a) {
      BisectSplits(a, x, 0, |a|);
    }
    var lo, hi := 0, |a|;
    while lo < hi
      invariant lo <= hi <= |a| && Bisect(a, x, lo, hi) == Bisect(a, x, 0, |a|)
    {
      var mid := (lo + hi) / 2;
      if x < a[mid] {
        hi := mid;
      } else {
        lo := mid + 1;
      }
    }
    return lo;
  }

  predicate IsMZ(m: Memory, imageBase: int) {
    Read(m, imageBase, 2) == Some([0x4D, 0x5A])
  }

  // The RVA and size of the exception directory of a PE32+ image.
  function ExceptionDirectory(m: Memory, imageBase: int): Option<(nat, nat)> {
    var lfanew :- ReadU32(m, imageBase + 0x3C);
    var at := imageBase + lfanew + 0x18 + 0x70 + 8 * 3;
    var rva :- ReadU32(m, at);
    var size :- ReadU32(m, at + 4);
    Some((rva, size))
  }

  // An indirect entry points at the primary RUNTIME_FUNCTION.
  function Resolve(m: Memory, imageBase: int, fn: RuntimeFunction): Result<Option<RuntimeFunction>, ReadError> {
    if fn.unwindInfo % 2 == 0 then Ok(Some(fn))
    else
      match ReadRuntimeFunction(m, imageBase, imageBase + fn.unwindInfo - 1)
      case None => Err(Fault)
      case Some(primary) => Ok(Some(primary))
  }

  // The rows of the image's table, if the image has one.
  function ImageRows(m: Memory, imageBase: int): (r: Result<Option<(int, seq<Row>)>, ReadError>)
    ensures r.Ok? && r.value.Some? ==>
              ReadWhole(m, r.value.value.0, |r.value.value.1|) == Some(r.value.value.1)
  {
    if !Mapped(m, imageBase, 2) then Err(Fault)
    else if !IsMZ(m, imageBase) then Ok(None)
    else
      match ExceptionDirectory(m, imageBase)
      case None => Err(Fault)
      case Some((rva, size)) =>
        if rva == 0 then Ok(None)
        else
          match ReadWhole(m, imageBase + rva, size / 12)
          case None => Err(Fault)
          case Some(rows) => Ok(Some((imageBase + rva, rows)))
  }

  // The function of row i, or none past the last row.
  function SelectRow(m: Memory, imageBase: int, table: int, rows: seq<Row>, i: nat)
    : Result<Option<RuntimeFunction>, ReadError> {
    if i >= |rows| then Ok(None)
    else
      match ReadRuntimeFunction(m, imageBase, table + 12 * i)
      case None => Err(Fault)
      case Some(fn) => Resolve(m, imageBase, fn)
  }

  // The lookup by a search through all rows, in order.
  function LinearLookup(m: Memory, imageBase: int, pc: int): Result<Option<RuntimeFunction>, ReadError> {
    match ImageRows(m, imageBase)
    case Err(e) => Err(e)
    case Ok(None) => Ok(None)
    case Ok(Some((table, rows))) =>
      SelectRow(m, imageBase, table, rows, FirstContaining(rows, pc - imageBase, 0))
  }

  function Begins(rows: seq<Row>): (begins: seq<int>)
    ensures |begins| == |rows| && forall i :: 0 <= i < |rows| ==> begins[i] == rows[i].begin
  {
    if rows == [] then [] else [rows[0].begin] + Begins(rows[1..])
  }

  // The last row that begins at or before rva in the eyes of a bisection, if it contains rva, or the number of rows.
  function BisectedRow(rows: seq<Row>, rva: int): nat {
    var r := Bisect(Begins(rows), rva, 0, |rows|);
    if r > 0 && Contains(rows[r - 1], rva) then r - 1 else |rows|
  }

  // The lookup of the program
  function BisectLookup(m: Memory, imageBase: int, pc: int): Result<Option<RuntimeFunction>, ReadError> {
    match ImageRows(m, imageBase)
    case Err(e) => Err(e)
    case Ok(None) => Ok(None)
    case Ok(Some((table, rows))) => SelectRow(m, imageBase, table, rows, BisectedRow(rows, pc - imageBase))
  }

  // No entry reaches into a later one.
  ghost predicate Disjoint(rows: seq<Row>) {
    forall i, j :: 0 <= i < j < |rows| ==> rows[i].end <= rows[j].begin
  }

  // The table is in address order, and no entry reaches into the next.
  ghost predicate SortedDisjoint(rows: seq<Row>) {
    Sorted(Begins(rows)) && Disjoint(rows)
  }

  ghost predicate SortedImage(m: Memory, imageBase: int) {
    match ImageRows(m, imageBase)
    case Ok(Some((_, rows))) => SortedDisjoint(rows)
    case _ => true
  }

  lemma EntryOfBytes(m: Memory, base: int, address: int, data: seq<byte>)
    requires |data| >= 12 && Holds(m, address, data)
    ensures ReadRuntimeFunction(m, base, address)
         == Some(RuntimeFunction(base, address, FromLE(data[..4]), FromLE(data[4..8]), FromLE(data[8..12])))
  {
    HoldsSlice(m, address, data, 0, 4);
    HoldsSlice(m, address, data, 4, 8);
    HoldsSlice(m, address, data, 8, 12);
    ReadHeld(m, address, data[0..4]);
    ReadHeld(m, address + 4, data[4..8]);
    ReadHeld(m, address + 8, data[8..12]);
    assert data[..4] == data[0..4];
  }

  // Reading an entry again gives the row that the table gave.
  lemma {:induction false} RowsMatchEntries(m: Memory, base: int, address: int, data: seq<byte>, i: nat)
    requires Holds(m, address, data) && i < |data| / 12
    ensures var row := Unpack(data)[i];
            ReadRuntimeFunction(m, base, address + 12 * i)
              == Some(RuntimeFunction(base, address + 12 * i, row.begin, row.end, row.unwindInfo))
    decreases i
  {
    hide Holds, ReadRuntimeFunction, FromLE;
    if i == 0 {
      EntryOfBytes(m, base, address, data);
    } else {
      HoldsSlice(m, address, data, 12, |data|);
      assert data[12..|data|] == data[12..];
      RowsMatchEntries(m, base, address + 12, data[12..], i - 1);
    }
  }

  lemma EntryOfRow(m: Memory, base: int, address: int, rows: seq<Row>, i: nat)
    requires ReadWhole(m, address, |rows|) == Some(rows) && i < |rows|
    ensures ReadRuntimeFunction(m, base, address + 12 * i)
         == Some(RuntimeFunction(base, address + 12 * i, rows[i].begin, rows[i].end, rows[i].unwindInfo))
  {
    RowsMatchEntries(m, base, address, BytesAt(m, address, 12 * |rows|), i);
  }

  // On sorted disjoint rows, the last row that begins at or before rva is the only one that can contain it.
  lemma BisectFinds(rows: seq<Row>, rva: int)
    requires SortedDisjoint(rows)
    ensures BisectedRow(rows, rva) == FirstContaining(rows, rva, 0)
  {
    BisectSplits(Begins(rows), rva, 0, |rows|);
    hide FirstContaining, Bisect, Sorted;
    var begins, r := Begins(rows), Bisect(Begins(rows), rva, 0, |rows|);
    assert forall i :: 0 <= i < r ==> rows[i].begin == begins[i];
    assert forall i :: r <= i < |rows| ==> rows[i].begin == begins[i];
    hide Begins;
    LastBefore(rows, rva, r);
  }

  lemma LastBefore(rows: seq<Row>, rva: int, r: nat)
    requires Disjoint(rows) && r <= |rows|
    requires (forall i :: 0 <= i < r ==> rows[i].begin <= rva) && (forall i :: r <= i < |rows| ==> rva < rows[i].begin)
    ensures FirstContaining(rows, rva, 0) == if r > 0 && Contains(rows[r - 1], rva) then r - 1 else |rows|
  {
    hide FirstContaining;
    assert forall i :: 0 <= i < r - 1 ==> rows[i].end <= rows[r - 1].begin;
  }

  // No entry is empty.
  ghost predicate Nonempty(rows: seq<Row>) {
    forall i :: 0 <= i < |rows| ==> rows[i].begin < rows[i].end
  }

  // On every table of entries that are not empty, in whatever order, bisection and a linear search agree for every pc
  // exactly when no entry reaches into a later one, which puts them in address order. With empty entries, the same
  // holds of tables in address order.
  lemma BisectAgreesExactly(rows: seq<Row>)
    requires Nonempty(rows) || Sorted(Begins(rows))
    ensures (forall rva: int :: BisectedRow(rows, rva) == FirstContaining(rows, rva, 0)) <==> Disjoint(rows)
    ensures Nonempty(rows) && Disjoint(rows) ==> Sorted(Begins(rows))
  {
    hide BisectedRow, FirstContaining;
    if Nonempty(rows) {
      if forall rva: int :: BisectedRow(rows, rva) == FirstContaining(rows, rva, 0) {
        AgreeingDisjoint(rows);
      }
      if Disjoint(rows) {
        DisjointSorted(rows);
      }
    }
    if Disjoint(rows) {
      forall rva: int ensures BisectedRow(rows, rva) == FirstContaining(rows, rva, 0) {
        BisectFinds(rows, rva);
      }
    } else if Sorted(Begins(rows)) {
      var i, j :| 0 <= i < j < |rows| && rows[i].end > rows[j].begin;
      OverlapDiffers(rows, i, j);
    }
  }

  lemma DisjointSorted(rows: seq<Row>)
    requires Nonempty(rows) && Disjoint(rows)
    ensures Sorted(Begins(rows))
  {
    var begins := Begins(rows);
    forall i, j | 0 <= i < j < |begins| ensures begins[i] <= begins[j] {
      assert rows[i].begin < rows[i].end <= rows[j].begin;
    }
  }

  lemma AgreeingDisjoint(rows: seq<Row>)
    requires Nonempty(rows)
    requires forall rva: int :: BisectedRow(rows, rva) == FirstContaining(rows, rva, 0)
    ensures Disjoint(rows)
  {
    AgreeingPrefix(rows, |rows|);
    assert rows[..|rows|] == rows;
  }

  // If the two agree everywhere, the first n entries are disjoint: the last byte of each one is found, so it lies
  // before the next entry.
  lemma {:induction false} AgreeingPrefix(rows: seq<Row>, n: nat)
    requires Nonempty(rows) && n <= |rows|
    requires forall rva: int :: BisectedRow(rows, rva) == FirstContaining(rows, rva, 0)
    ensures Disjoint(rows[..n])
  {
    hide BisectedRow, FirstContaining;
    if n >= 2 {
      AgreeingPrefix(rows, n - 1);
      var before, last := rows[..n - 1], rows[n - 2];
      assert forall i :: 0 <= i < n - 2 ==> before[i].end <= before[n - 2].begin;
      assert forall i :: 0 <= i < n - 2 ==> rows[i].end <= last.begin;
      FirstIs(rows, last.end - 1, n - 2);
      BisectedBefore(rows, last.end - 1, n - 2);
    }
  }

  lemma FirstIs(rows: seq<Row>, rva: int, k: nat)
    requires k < |rows| && Contains(rows[k], rva) && forall i :: 0 <= i < k ==> rows[i].end <= rva
    ensures FirstContaining(rows, rva, 0) == k
  {
    hide FirstContaining;
  }

  lemma BisectedBefore(rows: seq<Row>, rva: int, k: nat)
    requires k + 1 < |rows| && BisectedRow(rows, rva) == k
    ensures rva < rows[k + 1].begin
  {
    BisectStops(Begins(rows), rva, 0, |rows|);
  }

  // Wherever a bisection ends inside the range, the element there is greater, on a list in any order.
  lemma {:induction false} BisectStops(a: seq<int>, x: int, lo: nat, hi: nat)
    requires lo <= hi <= |a|
    ensures Bisect(a, x, lo, hi) < hi ==> x < a[Bisect(a, x, lo, hi)]
    decreases hi - lo
  {
    if lo < hi {
      var mid := (lo + hi) / 2;
      if x < a[mid] {
        BisectStops(a, x, lo, mid);
      } else {
        BisectStops(a, x, mid + 1, hi);
      }
    }
  }

  lemma OverlapDiffers(rows: seq<Row>, i: nat, j: nat)
    requires Sorted(Begins(rows)) && i < j < |rows| && rows[i].end > rows[j].begin
    ensures BisectedRow(rows, rows[j].begin) != FirstContaining(rows, rows[j].begin, 0)
  {
    hide Bisect, FirstContaining, Begins, Sorted;
    BisectPast(Begins(rows), rows[j].begin, i, j);
    assert Contains(rows[i], rows[j].begin);
  }

  lemma BisectPast(a: seq<int>, x: int, i: nat, j: nat)
    requires Sorted(a) && i < j < |a| && a[j] == x
    ensures a[i] <= x && j < Bisect(a, x, 0, |a|)
  {
    BisectSplits(a, x, 0, |a|);
  }

  // On a table that is not in address order they can differ.
  lemma UnsortedDiffers()
    ensures var rows := [Row(10, 20, 0), Row(0, 5, 0)];
            BisectedRow(rows, 12) == |rows| && FirstContaining(rows, 12, 0) == 0
  {
    var rows := [Row(10, 20, 0), Row(0, 5, 0)];
    assert Begins(rows) == [10, 0];
    assert Bisect([10, 0], 12, 2, 2) == 2;
  }

  // The bisecting lookup finds what a search through the whole table finds.
  method LookupFunctionEntry(m: Memory, imageBase: int, pc: int)
    returns (r: Result<Option<RuntimeFunction>, ReadError>)
    ensures r == BisectLookup(m, imageBase, pc)
    ensures SortedImage(m, imageBase) ==> r == LinearLookup(m, imageBase, pc)
  {
    var image := ImageRows(m, imageBase);
    hide ReadWhole, Unpack, FirstContaining, ReadRuntimeFunction, ImageRows, Resolve, BisectedRow, SortedDisjoint;
    if image.Err? {
      return Err(image.error);
    }
    if image.value.None? {
      return Ok(None);
    }
    var (table, rows) := image.value.value;
    if SortedDisjoint(rows) {
      BisectFinds(rows, pc - imageBase);
    }
    r := LookupRow(m, imageBase, pc, table, rows);
  }

  method LookupRow(m: Memory, imageBase: int, pc: int, table: int, rows: seq<Row>)
    returns (r: Result<Option<RuntimeFunction>, ReadError>)
    requires ReadWhole(m, table, |rows|) == Some(rows)
    ensures r == SelectRow(m, imageBase, table, rows, BisectedRow(rows, pc - imageBase))
  {
    hide ReadWhole, Unpack, ReadRuntimeFunction, Resolve, Bisect;
    var begins := [];
    for i := 0 to |rows|
      invariant |begins| == i && forall j :: 0 <= j < i ==> begins[j] == rows[j].begin
    {
      begins := begins + [rows[i].begin];
    }
    assert begins == Begins(rows);
    var right := BisectRight(begins, pc - imageBase);
    if right == 0 {
      return Ok(None);
    }
    EntryOfRow(m, imageBase, table, rows, right - 1);
    var fn := ReadRuntimeFunction(m, imageBase, table + 12 * (right - 1));
    if fn.None? {
      return Err(Fault);
    }
    if !(fn.value.begin <= pc - imageBase < fn.value.end) {
      return Ok(None);
    }
    r := Resolve(m, imageBase, fn.value);
  }
}
