// speakeasy/windows/loaders.py: base relocation of a loaded image, and the ImageBase field of its PE header.

module Relocation {
  import opened Options
  import opened Arithmetic
  import opened Bytes
  import opened FunctionTable

  const ABSOLUTE: nat := 0
  const HIGHLOW: nat := 3
  const DIR64: nat := 10

  datatype BaseRelocation = BaseRelocation(rva: int, kind: int)

  datatype Region = Region(base: int, data: seq<byte>)

  // addresses are all the RVAs of an image that a loader returns: IAT slots, exports, entry points, TLS callbacks and
  // directories. magic is None if the image has no PE metadata.
  datatype Image = Image(
    bits: nat, imageBase: int, imageSize: nat, regions: seq<Region>, relocations: Option<seq<BaseRelocation>>,
    magic: Option<int>, addresses: seq<int>)

  datatype Error = DoesNotFit | NoRelocations | BadType | OutsideImage | Overflow

  type Buffers = seq<seq<byte>>

  function Space(bits: nat): nat {
    if bits == 64 then W64 else W32
  }

  // The index of the region that holds an RVA: the greatest start at or before it, the last one if several are equal.
  function Owner(starts: seq<int>, rva: int, n: nat): (o: Option<nat>)
    requires n <= |starts|
    ensures o.Some? ==> o.value < n && starts[o.value] <= rva
  {
    if n == 0 then None else
      var o := Owner(starts, rva, n - 1);
      if starts[n - 1] <= rva && (o.None? || starts[o.value] <= starts[n - 1]) then Some(n - 1) else o
  }

  lemma {:induction false} OwnerIsNearest(starts: seq<int>, rva: int, n: nat, j: nat)
    requires j < n <= |starts| && starts[j] <= rva
    ensures var o := Owner(starts, rva, n); o.Some? && (j == o.value || Before(starts, j, o.value))
  {
    if j < n - 1 {
      OwnerIsNearest(starts, rva, n - 1, j);
    }
  }

  // The index of the region with the least start, the first one if several are equal.
  function First(starts: seq<int>, n: nat): (f: nat)
    requires 0 < n <= |starts|
    ensures f < n
  {
    if n == 1 then 0 else
      var f := First(starts, n - 1);
      if starts[n - 1] < starts[f] then n - 1 else f
  }

  lemma {:induction false} FirstIsLeast(starts: seq<int>, n: nat, j: nat)
    requires j < n <= |starts|
    ensures j == First(starts, n) || Before(starts, First(starts, n), j)
  {
    if j < n - 1 {
      FirstIsLeast(starts, n - 1, j);
    }
  }

  predicate Before(starts: seq<int>, a: nat, b: nat)
    requires a < |starts| && b < |starts|
  {
    starts[a] < starts[b] || (starts[a] == starts[b] && a < b)
  }

  ghost predicate Has(order: seq<nat>, k: nat) {
    exists i :: 0 <= i < |order| && order[i] == k
  }

  // A stable sort of the first n region indices by start
  ghost predicate SortedOrder(starts: seq<int>, order: seq<nat>, n: nat) {
    && n <= |starts| && |order| == n
    && (forall i :: 0 <= i < n ==> order[i] < n)
    && (forall k: nat :: k < n ==> Has(order, k))
    && (forall i, j :: 0 <= i < j < n ==> Before(starts, order[i], order[j]))
  }

  lemma InsertHas(order: seq<nat>, at: nat, n: nat, k: nat)
    requires at <= |order| && (k == n || Has(order, k))
    ensures Has(order[..at] + [n] + order[at..], k)
  {
    var after := order[..at] + [n] + order[at..];
    if k == n {
      assert after[at] == k;
    } else {
      var i :| 0 <= i < |order| && order[i] == k;
      assert after[if i < at then i else i + 1] == k;
    }
  }

  lemma InsertSorted(starts: seq<int>, order: seq<nat>, at: nat, n: nat)
    requires n < |starts| && SortedOrder(starts, order, n) && at <= n
    requires forall i :: 0 <= i < at ==> Before(starts, order[i], n)
    requires forall i :: at <= i < n ==> Before(starts, n, order[i])
    ensures SortedOrder(starts, order[..at] + [n] + order[at..], n + 1)
  {
    var after := order[..at] + [n] + order[at..];
    forall k: nat | k < n + 1 ensures Has(after, k) {
      assert k < n ==> Has(order, k);
      InsertHas(order, at, n, k);
    }
    hide Has;
    forall i, j | 0 <= i < j < n + 1 ensures Before(starts, after[i], after[j]) {
      if i != at && j != at {
        var i', j' := if i < at then i else i - 1, if j < at then j else j - 1;
        assert Before(starts, order[i'], order[j']);
      }
    }
  }

  method SortRegions(starts: seq<int>) returns (order: seq<nat>)
    ensures SortedOrder(starts, order, |starts|) && forall i :: 0 <= i < |order| ==> order[i] < |starts|
  {
    hide Has;
    order := [];
    for n := 0 to |starts|
      invariant SortedOrder(starts, order, n)
    {
      var at := n;
      while at > 0 && starts[n] < starts[order[at - 1]]
        invariant 0 <= at <= n
        invariant forall i :: at <= i < n ==> Before(starts, n, order[i])
      {
        at := at - 1;
      }
      forall i | 0 <= i < at ensures Before(starts, order[i], n) {
        assert i < at - 1 ==> Before(starts, order[i], order[at - 1]);
      }
      InsertSorted(starts, order, at, n);
      order := order[..at] + [n] + order[at..];
    }
  }

  // Data after the end of a buffer is zeros.
  function At(data: seq<byte>, k: nat): byte {
    if k < |data| then data[k] else 0
  }

  function Slice(data: seq<byte>, offset: nat, n: nat): (s: seq<byte>)
    ensures |s| == n
    ensures forall i :: 0 <= i < n ==> s[i] == At(data, offset + i)
    decreases n
  {
    if n == 0 then [] else Slice(data, offset, n - 1) + [At(data, offset + n - 1)]
  }

  function Zeros(n: nat): (s: seq<byte>)
    ensures |s| == n && forall i :: 0 <= i < n ==> s[i] == 0
  {
    if n == 0 then [] else [0] + Zeros(n - 1)
  }

  function Grown(data: seq<byte>, end: nat): (s: seq<byte>)
    ensures |s| == if |data| < end then end else |data|
    ensures forall k: nat :: At(s, k) == At(data, k)
  {
    if |data| < end then data + Zeros(end - |data|) else data
  }

  function Splice(data: seq<byte>, offset: nat, new_: seq<byte>): (s: seq<byte>)
    requires offset + |new_| <= |data|
    ensures |s| == |data|
    ensures forall k: nat :: At(s, k) == if offset <= k < offset + |new_| then new_[k - offset] else At(data, k)
  {
    data[..offset] + new_ + data[offset + |new_|..]
  }

  lemma SliceIs(data: seq<byte>, offset: nat, n: nat)
    requires offset + n <= |data|
    ensures Slice(data, offset, n) == data[offset..offset + n]
  {
  }

  lemma SliceAgrees(a: seq<byte>, b: seq<byte>, offset: nat, n: nat)
    requires forall k :: offset <= k < offset + n ==> At(a, k) == At(b, k)
    ensures Slice(a, offset, n) == Slice(b, offset, n)
  {
    var s, t := Slice(a, offset, n), Slice(b, offset, n);
    forall i | 0 <= i < n ensures s[i] == t[i] {
      assert At(a, offset + i) == At(b, offset + i);
    }
    assert s == t;
  }

  function CellValue(data: seq<byte>, offset: nat, size: nat): nat {
    FromLE(Slice(data, offset, size))
  }

  // The value of a cell changes by delta, modulo its width.
  predicate CellShifted(data: seq<byte>, out: seq<byte>, offset: nat, size: nat, delta: int) {
    CellValue(out, offset, size) == (CellValue(data, offset, size) + delta) % Pow256(size)
  }

  lemma ShiftedAgrees(a: seq<byte>, b: seq<byte>, c: seq<byte>, d: seq<byte>, offset: nat, size: nat, delta: int)
    requires forall k: nat :: offset <= k < offset + size ==> At(a, k) == At(c, k) && At(b, k) == At(d, k)
    requires CellShifted(a, b, offset, size, delta)
    ensures CellShifted(c, d, offset, size, delta)
  {
    SliceAgrees(a, c, offset, size);
    SliceAgrees(b, d, offset, size);
  }

  // One relocation: the buffer grows to hold the cell, and the value of the cell changes by delta.
  function PatchCell(data: seq<byte>, offset: nat, size: nat, delta: int): seq<byte> {
    var grown := Grown(data, offset + size);
    var value := FromLE(grown[offset..offset + size]) + delta;
    Splice(grown, offset, ToLE(value % Pow256(size), size))
  }

  lemma PatchCellExact(data: seq<byte>, offset: nat, size: nat, delta: int)
    ensures var out := PatchCell(data, offset, size, delta);
            && |out| == (if |data| < offset + size then offset + size else |data|)
            && CellShifted(data, out, offset, size, delta)
            && forall k: nat :: !(offset <= k < offset + size) ==> At(out, k) == At(data, k)
  {
    var grown := Grown(data, offset + size);
    var out := PatchCell(data, offset, size, delta);
    SliceIs(grown, offset, size);
    SliceAgrees(grown, data, offset, size);
    var new_ := ToLE((CellValue(data, offset, size) + delta) % Pow256(size), size);
    forall i | 0 <= i < size ensures Slice(out, offset, size)[i] == new_[i] {
      assert At(out, offset + i) == new_[i];
    }
    assert Slice(out, offset, size) == new_;
    FromToLE((CellValue(data, offset, size) + delta) % Pow256(size), size);
  }

  function CellSize(r: BaseRelocation): nat {
    if r.kind == HIGHLOW then 4 else 8
  }

  function Patch(starts: seq<int>, imageSize: nat, delta: int, data: Buffers, r: BaseRelocation): Result<Buffers, Error>
    requires |starts| == |data|
  {
    if r.kind == ABSOLUTE then Ok(data)
    else if r.kind != HIGHLOW && r.kind != DIR64 then Err(BadType)
    else
      var owner := Owner(starts, r.rva, |starts|);
      if owner.None? || r.rva + CellSize(r) > imageSize then Err(OutsideImage)
      else
        var o := owner.value;
        Ok(data[o := PatchCell(data[o], r.rva - starts[o], CellSize(r), delta)])
  }

  // The first n relocations, in the order of the table
  function PatchAll(
    starts: seq<int>, imageSize: nat, delta: int, data: Buffers, relocations: seq<BaseRelocation>, n: nat
  ): (r: Result<Buffers, Error>)
    requires |starts| == |data| && n <= |relocations|
    ensures r.Ok? ==> |r.value| == |data|
  {
    if n == 0 then Ok(data) else
      match PatchAll(starts, imageSize, delta, data, relocations, n - 1)
      case Err(e) => Err(e)
      case Ok(done) => Patch(starts, imageSize, delta, done, relocations[n - 1])
  }

  function FieldSize(magic: int): nat {
    if magic == 0x20B then 8 else 4
  }

  // The offset of the ImageBase field in the data of the header region
  function FieldOffset(data: seq<byte>, magic: int): nat {
    CellValue(data, 0x3C, 4) + 4 + 20 + (if FieldSize(magic) == 8 then 24 else 28)
  }

  function WriteImageBase(magic: Option<int>, data: seq<byte>, base: nat): Result<seq<byte>, Error> {
    if magic.None? || |data| < 0x40 then Ok(data)
    else
      var size := FieldSize(magic.value);
      var offset := FieldOffset(data, magic.value);
      if offset + size > |data| then Ok(data)
      else if base >= Pow256(size) then Err(Overflow)
      else Ok(Splice(data, offset, ToLE(base, size)))
  }

  function Starts(regions: seq<Region>): (s: seq<int>)
    ensures |s| == |regions| && forall i :: 0 <= i < |s| ==> s[i] == regions[i].base
  {
    if regions == [] then [] else [regions[0].base] + Starts(regions[1..])
  }

  function Data(regions: seq<Region>): (s: Buffers)
    ensures |s| == |regions| && forall i :: 0 <= i < |s| ==> s[i] == regions[i].data
  {
    if regions == [] then [] else [regions[0].data] + Data(regions[1..])
  }

  function Moved(base: int, starts: seq<int>, data: Buffers): (regions: seq<Region>)
    requires |starts| == |data|
    ensures |regions| == |data|
    ensures forall i :: 0 <= i < |data| ==> regions[i] == Region(base + starts[i], data[i])
  {
    if data == [] then [] else [Region(base + starts[0], data[0])] + Moved(base, starts[1..], data[1..])
  }

  function Shifted(base: int, addresses: seq<int>): (s: seq<int>)
    ensures |s| == |addresses| && forall i :: 0 <= i < |s| ==> s[i] == base + addresses[i]
  {
    if addresses == [] then [] else [base + addresses[0]] + Shifted(base, addresses[1..])
  }

  // The data of the regions of the image at base
  function RelocatedData(image: Image, base: nat): (r: Result<Buffers, Error>)
    ensures r.Ok? ==> |r.value| == |image.regions|
  {
    var starts, data := Starts(image.regions), Data(image.regions);
    var delta := base - image.imageBase;
    if delta == 0 then Ok(data)
    else if image.relocations.None? then Err(NoRelocations)
    else
      var relocations := image.relocations.value;
      match PatchAll(starts, image.imageSize, delta, data, relocations, |relocations|)
      case Err(e) => Err(e)
      case Ok(patched) =>
        if starts == [] || starts[First(starts, |starts|)] != 0 then Ok(patched)
        else
          var f := First(starts, |starts|);
          match WriteImageBase(image.magic, patched[f], base)
          case Err(e) => Err(e)
          case Ok(header) => Ok(patched[f := header])
  }

  // The image at base, with the data of its regions there
  function Placed(image: Image, base: int, data: Buffers): Image
    requires |data| == |image.regions|
  {
    image.(imageBase := base, regions := Moved(base, Starts(image.regions), data),
           addresses := Shifted(base, image.addresses))
  }

  function Relocate(image: Image, base: int): Result<Image, Error> {
    if base < 0 || base + image.imageSize > Space(image.bits) then Err(DoesNotFit)
    else
      match RelocatedData(image, base)
      case Err(e) => Err(e)
      case Ok(data) => Ok(Placed(image, base, data))
  }

  method FindPosition(starts: seq<int>, order: seq<nat>, sorted: seq<int>, rva: int) returns (position: nat)
    requires SortedOrder(starts, order, |starts|) && sorted == Pick(starts, order)
    ensures position <= |order| && (position > 0 ==> sorted[position - 1] == starts[order[position - 1]])
    ensures Owner(starts, rva, |starts|) == if position == 0 then None else Some(order[position - 1])
  {
    position := BisectRight(sorted, rva);
    PositionOwns(starts, order, sorted, rva, position);
  }

  // relocate_image itself sorts the regions once and finds the region of each relocation by bisection.
  method RelocateImage(image: Image, base: int) returns (r: Result<Image, Error>)
    ensures r == Relocate(image, base)
  {
    hide PatchCell, WriteImageBase, Moved, Shifted, Starts, Data, Owner, First, SortedOrder, Pick;
    if base < 0 || base + image.imageSize > Space(image.bits) {
      return Err(DoesNotFit);
    }
    var delta := base - image.imageBase;
    if delta != 0 && image.relocations.None? {
      return Err(NoRelocations);
    }
    var starts := Starts(image.regions);
    var data := Data(image.regions);
    if delta != 0 {
      var regions := SortRegions(starts);
      var sorted := Pick(starts, regions);
      var relocations := image.relocations.value;
      for n := 0 to |relocations|
        invariant |data| == |starts|
        invariant PatchAll(starts, image.imageSize, delta, Data(image.regions), relocations, n) == Ok(data)
      {
        var relocation := relocations[n];
        if relocation.kind == ABSOLUTE {
          continue;
        }
        if relocation.kind != HIGHLOW && relocation.kind != DIR64 {
          ErrorStays(starts, image.imageSize, delta, Data(image.regions), relocations, n + 1, |relocations|);
          return Err(BadType);
        }
        var position := FindPosition(starts, regions, sorted, relocation.rva);
        if position == 0 || relocation.rva + CellSize(relocation) > image.imageSize {
          ErrorStays(starts, image.imageSize, delta, Data(image.regions), relocations, n + 1, |relocations|);
          return Err(OutsideImage);
        }
        var owner := regions[position - 1];
        var offset := relocation.rva - sorted[position - 1];
        data := data[owner := PatchCell(data[owner], offset, CellSize(relocation), delta)];
      }
      FirstSorted(starts, regions, sorted);
      if sorted != [] && sorted[0] == 0 {
        var header := WriteImageBase(image.magic, data[regions[0]], base);
        if header.Err? {
          return Err(header.error);
        }
        data := data[regions[0] := header.value];
      }
    }
    return Ok(Placed(image, base, data));
  }

  function Pick(starts: seq<int>, order: seq<nat>): (s: seq<int>)
    requires forall i :: 0 <= i < |order| ==> order[i] < |starts|
    ensures |s| == |order| && forall i :: 0 <= i < |s| ==> s[i] == starts[order[i]]
  {
    if order == [] then [] else [starts[order[0]]] + Pick(starts, order[1..])
  }

  // Bisection in the sorted starts finds the owner.
  lemma PositionOwns(starts: seq<int>, order: seq<nat>, sorted: seq<int>, rva: int, position: nat)
    requires SortedOrder(starts, order, |starts|) && sorted == Pick(starts, order) && position <= |order|
    requires forall i :: 0 <= i < position ==> sorted[i] <= rva
    requires forall i :: position <= i < |order| ==> rva < sorted[i]
    ensures Owner(starts, rva, |starts|) == if position == 0 then None else Some(order[position - 1])
  {
    var owner := Owner(starts, rva, |starts|);
    if position > 0 {
      assert sorted[position - 1] <= rva;
      OwnerIsNearest(starts, rva, |starts|, order[position - 1]);
    }
    if owner.Some? {
      assert Has(order, owner.value);
      var i :| 0 <= i < |order| && order[i] == owner.value;
      hide Has, Owner;
      assert sorted[i] <= rva;
      assert i < position;
      forall k | i < k < |order| ensures Before(starts, order[i], order[k]) {
      }
    }
  }

  lemma FirstSorted(starts: seq<int>, order: seq<nat>, sorted: seq<int>)
    requires SortedOrder(starts, order, |starts|) && sorted == Pick(starts, order)
    ensures |sorted| == |starts| == |order|
    ensures starts != [] ==> First(starts, |starts|) == order[0] && sorted[0] == starts[order[0]]
  {
    if starts != [] {
      var f: nat := First(starts, |starts|);
      FirstIsLeast(starts, |starts|, order[0]);
      assert Has(order, f);
      var i :| 0 <= i < |order| && order[i] == f;
      hide Has, First;
      forall k | 0 < k < |order| ensures Before(starts, order[0], order[k]) {
      }
    }
  }

  lemma {:induction false} ErrorStays(
    starts: seq<int>, imageSize: nat, delta: int, data: Buffers, relocations: seq<BaseRelocation>, n: nat, m: nat)
    requires |starts| == |data| && n <= m <= |relocations|
    requires PatchAll(starts, imageSize, delta, data, relocations, n).Err?
    ensures PatchAll(starts, imageSize, delta, data, relocations, m)
         == PatchAll(starts, imageSize, delta, data, relocations, n)
  {
    if n < m {
      ErrorStays(starts, imageSize, delta, data, relocations, n, m - 1);
    }
  }

  // --- What a relocation does ---

  // Byte k of region o is part of the cell of relocation r.
  predicate Covers(starts: seq<int>, r: BaseRelocation, o: nat, k: nat) {
    && r.kind != ABSOLUTE && Owner(starts, r.rva, |starts|) == Some(o)
    && r.rva - starts[o] <= k < r.rva - starts[o] + CellSize(r)
  }

  ghost predicate CellsApart(relocations: seq<BaseRelocation>) {
    forall i, j :: 0 <= i < j < |relocations| ==> Apart(relocations[i], relocations[j])
  }

  predicate Apart(r: BaseRelocation, t: BaseRelocation) {
    r.kind == ABSOLUTE || t.kind == ABSOLUTE || r.rva + CellSize(r) <= t.rva || t.rva + CellSize(t) <= r.rva
  }

  lemma {:induction false} Untouched(
    starts: seq<int>, imageSize: nat, delta: int, data: Buffers, relocations: seq<BaseRelocation>, n: nat, out: Buffers,
    o: nat, k: nat)
    requires |starts| == |data| && n <= |relocations| && o < |starts|
    requires PatchAll(starts, imageSize, delta, data, relocations, n) == Ok(out)
    requires forall j :: 0 <= j < n ==> !Covers(starts, relocations[j], o, k)
    ensures At(out[o], k) == At(data[o], k) && |out[o]| >= |data[o]|
  {
    if n > 0 {
      var before := PatchAll(starts, imageSize, delta, data, relocations, n - 1).value;
      Untouched(starts, imageSize, delta, data, relocations, n - 1, before, o, k);
      var r := relocations[n - 1];
      if r.kind != ABSOLUTE && Owner(starts, r.rva, |starts|) == Some(o) {
        PatchCellExact(before[o], r.rva - starts[o], CellSize(r), delta);
      }
    }
  }

  lemma {:induction false} CellPatched(
    starts: seq<int>, imageSize: nat, delta: int, data: Buffers, relocations: seq<BaseRelocation>, n: nat, out: Buffers,
    j: nat)
    requires |starts| == |data| && j < n <= |relocations| && CellsApart(relocations)
    requires PatchAll(starts, imageSize, delta, data, relocations, n) == Ok(out)
    requires relocations[j].kind != ABSOLUTE
    ensures Owner(starts, relocations[j].rva, |starts|).Some?
    ensures var o := Owner(starts, relocations[j].rva, |starts|).value;
            CellShifted(data[o], out[o], relocations[j].rva - starts[o], CellSize(relocations[j]), delta)
  {
    hide CellShifted, PatchCell, CellValue, Slice, At, Pow256, Owner;
    var before := PatchAll(starts, imageSize, delta, data, relocations, n - 1).value;
    var r, last := relocations[j], relocations[n - 1];
    if j < n - 1 {
      CellPatched(starts, imageSize, delta, data, relocations, n - 1, before, j);
      assert Apart(r, last);
    }
    var o, size := Owner(starts, r.rva, |starts|).value, CellSize(r);
    var offset := r.rva - starts[o];
    if j == n - 1 {
      forall k | offset <= k < offset + size ensures At(before[o], k) == At(data[o], k) {
        forall i | 0 <= i < j ensures !Covers(starts, relocations[i], o, k) {
          assert Apart(relocations[i], r);
        }
        Untouched(starts, imageSize, delta, data, relocations, n - 1, before, o, k);
      }
      PatchCellExact(before[o], offset, size, delta);
      ShiftedAgrees(before[o], out[o], data[o], out[o], offset, size, delta);
    } else {
      if last.kind != ABSOLUTE && Owner(starts, last.rva, |starts|) == Some(o) {
        PatchCellExact(before[o], last.rva - starts[o], CellSize(last), delta);
      }
      ShiftedAgrees(data[o], before[o], data[o], out[o], offset, size, delta);
    }
  }

  // Whether the relocations are valid does not depend on the data or on the delta.
  lemma {:induction false} PatchAllOk(
    starts: seq<int>, imageSize: nat, delta: int, data: Buffers, delta': int, data': Buffers,
    relocations: seq<BaseRelocation>, n: nat)
    requires |starts| == |data| == |data'| && n <= |relocations|
    ensures var a := PatchAll(starts, imageSize, delta, data, relocations, n);
            var b := PatchAll(starts, imageSize, delta', data', relocations, n);
            if a.Err? then b == a else b.Ok?
  {
    if n > 0 {
      PatchAllOk(starts, imageSize, delta, data, delta', data', relocations, n - 1);
    }
  }

  datatype Field = Field(region: nat, offset: nat, size: nat)

  // The ImageBase field, if the data of the header region reaches it
  function ImageBaseField(image: Image): (f: Option<Field>)
    ensures f.Some? ==>
              f.value.region < |image.regions| && f.value.size > 0 &&
              f.value.offset + f.value.size <= |image.regions[f.value.region].data|
  {
    var starts := Starts(image.regions);
    if starts == [] || image.magic.None? then None
    else
      var first := First(starts, |starts|);
      var data := image.regions[first].data;
      if starts[first] != 0 || |data| < 0x40 then None
      else
        var offset, size := FieldOffset(data, image.magic.value), FieldSize(image.magic.value);
        if offset + size <= |data| then Some(Field(first, offset, size)) else None
  }

  predicate InField(f: Option<Field>, o: nat, k: nat) {
    f.Some? && o == f.value.region && f.value.offset <= k < f.value.offset + f.value.size
  }

  // No cell touches the ImageBase field or the offset of the PE header.
  ghost predicate CellsMiss(starts: seq<int>, relocations: seq<BaseRelocation>, f: Field) {
    forall j, k: nat :: 0 <= j < |relocations| && (InField(Some(f), f.region, k) || 0x3C <= k < 0x40) ==>
                          !Covers(starts, relocations[j], f.region, k)
  }

  // An image whose PE header, if it has one, is in the file as a loader reads it: the field holds the preferred base,
  // and no relocation changes it or the offset of the header.
  ghost predicate WellFormed(image: Image) {
    var starts, f := Starts(image.regions), ImageBaseField(image);
    && (image.relocations.Some? ==> CellsApart(image.relocations.value))
    && (f.None? ==> image.magic.None? || starts == [] || starts[First(starts, |starts|)] != 0)
    && (f.Some? ==>
          && CellValue(image.regions[f.value.region].data, f.value.offset, f.value.size) == image.imageBase
          && (f.value.offset >= 0x40 || f.value.offset + f.value.size <= 0x3C)
          && (image.relocations.Some? ==> CellsMiss(starts, image.relocations.value, f.value)))
  }

  // A byte that no cell and no field contains
  ghost predicate Plain(image: Image, o: nat, k: nat) {
    && !InField(ImageBaseField(image), o, k)
    && (image.relocations.Some? ==>
          forall j :: 0 <= j < |image.relocations.value| ==>
            !Covers(Starts(image.regions), image.relocations.value[j], o, k))
  }

  // The header region after all relocations still shows the field at the same place.
  lemma FieldFound(image: Image, base: nat, patched: Buffers)
    requires WellFormed(image) && image.relocations.Some?
    requires PatchAll(Starts(image.regions), image.imageSize, base - image.imageBase, Data(image.regions),
                      image.relocations.value, |image.relocations.value|) == Ok(patched)
    requires ImageBaseField(image).Some?
    ensures var f := ImageBaseField(image).value;
            && FieldOffset(patched[f.region], image.magic.value) == f.offset
            && f.offset + f.size <= |patched[f.region]| && |patched[f.region]| >= 0x40
            && CellValue(patched[f.region], f.offset, f.size) == image.imageBase
  {
    var f := ImageBaseField(image).value;
    var region := image.regions[f.region].data;
    FieldKept(image, base, patched);
    hide At, Slice, Owner, PatchAll, Covers, CellsApart, CellsMiss, First;
    SliceAgrees(patched[f.region], region, 0x3C, 4);
    SliceAgrees(patched[f.region], region, f.offset, f.size);
  }

  lemma FieldKept(image: Image, base: nat, patched: Buffers)
    requires WellFormed(image) && image.relocations.Some?
    requires PatchAll(Starts(image.regions), image.imageSize, base - image.imageBase, Data(image.regions),
                      image.relocations.value, |image.relocations.value|) == Ok(patched)
    requires ImageBaseField(image).Some?
    ensures var f := ImageBaseField(image).value;
            && |patched[f.region]| >= |image.regions[f.region].data|
            && forall k: nat :: InField(Some(f), f.region, k) || 0x3C <= k < 0x40 ==>
                 At(patched[f.region], k) == At(image.regions[f.region].data, k)
  {
    hide At, Slice, Owner, PatchAll, Covers, CellsApart, First, ImageBaseField, CellValue;
    var f := ImageBaseField(image).value;
    var starts, data, relocations := Starts(image.regions), Data(image.regions), image.relocations.value;
    forall k: nat | InField(Some(f), f.region, k) || 0x3C <= k < 0x40
      ensures At(patched[f.region], k) == At(data[f.region], k) && |patched[f.region]| >= |data[f.region]|
    {
      Untouched(starts, image.imageSize, base - image.imageBase, data, relocations, |relocations|, patched, f.region,
        k);
    }
    assert InField(Some(f), f.region, f.offset);
  }

  // The data after all relocations, and the data with the new ImageBase
  lemma Phases(image: Image, base: nat, data': Buffers) returns (patched: Buffers)
    requires WellFormed(image) && RelocatedData(image, base) == Ok(data') && base != image.imageBase
    ensures image.relocations.Some?
    ensures PatchAll(Starts(image.regions), image.imageSize, base - image.imageBase, Data(image.regions),
                     image.relocations.value, |image.relocations.value|) == Ok(patched)
    ensures var f := ImageBaseField(image);
            if f.None? then data' == patched
            else
              && base < Pow256(f.value.size) && f.value.offset + f.value.size <= |patched[f.value.region]|
              && data' == patched[f.value.region :=
                                  Splice(patched[f.value.region], f.value.offset, ToLE(base, f.value.size))]
  {
    hide CellValue, Slice, At, Pow256, Owner, PatchAll, Covers, CellsApart, CellsMiss;
    var starts, data, relocations := Starts(image.regions), Data(image.regions), image.relocations.value;
    patched := PatchAll(starts, image.imageSize, base - image.imageBase, data, relocations, |relocations|).value;
    if ImageBaseField(image).Some? {
      FieldFound(image, base, patched);
    }
  }

  lemma SpliceValue(data: seq<byte>, offset: nat, v: nat, n: nat)
    requires offset + n <= |data| && v < Pow256(n)
    ensures CellValue(Splice(data, offset, ToLE(v, n)), offset, n) == v
  {
    var out, new_ := Splice(data, offset, ToLE(v, n)), ToLE(v, n);
    forall i | 0 <= i < n ensures Slice(out, offset, n)[i] == new_[i] {
      assert At(out, offset + i) == new_[i];
    }
    assert Slice(out, offset, n) == new_;
    FromToLE(v, n);
  }

  lemma ShiftedByZero(data: seq<byte>, offset: nat, size: nat)
    ensures CellShifted(data, data, offset, size, 0)
  {
    hide Pow256, Slice, FromLE;
    FromLEBound(Slice(data, offset, size));
    SmallMod(CellValue(data, offset, size), Pow256(size));
  }

  lemma SmallMod(v: nat, m: nat)
    requires v < m
    ensures v % m == v
  {
  }

  // Every cell changes by the delta, modulo its width.
  lemma CellMoved(image: Image, base: nat, data': Buffers, j: nat)
    requires WellFormed(image) && RelocatedData(image, base) == Ok(data') && image.relocations.Some?
    requires j < |image.relocations.value| && image.relocations.value[j].kind != ABSOLUTE
    requires Owner(Starts(image.regions), image.relocations.value[j].rva, |image.regions|).Some?
    ensures var r := image.relocations.value[j];
            var o := Owner(Starts(image.regions), r.rva, |image.regions|).value;
            CellShifted(image.regions[o].data, data'[o], r.rva - image.regions[o].base, CellSize(r),
              base - image.imageBase)
  {
    hide CellShifted, CellValue, Slice, At, Pow256, Owner, PatchAll, WriteImageBase, First, ImageBaseField, ToLE;
    var starts, r := Starts(image.regions), image.relocations.value[j];
    var o, size := Owner(starts, r.rva, |image.regions|).value, CellSize(r);
    var offset := r.rva - starts[o];
    if base == image.imageBase {
      ShiftedByZero(image.regions[o].data, offset, size);
    } else {
      var patched := Phases(image, base, data');
      CellPatched(starts, image.imageSize, base - image.imageBase, Data(image.regions), image.relocations.value,
                  |image.relocations.value|, patched, j);
      forall k: nat | offset <= k < offset + size ensures At(data'[o], k) == At(patched[o], k) {
        assert Covers(starts, r, o, k);
        assert !InField(ImageBaseField(image), o, k);
      }
      ShiftedAgrees(image.regions[o].data, patched[o], image.regions[o].data, data'[o], offset, size,
                    base - image.imageBase);
    }
  }

  lemma FieldWritten(image: Image, base: nat, data': Buffers)
    requires WellFormed(image) && RelocatedData(image, base) == Ok(data') && ImageBaseField(image).Some?
    ensures var f := ImageBaseField(image).value; CellValue(data'[f.region], f.offset, f.size) == base
  {
    if base != image.imageBase {
      var patched := Phases(image, base, data');
      var f := ImageBaseField(image).value;
      SpliceValue(patched[f.region], f.offset, base, f.size);
    }
  }

  lemma ByteKept(image: Image, base: nat, data': Buffers, o: nat, k: nat)
    requires WellFormed(image) && RelocatedData(image, base) == Ok(data') && o < |image.regions| && Plain(image, o, k)
    ensures At(data'[o], k) == At(image.regions[o].data, k)
  {
    hide CellValue, Slice, At, Pow256, Owner, PatchAll, WriteImageBase, First, ImageBaseField, ToLE, WellFormed,
      Covers;
    if base != image.imageBase {
      var patched := Phases(image, base, data');
      Untouched(Starts(image.regions), image.imageSize, base - image.imageBase, Data(image.regions),
                image.relocations.value, |image.relocations.value|, patched, o, k);
    }
  }

  // The cell of relocation j changes by the distance that the image moves, modulo its width.
  ghost predicate CellFollows(image: Image, out: Image, j: nat)
    requires image.relocations.Some? && j < |image.relocations.value| && |out.regions| == |image.regions|
  {
    var r := image.relocations.value[j];
    var owner := Owner(Starts(image.regions), r.rva, |image.regions|);
    r.kind != ABSOLUTE && owner.Some? ==>
      CellShifted(image.regions[owner.value].data, out.regions[owner.value].data,
                  r.rva - image.regions[owner.value].base, CellSize(r), out.imageBase - image.imageBase)
  }

  // A relocated image has exactly these bytes: each cell shifted, the new base in the ImageBase field, the rest as it
  // was.
  lemma RelocateExact(image: Image, base: int, out: Image)
    requires WellFormed(image) && Relocate(image, base) == Ok(out)
    ensures |out.regions| == |image.regions| && out.imageBase == base
      && 0 <= base <= Space(image.bits) - image.imageSize
    ensures forall o :: 0 <= o < |out.regions| ==> out.regions[o].base == base + image.regions[o].base
    ensures forall o: nat, k: nat :: o < |out.regions| && Plain(image, o, k) ==>
              At(out.regions[o].data, k) == At(image.regions[o].data, k)
    ensures ImageBaseField(image).Some? ==>
              var f := ImageBaseField(image).value; CellValue(out.regions[f.region].data, f.offset, f.size) == base
    ensures image.relocations.Some? ==> forall j :: 0 <= j < |image.relocations.value| ==> CellFollows(image, out, j)
  {
    OutData(image, base, out);
    hide WellFormed, Plain, CellShifted, At, Owner, RelocatedData, ImageBaseField, Starts, Relocate, InField;
    forall o: nat, k: nat | o < |out.regions| && Plain(image, o, k)
      ensures At(out.regions[o].data, k) == At(image.regions[o].data, k)
    {
      ByteKept(image, base, Data(out.regions), o, k);
    }
    hide CellValue;
    if image.relocations.Some? {
      forall j | 0 <= j < |image.relocations.value| ensures CellFollows(image, out, j) {
        CellMovedOut(image, base, out, j);
      }
    }
    if ImageBaseField(image).Some? {
      FieldWritten(image, base, Data(out.regions));
    }
  }

  lemma OutData(image: Image, base: int, out: Image)
    requires Relocate(image, base) == Ok(out)
    ensures |out.regions| == |image.regions| && out.imageBase == base
      && 0 <= base <= Space(image.bits) - image.imageSize
    ensures forall o :: 0 <= o < |out.regions| ==> out.regions[o].base == base + image.regions[o].base
    ensures RelocatedData(image, base) == Ok(Data(out.regions))
  {
    assert Data(out.regions) == RelocatedData(image, base).value;
  }

  lemma CellMovedOut(image: Image, base: int, out: Image, j: nat)
    requires WellFormed(image) && Relocate(image, base) == Ok(out)
    requires image.relocations.Some? && j < |image.relocations.value|
    ensures |out.regions| == |image.regions| && CellFollows(image, out, j)
  {
    hide WellFormed, CellShifted, At, Owner, RelocatedData, ImageBaseField, Relocate, CellSize, Space, Starts, Data,
      Placed;
    OutData(image, base, out);
    var r := image.relocations.value[j];
    if r.kind != ABSOLUTE && Owner(Starts(image.regions), r.rva, |image.regions|).Some? {
      var o := Owner(Starts(image.regions), r.rva, |image.regions|).value;
      assert Data(out.regions)[o] == out.regions[o].data;
      CellMoved(image, base, Data(out.regions), j);
    }
  }

  // --- Relocating twice ---

  // The image that a relocation leaves, with RVAs again: other data and another preferred base
  function Rebased(image: Image, base: int, data': Buffers): Image
    requires |data'| == |image.regions|
  {
    image.(imageBase := base, regions := Moved(0, Starts(image.regions), data'))
  }

  lemma RebasedTables(image: Image, base: int, data': Buffers)
    requires |data'| == |image.regions|
    ensures Starts(Rebased(image, base, data').regions) == Starts(image.regions)
    ensures Data(Rebased(image, base, data').regions) == data'
  {
  }

  lemma RebasedField(image: Image, base: nat, data': Buffers)
    requires WellFormed(image) && RelocatedData(image, base) == Ok(data')
    ensures var mid := Rebased(image, base, data'); ImageBaseField(mid) == ImageBaseField(image) && WellFormed(mid)
  {
    var mid, f := Rebased(image, base, data'), ImageBaseField(image);
    RebasedTables(image, base, data');
    if base == image.imageBase {
      assert mid.regions == image.regions;
    } else if f.Some? {
      FieldWritten(image, base, data');
      var patched := Phases(image, base, data');
      FieldFound(image, base, patched);
      hide Slice, At, Owner, PatchAll, ToLE, Covers;
      SliceAgrees(data'[f.value.region], patched[f.value.region], 0x3C, 4);
      assert FieldOffset(data'[f.value.region], image.magic.value) == f.value.offset;
    }
  }

  lemma ShiftsCompose(a: seq<byte>, b: seq<byte>, c: seq<byte>, offset: nat, size: nat, d: int, e: int)
    requires CellShifted(a, b, offset, size, d) && CellShifted(b, c, offset, size, e)
    ensures CellShifted(a, c, offset, size, d + e)
  {
    ModAdd(CellValue(a, offset, size) + d, e, Pow256(size));
  }

  lemma SameValueSameByte(a: seq<byte>, b: seq<byte>, offset: nat, size: nat, k: nat)
    requires CellValue(a, offset, size) == CellValue(b, offset, size) && offset <= k < offset + size
    ensures At(a, k) == At(b, k)
  {
    ToFromLE(Slice(a, offset, size));
    ToFromLE(Slice(b, offset, size));
    assert At(a, k) == Slice(a, offset, size)[k - offset];
    assert At(b, k) == Slice(b, offset, size)[k - offset];
  }

  lemma CoveringCellMoved(image: Image, base: nat, data': Buffers, o: nat, k: nat, j: nat)
    requires WellFormed(image) && RelocatedData(image, base) == Ok(data') && image.relocations.Some?
    requires j < |image.relocations.value| && Covers(Starts(image.regions), image.relocations.value[j], o, k)
    ensures o < |image.regions| == |data'| && image.relocations.value[j].rva >= Starts(image.regions)[o]
    ensures var r := image.relocations.value[j];
            var offset := r.rva - Starts(image.regions)[o];
            && offset <= k < offset + CellSize(r)
            && CellShifted(Data(image.regions)[o], data'[o], offset, CellSize(r), base - image.imageBase)
  {
    hide WellFormed, RelocatedData, CellShifted, Owner, CellSize;
    CellMoved(image, base, data', j);
  }

  lemma CoveredByte(
    image: Image, mid: Image, b: nat, c: nat, x: Buffers, y: Buffers, z: Buffers, o: nat, k: nat, j: nat)
    requires WellFormed(image) && RelocatedData(image, b) == Ok(x) && RelocatedData(image, c) == Ok(y)
    requires WellFormed(mid) && RelocatedData(mid, c) == Ok(z) && o < |image.regions|
    requires mid.relocations == image.relocations && mid.imageBase == b && image.relocations.Some?
    requires Starts(mid.regions) == Starts(image.regions) && Data(mid.regions) == x
    requires j < |image.relocations.value| && Covers(Starts(image.regions), image.relocations.value[j], o, k)
    ensures o < |z| && o < |y| && At(z[o], k) == At(y[o], k)
  {
    hide WellFormed, RelocatedData, CellShifted, At, Starts, CellSize, Data, Covers;
    CoveringCellMoved(image, b, x, o, k, j);
    CoveringCellMoved(image, c, y, o, k, j);
    CoveringCellMoved(mid, c, z, o, k, j);
    var r := image.relocations.value[j];
    ShiftsSame(Data(image.regions)[o], x[o], y[o], z[o], r.rva - Starts(image.regions)[o], CellSize(r),
               b - image.imageBase, c - b, k);
  }

  lemma SameByte(image: Image, b: nat, c: nat, x: Buffers, y: Buffers, z: Buffers, o: nat, k: nat)
    requires WellFormed(image) && RelocatedData(image, b) == Ok(x) && RelocatedData(image, c) == Ok(y)
    requires RelocatedData(Rebased(image, b, x), c) == Ok(z) && o < |image.regions|
    ensures At(z[o], k) == At(y[o], k)
  {
    var mid, f := Rebased(image, b, x), ImageBaseField(image);
    RebasedTables(image, b, x);
    RebasedField(image, b, x);
    hide WellFormed, RelocatedData, CellShifted, CellValue, Slice, At, Owner, PatchAll, ToLE, ImageBaseField, Starts,
      Covers, CellSize;
    if InField(f, o, k) {
      FieldWritten(image, c, y);
      FieldWritten(mid, c, z);
      SameValueSameByte(z[o], y[o], f.value.offset, f.value.size, k);
    } else if Plain(image, o, k) {
      ByteKept(image, b, x, o, k);
      ByteKept(image, c, y, o, k);
      ByteKept(mid, c, z, o, k);
    } else {
      var j: nat :| j < |image.relocations.value| && Covers(Starts(image.regions), image.relocations.value[j], o, k);
      CoveredByte(image, mid, b, c, x, y, z, o, k, j);
    }
  }

  lemma ShiftsSame(
    a: seq<byte>, x: seq<byte>, y: seq<byte>, z: seq<byte>, offset: nat, size: nat, d: int, e: int, k: nat)
    requires CellShifted(a, x, offset, size, d) && CellShifted(x, z, offset, size, e)
    requires CellShifted(a, y, offset, size, d + e) && offset <= k < offset + size
    ensures At(z, k) == At(y, k)
  {
    ShiftsCompose(a, x, z, offset, size, d, e);
    SameValueSameByte(z, y, offset, size, k);
  }

  // The same image, up to zeros at the end of the data
  ghost predicate SameImage(a: Image, b: Image) {
    && a.(regions := b.regions) == b && |a.regions| == |b.regions|
    && forall o :: 0 <= o < |a.regions| ==>
         a.regions[o].base == b.regions[o].base && forall k: nat :: At(a.regions[o].data, k) == At(b.regions[o].data, k)
  }

  lemma FieldBound(image: Image)
    requires WellFormed(image) && ImageBaseField(image).Some?
    ensures 0 <= image.imageBase < Pow256(ImageBaseField(image).value.size)
  {
    var f := ImageBaseField(image).value;
    FromLEBound(Slice(image.regions[f.region].data, f.offset, f.size));
  }

  // The data after the relocations, before the ImageBase field
  function Patched(image: Image, base: int): Result<Buffers, Error>
    requires image.relocations.Some?
  {
    PatchAll(Starts(image.regions), image.imageSize, base - image.imageBase, Data(image.regions),
             image.relocations.value, |image.relocations.value|)
  }

  // When the relocations are valid, only an ImageBase that is too wide for its field fails.
  lemma Outcome(image: Image, base: nat)
    requires WellFormed(image) && image.relocations.Some? && (base != image.imageBase ==> Patched(image, base).Ok?)
    ensures var f, r := ImageBaseField(image), RelocatedData(image, base);
            if base != image.imageBase && f.Some? && base >= Pow256(f.value.size) then r == Err(Overflow) else r.Ok?
  {
    hide CellValue, Slice, At, Pow256, Owner, PatchAll, Covers, CellsApart, CellsMiss, FieldOffset, InField, ToLE;
    if base == image.imageBase {
      assert RelocatedData(image, base) == Ok(Data(image.regions));
    } else if ImageBaseField(image).Some? {
      FieldFound(image, base, Patched(image, base).value);
    }
  }

  // Relocations that are valid are valid for every base and on every data.
  lemma AlwaysPatched(image: Image, mid: Image, b: int, c: int)
    requires image.relocations.Some? && Patched(image, b).Ok?
    requires mid.relocations == image.relocations && mid.imageSize == image.imageSize
    requires Starts(mid.regions) == Starts(image.regions)
    ensures Patched(mid, c).Ok?
  {
    hide PatchAll, Starts, Data;
    var relocations := image.relocations.value;
    PatchAllOk(Starts(image.regions), image.imageSize, b - image.imageBase, Data(image.regions), c - mid.imageBase,
               Data(mid.regions), relocations, |relocations|);
  }

  lemma RelocatedPatched(image: Image, base: nat)
    requires RelocatedData(image, base).Ok? && base != image.imageBase
    ensures image.relocations.Some? && Patched(image, base).Ok?
  {
    hide PatchAll, Starts, Data;
  }

  lemma OutcomeAfter(image: Image, mid: Image, b: nat, c: nat)
    requires WellFormed(image) && WellFormed(mid) && RelocatedData(image, b).Ok? && b != image.imageBase
    requires mid.relocations == image.relocations && mid.imageSize == image.imageSize && mid.imageBase == b
    requires Starts(mid.regions) == Starts(image.regions) && ImageBaseField(mid) == ImageBaseField(image)
    ensures var direct, twice := RelocatedData(image, c), RelocatedData(mid, c);
            if direct.Ok? then twice.Ok? else twice == direct
  {
    hide RelocatedData, WellFormed, ImageBaseField, Patched, Starts;
    RelocatedPatched(image, b);
    AlwaysPatched(image, image, b, c);
    AlwaysPatched(image, mid, b, c);
    Outcome(image, b);
    Outcome(image, c);
    Outcome(mid, c);
    if ImageBaseField(image).Some? {
      FieldBound(image);
    }
  }

  // The second relocation succeeds exactly when the direct one does.
  lemma SameOutcome(image: Image, b: nat, c: nat, x: Buffers)
    requires WellFormed(image) && RelocatedData(image, b) == Ok(x)
    ensures var direct, twice := RelocatedData(image, c), RelocatedData(Rebased(image, b, x), c);
            if direct.Ok? then twice.Ok? else twice == direct
  {
    hide PatchAll, WellFormed, ImageBaseField;
    var mid := Rebased(image, b, x);
    RebasedTables(image, b, x);
    RebasedField(image, b, x);
    if b == image.imageBase {
      assert mid.regions == image.regions;
    } else {
      OutcomeAfter(image, mid, b, c);
    }
  }

  lemma SameData(image: Image, b: nat, c: nat, x: Buffers, y: Buffers, z: Buffers)
    requires WellFormed(image) && RelocatedData(image, b) == Ok(x) && RelocatedData(image, c) == Ok(y)
    requires RelocatedData(Rebased(image, b, x), c) == Ok(z)
    ensures forall o: nat, k: nat :: o < |image.regions| ==> At(z[o], k) == At(y[o], k)
  {
    RebasedTables(image, b, x);
    hide WellFormed, RelocatedData, At, Starts, Data;
    forall o: nat, k: nat | o < |image.regions| ensures At(z[o], k) == At(y[o], k) {
      SameByte(image, b, c, x, y, z, o, k);
    }
  }

  // Relocation is path independent: to b and then to c is the same as straight to c, errors included.
  lemma PathIndependent(image: Image, b: int, c: int, first: Image)
    requires WellFormed(image) && Relocate(image, b) == Ok(first)
    ensures var direct, twice := Relocate(image, c), Relocate(Rebased(image, b, Data(first.regions)), c);
            if direct.Ok? then twice.Ok? && SameImage(twice.value, direct.value) else twice == direct
  {
    OutData(image, b, first);
    var x := Data(first.regions);
    var mid := Rebased(image, b, x);
    hide WellFormed, RelocatedData, At, Starts, Data, Placed, Space, SameImage, Moved;
    if 0 <= c <= Space(image.bits) - image.imageSize {
      SameOutcome(image, b, c, x);
      var y, z := RelocatedData(image, c), RelocatedData(mid, c);
      if y.Ok? {
        SameData(image, b, c, x, y.value, z.value);
        SamePlaced(image, b, c, x, y.value, z.value);
      }
    }
  }

  lemma SamePlaced(image: Image, b: int, c: int, x: Buffers, y: Buffers, z: Buffers)
    requires |x| == |y| == |z| == |image.regions|
    requires forall o: nat, k: nat :: o < |image.regions| ==> At(z[o], k) == At(y[o], k)
    ensures SameImage(Placed(Rebased(image, b, x), c, z), Placed(image, c, y))
  {
    RebasedTables(image, b, x);
    hide At, Starts, Data;
  }
}
