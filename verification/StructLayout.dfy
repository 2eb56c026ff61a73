// scripts/gen_win32_signatures.py: C struct layout over a graph of type definitions, with a cache.

module StructLayout {
  import opened Arithmetic
  import opened Options

  datatype NativeName =
    | Void | Byte | SByte | Boolean | Char | UInt16 | Int16 | UInt32 | Int32 | UInt64 | Int64 | Single | Double
    | IntPtr | UIntPtr | Guid | OtherNative

  datatype Type =
    | Pointer                                          // PointerTo and LPArray
    | Native(native: NativeName)
    | Array(count: nat, child: Type)
    | Ref(isPointer: bool, api: string, name: string)  // isPointer for the target kinds Com and FunctionPointer
    | OtherType

  // A definition. A struct or union finds its anonymous types in nested.
  datatype Def =
    | Record(isUnion: bool, pack: nat, fields: seq<Type>, nested: map<string, nat>)
    | Typedef(def: Type)
    | Enum(base: NativeName)
    | PointerDef                                       // Com, FunctionPointer and ComClassID
    | OtherDef

  // The index of a definition in defs is its identity.
  datatype Graph = Graph(apis: set<string>, defs: seq<Def>, names: map<(string, string), nat>)

  datatype Key = Key(api: string, id: nat, ptr: nat)

  datatype Extent = Extent(size: nat, align: nat)

  datatype Layout = Layout(size: nat, align: nat, offsets: seq<nat>)

  datatype Error = BadNative | BadEnum | BadKind | Unknown | Recursive

  // --- The graph ---

  predicate TypeOk(g: Graph, t: Type) {
    match t
    case Array(_, child) => TypeOk(g, child)
    case Ref(_, api, _) => api in g.apis
    case _ => true
  }

  ghost predicate DefOk(g: Graph, d: Def) {
    match d
    case Record(_, _, fields, nested) =>
      (forall i :: 0 <= i < |fields| ==> TypeOk(g, fields[i])) && NestedOk(g, nested)
    case Typedef(t) => TypeOk(g, t)
    case _ => true
  }

  ghost predicate NestedOk(g: Graph, nested: map<string, nat>) {
    forall n :: n in nested ==> nested[n] < |g.defs|
  }

  ghost predicate GraphOk(g: Graph) {
    && (forall n :: n in g.names ==> g.names[n] < |g.defs|)
    && (forall i :: 0 <= i < |g.defs| ==> DefOk(g, g.defs[i]))
  }

  function Resolve(g: Graph, nested: map<string, nat>, api: string, name: string): Option<nat> {
    if name in nested then Some(nested[name])
    else if (api, name) in g.names then Some(g.names[(api, name)])
    else None
  }

  // A typedef that t names, as a field of any record, has a rank below the bound.
  ghost predicate Below(g: Graph, rank: seq<nat>, t: Type, bound: nat)
    requires |rank| == |g.defs|
  {
    match t
    case Array(_, child) => Below(g, rank, child, bound)
    case Ref(_, api, name) =>
      forall r :: 0 <= r < |g.defs| && g.defs[r].Record? ==>
                    RankBelow(g, rank, Resolve(g, g.defs[r].nested, api, name), bound)
    case _ => true
  }

  ghost predicate RankBelow(g: Graph, rank: seq<nat>, d: Option<nat>, bound: nat)
    requires |rank| == |g.defs|
  {
    d.Some? && d.value < |g.defs| && g.defs[d.value].Typedef? ==> rank[d.value] < bound
  }

  // No chain of typedefs comes back to where it started: the ranks go down along it.
  ghost predicate Grounded(g: Graph, rank: seq<nat>) {
    && |rank| == |g.defs|
    && forall i :: 0 <= i < |g.defs| ==>
         rank[i] < |g.defs| && (g.defs[i].Typedef? ==> Below(g, rank, g.defs[i].def, rank[i]))
  }

  ghost predicate Ready(g: Graph, rank: seq<nat>) {
    GraphOk(g) && Grounded(g, rank)
  }

  // The keys that a layout can meet
  ghost function Universe(g: Graph, ptr: nat): set<Key> {
    set a, i | a in g.apis && 0 <= i < |g.defs| :: Key(a, i, ptr)
  }

  ghost predicate KeyOk(g: Graph, key: Key) {
    key.api in g.apis && key.id < |g.defs| && g.defs[key.id].Record?
  }

  lemma BelowAll(g: Graph, rank: seq<nat>, t: Type)
    requires Ready(g, rank)
    ensures Below(g, rank, t, |g.defs|)
  {
    match t {
      case Array(_, child) => BelowAll(g, rank, child);
      case _ =>
    }
  }

  lemma Smaller(g: Graph, key: Key, seen: set<Key>)
    requires KeyOk(g, key) && key !in seen
    ensures |Universe(g, key.ptr) - (seen + {key})| < |Universe(g, key.ptr) - seen|
  {
    var u := Universe(g, key.ptr);
    assert key in u - seen;
    assert u - (seen + {key}) == (u - seen) - {key};
  }

  // --- Sizes without a cache ---

  function AlignUp(value: nat, align: nat): (r: nat)
    ensures value <= r && (align > 1 ==> r % align == 0 && r < value + align) && (align <= 1 ==> r == value)
  {
    if align <= 1 then value else UpTo(value, align)
  }

  function UpTo(value: nat, align: nat): (r: nat)
    requires align > 1
    ensures value <= r < value + align && r % align == 0
  {
    var q := (value + align - 1) / align;
    Quotient(q * align, align, q, 0);
    q * align
  }

  function NativeExtent(n: NativeName, ptr: nat): Result<Extent, Error> {
    match n
    case Void => Ok(Extent(0, 1))
    case Byte | SByte | Boolean => Ok(Extent(1, 1))
    case Char | UInt16 | Int16 => Ok(Extent(2, 2))
    case UInt32 | Int32 | Single => Ok(Extent(4, 4))
    case UInt64 | Int64 | Double => Ok(Extent(8, 8))
    case IntPtr | UIntPtr => Ok(Extent(ptr, if ptr == 0 then 1 else ptr))
    case Guid => Ok(Extent(16, 4))
    case OtherNative => Err(BadNative)
  }

  // The size of the integer of an enum. The source fails for a base that has no fixed size.
  function EnumExtent(base: NativeName): Result<Extent, Error> {
    if base == IntPtr || base == UIntPtr || base == OtherNative then Err(BadEnum)
    else
      var size := NativeExtent(base, 0).value.size;
      Ok(Extent(size, size))
  }

  function PackedAlign(d: Def, x: Extent): nat
    requires d.Record?
  {
    if d.pack > 0 && d.pack < x.align then d.pack else x.align
  }

  function Place(d: Def, l: Layout, x: Extent): Layout
    requires d.Record?
  {
    var align := PackedAlign(d, x);
    var most := if l.align < align then align else l.align;
    if d.isUnion then Layout(if l.size < x.size then x.size else l.size, most, l.offsets + [0])
    else
      var at := AlignUp(l.size, align);
      Layout(at + x.size, most, l.offsets + [at])
  }

  function Finish(l: Layout): Layout {
    l.(size := AlignUp(l.size, l.align))
  }

  // The size and alignment of a field of type t in the record at index owner. seen holds the records around it.
  ghost function FieldFree(g: Graph, rank: seq<nat>, ptr: nat, owner: nat, t: Type, seen: set<Key>, bound: nat)
    : Result<Extent, Error>
    requires Ready(g, rank) && TypeOk(g, t) && Below(g, rank, t, bound)
    requires owner < |g.defs| && g.defs[owner].Record?
    decreases |Universe(g, ptr) - seen|, bound + 1, t
  {
    match t
    case Pointer => Ok(Extent(ptr, ptr))
    case Native(n) => NativeExtent(n, ptr)
    case Array(count, child) =>
      (match FieldFree(g, rank, ptr, owner, child, seen, bound)
       case Err(e) => Err(e)
       case Ok(x) => Ok(Extent(x.size * count, x.align)))
    case Ref(isPointer, api, name) =>
      if isPointer then Ok(Extent(ptr, ptr))
      else
        var d := Resolve(g, g.defs[owner].nested, api, name);
        if d.None? then Err(Unknown)
        else
          (match g.defs[d.value]
           case Typedef(def) => FieldFree(g, rank, ptr, owner, def, seen, rank[d.value])
           case Enum(base) => EnumExtent(base)
           case Record(_, _, _, _) =>
             (match LayoutFree(g, rank, Key(api, d.value, ptr), seen)
              case Err(e) => Err(e)
              case Ok(l) => Ok(Extent(l.size, l.align)))
           case PointerDef => Ok(Extent(ptr, ptr))
           case OtherDef => Err(BadKind))
    case OtherType => Err(BadKind)
  }

  // The first n fields of a record
  ghost function FieldsFree(g: Graph, rank: seq<nat>, key: Key, seen: set<Key>, n: nat): Result<Layout, Error>
    requires Ready(g, rank) && KeyOk(g, key) && n <= |g.defs[key.id].fields|
    decreases |Universe(g, key.ptr) - seen|, |g.defs| + 2, n
  {
    if n == 0 then Ok(Layout(0, 1, []))
    else
      match FieldsFree(g, rank, key, seen, n - 1)
      case Err(e) => Err(e)
      case Ok(l) =>
        BelowAll(g, rank, g.defs[key.id].fields[n - 1]);
        match FieldFree(g, rank, key.ptr, key.id, g.defs[key.id].fields[n - 1], seen, |g.defs|)
        case Err(e) => Err(e)
        case Ok(x) => Ok(Place(g.defs[key.id], l, x))
  }

  ghost function LayoutFree(g: Graph, rank: seq<nat>, key: Key, seen: set<Key>): Result<Layout, Error>
    requires Ready(g, rank) && KeyOk(g, key)
    decreases |Universe(g, key.ptr) - seen|, 0, 0
  {
    if key in seen then Err(Recursive)
    else
      Smaller(g, key, seen);
      match FieldsFree(g, rank, key, seen + {key}, |g.defs[key.id].fields|)
      case Err(e) => Err(e)
      case Ok(l) => Ok(Finish(l))
  }

  // --- The records around a record matter only for an error ---

  lemma {:induction false} FieldMono(
    g: Graph, rank: seq<nat>, ptr: nat, owner: nat, t: Type, seen: set<Key>, more: set<Key>, bound: nat)
    requires Ready(g, rank) && TypeOk(g, t) && Below(g, rank, t, bound)
    requires owner < |g.defs| && g.defs[owner].Record? && seen <= more
    requires FieldFree(g, rank, ptr, owner, t, more, bound).Ok?
    ensures FieldFree(g, rank, ptr, owner, t, seen, bound) == FieldFree(g, rank, ptr, owner, t, more, bound)
    decreases |Universe(g, ptr) - more|, bound + 1, t
  {
    match t {
      case Array(_, child) => FieldMono(g, rank, ptr, owner, child, seen, more, bound);
      case Ref(false, api, name) =>
        var d := Resolve(g, g.defs[owner].nested, api, name).value;
        match g.defs[d] {
          case Typedef(def) => FieldMono(g, rank, ptr, owner, def, seen, more, rank[d]);
          case Record(_, _, _, _) => LayoutMono(g, rank, Key(api, d, ptr), seen, more);
          case _ =>
        }
      case _ =>
    }
  }

  lemma {:induction false} FieldsMono(
    g: Graph, rank: seq<nat>, key: Key, seen: set<Key>, more: set<Key>, n: nat)
    requires Ready(g, rank) && KeyOk(g, key) && n <= |g.defs[key.id].fields| && seen <= more
    requires FieldsFree(g, rank, key, more, n).Ok?
    ensures FieldsFree(g, rank, key, seen, n) == FieldsFree(g, rank, key, more, n)
    decreases |Universe(g, key.ptr) - more|, |g.defs| + 2, n
  {
    if n > 0 {
      FieldsMono(g, rank, key, seen, more, n - 1);
      BelowAll(g, rank, g.defs[key.id].fields[n - 1]);
      FieldMono(g, rank, key.ptr, key.id, g.defs[key.id].fields[n - 1], seen, more, |g.defs|);
    }
  }

  // A layout that succeeds inside some records is the same inside fewer.
  lemma {:induction false} LayoutMono(g: Graph, rank: seq<nat>, key: Key, seen: set<Key>, more: set<Key>)
    requires Ready(g, rank) && KeyOk(g, key) && seen <= more
    requires LayoutFree(g, rank, key, more).Ok?
    ensures LayoutFree(g, rank, key, seen) == LayoutFree(g, rank, key, more)
    decreases |Universe(g, key.ptr) - more|, 0, 0
  {
    Smaller(g, key, more);
    FieldsMono(g, rank, key, seen + {key}, more + {key}, |g.defs[key.id].fields|);
  }

  // Every layout of a record in seen lays out key too, inside that record.
  ghost predicate Around(g: Graph, rank: seq<nat>, seen: set<Key>, key: Key)
    requires Ready(g, rank) && KeyOk(g, key)
  {
    forall b, s: set<Key> :: b in seen && KeyOk(g, b) && LayoutFree(g, rank, b, s).Ok? ==>
                               b.ptr == key.ptr && LayoutFree(g, rank, key, s + {b}).Ok?
  }

  // The same for a field
  ghost predicate AroundField(
    g: Graph, rank: seq<nat>, seen: set<Key>, ptr: nat, owner: nat, t: Type, bound: nat)
    requires Ready(g, rank) && TypeOk(g, t) && Below(g, rank, t, bound)
    requires owner < |g.defs| && g.defs[owner].Record?
  {
    forall b, s: set<Key> :: b in seen && KeyOk(g, b) && LayoutFree(g, rank, b, s).Ok? ==>
                               b.ptr == ptr && FieldFree(g, rank, ptr, owner, t, s + {b}, bound).Ok?
  }

  lemma {:induction false} FieldOfFields(g: Graph, rank: seq<nat>, key: Key, seen: set<Key>, n: nat, i: nat)
    requires Ready(g, rank) && KeyOk(g, key) && i < n <= |g.defs[key.id].fields|
    requires FieldsFree(g, rank, key, seen, n).Ok?
    ensures Below(g, rank, g.defs[key.id].fields[i], |g.defs|)
    ensures FieldFree(g, rank, key.ptr, key.id, g.defs[key.id].fields[i], seen, |g.defs|).Ok?
  {
    BelowAll(g, rank, g.defs[key.id].fields[i]);
    if i < n - 1 {
      FieldOfFields(g, rank, key, seen, n - 1, i);
    }
  }

  // What is around a record is around its fields, and so is the record itself.
  lemma AroundFields(g: Graph, rank: seq<nat>, seen: set<Key>, key: Key, i: nat)
    requires Ready(g, rank) && KeyOk(g, key) && Around(g, rank, seen, key) && i < |g.defs[key.id].fields|
    ensures Below(g, rank, g.defs[key.id].fields[i], |g.defs|)
    ensures AroundField(g, rank, seen + {key}, key.ptr, key.id, g.defs[key.id].fields[i], |g.defs|)
  {
    var t, n := g.defs[key.id].fields[i], |g.defs[key.id].fields|;
    BelowAll(g, rank, t);
    forall b, s: set<Key> | b in seen + {key} && KeyOk(g, b) && LayoutFree(g, rank, b, s).Ok?
      ensures b.ptr == key.ptr && FieldFree(g, rank, key.ptr, key.id, t, s + {b}, |g.defs|).Ok?
    {
      if b == key {
        FieldOfFields(g, rank, key, s + {key}, n, i);
      } else {
        FieldOfFields(g, rank, key, s + {b} + {key}, n, i);
        FieldMono(g, rank, key.ptr, key.id, t, s + {b}, s + {b} + {key}, |g.defs|);
      }
    }
  }

  lemma AroundChild(
    g: Graph, rank: seq<nat>, seen: set<Key>, ptr: nat, owner: nat, count: nat, child: Type, bound: nat)
    requires Ready(g, rank) && TypeOk(g, child) && Below(g, rank, Array(count, child), bound)
    requires owner < |g.defs| && g.defs[owner].Record?
    requires AroundField(g, rank, seen, ptr, owner, Array(count, child), bound)
    ensures AroundField(g, rank, seen, ptr, owner, child, bound)
  {
    forall b, s: set<Key> | b in seen && KeyOk(g, b) && LayoutFree(g, rank, b, s).Ok?
      ensures b.ptr == ptr && FieldFree(g, rank, ptr, owner, child, s + {b}, bound).Ok?
    {
      assert FieldFree(g, rank, ptr, owner, Array(count, child), s + {b}, bound).Ok?;
    }
  }

  lemma AroundTypedef(
    g: Graph, rank: seq<nat>, seen: set<Key>, ptr: nat, owner: nat, api: string, name: string, bound: nat, d: nat)
    requires Ready(g, rank) && TypeOk(g, Ref(false, api, name)) && Below(g, rank, Ref(false, api, name), bound)
    requires owner < |g.defs| && g.defs[owner].Record?
    requires Resolve(g, g.defs[owner].nested, api, name) == Some(d) && g.defs[d].Typedef?
    requires AroundField(g, rank, seen, ptr, owner, Ref(false, api, name), bound)
    ensures AroundField(g, rank, seen, ptr, owner, g.defs[d].def, rank[d])
  {
    forall b, s: set<Key> | b in seen && KeyOk(g, b) && LayoutFree(g, rank, b, s).Ok?
      ensures b.ptr == ptr && FieldFree(g, rank, ptr, owner, g.defs[d].def, s + {b}, rank[d]).Ok?
    {
      assert FieldFree(g, rank, ptr, owner, Ref(false, api, name), s + {b}, bound).Ok?;
    }
  }

  lemma AroundRecord(
    g: Graph, rank: seq<nat>, seen: set<Key>, ptr: nat, owner: nat, api: string, name: string, bound: nat, d: nat)
    requires Ready(g, rank) && TypeOk(g, Ref(false, api, name)) && Below(g, rank, Ref(false, api, name), bound)
    requires owner < |g.defs| && g.defs[owner].Record?
    requires Resolve(g, g.defs[owner].nested, api, name) == Some(d) && g.defs[d].Record?
    requires AroundField(g, rank, seen, ptr, owner, Ref(false, api, name), bound)
    ensures Around(g, rank, seen, Key(api, d, ptr))
  {
    forall b, s: set<Key> | b in seen && KeyOk(g, b) && LayoutFree(g, rank, b, s).Ok?
      ensures b.ptr == ptr && LayoutFree(g, rank, Key(api, d, ptr), s + {b}).Ok?
    {
      assert FieldFree(g, rank, ptr, owner, Ref(false, api, name), s + {b}, bound).Ok?;
    }
  }

  lemma {:induction false} FieldAnywhere(
    g: Graph, rank: seq<nat>, ptr: nat, owner: nat, t: Type, a: set<Key>, seen: set<Key>, bound: nat)
    requires Ready(g, rank) && TypeOk(g, t) && Below(g, rank, t, bound)
    requires owner < |g.defs| && g.defs[owner].Record? && AroundField(g, rank, seen, ptr, owner, t, bound)
    requires FieldFree(g, rank, ptr, owner, t, a, bound).Ok?
    ensures FieldFree(g, rank, ptr, owner, t, seen, bound) == FieldFree(g, rank, ptr, owner, t, a, bound)
    decreases |Universe(g, ptr) - a|, bound + 1, t
  {
    match t {
      case Array(count, child) =>
        AroundChild(g, rank, seen, ptr, owner, count, child, bound);
        FieldAnywhere(g, rank, ptr, owner, child, a, seen, bound);
      case Ref(false, api, name) =>
        var d := Resolve(g, g.defs[owner].nested, api, name).value;
        match g.defs[d] {
          case Typedef(def) =>
            AroundTypedef(g, rank, seen, ptr, owner, api, name, bound, d);
            FieldAnywhere(g, rank, ptr, owner, def, a, seen, rank[d]);
          case Record(_, _, _, _) =>
            AroundRecord(g, rank, seen, ptr, owner, api, name, bound, d);
            LayoutAnywhere(g, rank, Key(api, d, ptr), a, seen);
          case _ =>
        }
      case _ =>
    }
  }

  lemma {:induction false} FieldsAnywhere(
    g: Graph, rank: seq<nat>, key: Key, a: set<Key>, seen: set<Key>, n: nat)
    requires Ready(g, rank) && KeyOk(g, key) && n <= |g.defs[key.id].fields| && Around(g, rank, seen, key)
    requires FieldsFree(g, rank, key, a, n).Ok?
    ensures FieldsFree(g, rank, key, seen + {key}, n) == FieldsFree(g, rank, key, a, n)
    decreases |Universe(g, key.ptr) - a|, |g.defs| + 2, n
  {
    if n > 0 {
      FieldsAnywhere(g, rank, key, a, seen, n - 1);
      AroundFields(g, rank, seen, key, n - 1);
      FieldAnywhere(g, rank, key.ptr, key.id, g.defs[key.id].fields[n - 1], a, seen + {key}, |g.defs|);
    }
  }

  // A layout that succeeds somewhere is the same inside every chain of records that lead to it.
  lemma {:induction false} LayoutAnywhere(g: Graph, rank: seq<nat>, key: Key, a: set<Key>, seen: set<Key>)
    requires Ready(g, rank) && KeyOk(g, key) && Around(g, rank, seen, key)
    requires LayoutFree(g, rank, key, a).Ok?
    ensures LayoutFree(g, rank, key, seen) == LayoutFree(g, rank, key, a)
    decreases |Universe(g, key.ptr) - a|, 0, 0
  {
    assert key in seen ==> LayoutFree(g, rank, key, a + {key}).Ok?;
    Smaller(g, key, a);
    FieldsAnywhere(g, rank, key, a + {key}, seen, |g.defs[key.id].fields|);
  }

  // --- Records that contain themselves ---

  // A field of type t of the record at owner holds the record id by value, through arrays and typedefs.
  ghost predicate Embeds(g: Graph, rank: seq<nat>, owner: nat, t: Type, bound: nat, key: Key)
    requires Ready(g, rank) && TypeOk(g, t) && Below(g, rank, t, bound)
    requires owner < |g.defs| && g.defs[owner].Record?
    decreases bound + 1, t
  {
    match t
    case Array(_, child) => Embeds(g, rank, owner, child, bound, key)
    case Ref(false, api, name) =>
      var d := Resolve(g, g.defs[owner].nested, api, name);
      d.Some? &&
      (match g.defs[d.value]
       case Typedef(def) => Embeds(g, rank, owner, def, rank[d.value], key)
       case Record(_, _, _, _) => key.api == api && key.id == d.value
       case _ => false)
    case _ => false
  }

  // The record outer has a field that holds the record inner by value.
  ghost predicate Contains(g: Graph, rank: seq<nat>, outer: Key, inner: Key)
    requires Ready(g, rank) && KeyOk(g, outer)
  {
    inner.ptr == outer.ptr && exists i :: 0 <= i < |g.defs[outer.id].fields| && EmbedsAt(g, rank, outer, i, inner)
  }

  ghost predicate EmbedsAt(g: Graph, rank: seq<nat>, outer: Key, i: nat, inner: Key)
    requires Ready(g, rank) && KeyOk(g, outer) && i < |g.defs[outer.id].fields|
  {
    BelowAll(g, rank, g.defs[outer.id].fields[i]);
    Embeds(g, rank, outer.id, g.defs[outer.id].fields[i], |g.defs|, inner)
  }

  lemma {:induction false} FieldEmbeds(
    g: Graph, rank: seq<nat>, ptr: nat, owner: nat, t: Type, seen: set<Key>, bound: nat, key: Key)
    requires Ready(g, rank) && TypeOk(g, t) && Below(g, rank, t, bound)
    requires owner < |g.defs| && g.defs[owner].Record? && key.ptr == ptr && Embeds(g, rank, owner, t, bound, key)
    requires FieldFree(g, rank, ptr, owner, t, seen, bound).Ok?
    ensures KeyOk(g, key) && LayoutFree(g, rank, key, seen).Ok?
    decreases bound + 1, t
  {
    match t {
      case Array(_, child) => FieldEmbeds(g, rank, ptr, owner, child, seen, bound, key);
      case Ref(false, api, name) =>
        var d := Resolve(g, g.defs[owner].nested, api, name).value;
        match g.defs[d] {
          case Typedef(def) => FieldEmbeds(g, rank, ptr, owner, def, seen, rank[d], key);
          case _ =>
        }
      case _ =>
    }
  }

  // A chain of records, each inside the one before it
  ghost predicate Chain(g: Graph, rank: seq<nat>, path: seq<Key>)
    requires Ready(g, rank)
  {
    && (forall i :: 0 <= i < |path| ==> KeyOk(g, path[i]))
    && (forall i :: 0 < i < |path| ==> Contains(g, rank, path[i - 1], path[i]))
  }

  lemma {:induction false} ChainIsLaidOut(g: Graph, rank: seq<nat>, path: seq<Key>, seen: set<Key>)
    requires Ready(g, rank) && path != [] && Chain(g, rank, path) && LayoutFree(g, rank, path[0], seen).Ok?
    ensures LayoutFree(g, rank, path[|path| - 1], seen).Ok?
    ensures |path| > 1 ==> LayoutFree(g, rank, path[|path| - 1], seen + {path[0]}).Ok?
    decreases |path|
  {
    if |path| > 1 {
      var outer, inner := path[0], path[1];
      assert Contains(g, rank, outer, inner);
      var i :| 0 <= i < |g.defs[outer.id].fields| && EmbedsAt(g, rank, outer, i, inner);
      FieldOfFields(g, rank, outer, seen + {outer}, |g.defs[outer.id].fields|, i);
      FieldEmbeds(g, rank, outer.ptr, outer.id, g.defs[outer.id].fields[i], seen + {outer}, |g.defs|, inner);
      ChainIsLaidOut(g, rank, path[1..], seen + {outer});
      LayoutMono(g, rank, path[|path| - 1], seen, seen + {outer});
    }
  }

  // A record that contains itself, at any depth, has no layout; and finding that out terminates.
  lemma SelfContaining(g: Graph, rank: seq<nat>, path: seq<Key>, seen: set<Key>)
    requires Ready(g, rank) && |path| > 1 && Chain(g, rank, path) && path[|path| - 1] == path[0]
    ensures LayoutFree(g, rank, path[0], seen).Err?
  {
    if LayoutFree(g, rank, path[0], seen).Ok? {
      ChainIsLaidOut(g, rank, path, seen);
    }
  }

  // The field that makes a layout recursive holds a record that makes it recursive.
  lemma {:induction false} RecursiveField(
    g: Graph, rank: seq<nat>, ptr: nat, owner: nat, t: Type, seen: set<Key>, bound: nat) returns (key: Key)
    requires Ready(g, rank) && TypeOk(g, t) && Below(g, rank, t, bound)
    requires owner < |g.defs| && g.defs[owner].Record?
    requires FieldFree(g, rank, ptr, owner, t, seen, bound) == Err(Recursive)
    ensures KeyOk(g, key) && key.ptr == ptr && Embeds(g, rank, owner, t, bound, key)
    ensures LayoutFree(g, rank, key, seen) == Err(Recursive)
    decreases bound + 1, t
  {
    match t {
      case Array(_, child) => key := RecursiveField(g, rank, ptr, owner, child, seen, bound);
      case Ref(_, api, name) =>
        var d := Resolve(g, g.defs[owner].nested, api, name).value;
        match g.defs[d] {
          case Typedef(def) => key := RecursiveField(g, rank, ptr, owner, def, seen, rank[d]);
          case _ => key := Key(api, d, ptr);
        }
    }
  }

  lemma {:induction false} RecursiveFields(g: Graph, rank: seq<nat>, key: Key, seen: set<Key>, n: nat)
    returns (inner: Key)
    requires Ready(g, rank) && KeyOk(g, key) && n <= |g.defs[key.id].fields|
    requires FieldsFree(g, rank, key, seen, n) == Err(Recursive)
    ensures KeyOk(g, inner) && Contains(g, rank, key, inner) && LayoutFree(g, rank, inner, seen) == Err(Recursive)
  {
    if FieldsFree(g, rank, key, seen, n - 1).Err? {
      inner := RecursiveFields(g, rank, key, seen, n - 1);
    } else {
      BelowAll(g, rank, g.defs[key.id].fields[n - 1]);
      inner := RecursiveField(g, rank, key.ptr, key.id, g.defs[key.id].fields[n - 1], seen, |g.defs|);
      assert EmbedsAt(g, rank, key, n - 1, inner);
    }
  }

  ghost function Keys(path: seq<Key>): (s: set<Key>) {
    set k | k in path
  }

  lemma Extend(g: Graph, rank: seq<nat>, path: seq<Key>, key: Key, inner: Key)
    requires Ready(g, rank) && Chain(g, rank, path + [key]) && KeyOk(g, key) && KeyOk(g, inner)
    requires Contains(g, rank, key, inner)
    ensures Chain(g, rank, path + [key] + [inner]) && inner.ptr == key.ptr
    ensures Keys(path + [key]) == Keys(path) + {key}
  {
    var shorter, longer := path + [key], path + [key] + [inner];
    forall i | 0 < i < |longer| ensures Contains(g, rank, longer[i - 1], longer[i]) {
      if i < |shorter| {
        assert Contains(g, rank, shorter[i - 1], shorter[i]);
      }
    }
  }

  // The last record of the path is in it twice.
  ghost predicate Repeats(path: seq<Key>) {
    path != [] && path[|path| - 1] in Keys(path[..|path| - 1])
  }

  // The error for a recursive record is exact: there is a chain of records from the root that meets a record twice.
  lemma {:induction false} RecursiveMeansCycle(g: Graph, rank: seq<nat>, path: seq<Key>, key: Key, seen: set<Key>)
    returns (cycle: seq<Key>)
    requires Ready(g, rank) && Chain(g, rank, path + [key]) && KeyOk(g, key) && seen == Keys(path)
    requires LayoutFree(g, rank, key, seen) == Err(Recursive)
    ensures Chain(g, rank, cycle) && path + [key] <= cycle && Repeats(cycle)
    decreases |Universe(g, key.ptr) - seen|
  {
    if key in seen {
      cycle := path + [key];
    } else {
      var inner := NextRecursive(g, rank, key, seen);
      Extend(g, rank, path, key, inner);
      hide Chain, LayoutFree, Contains, KeyOk, Keys, Universe, Repeats, Ready;
      cycle := RecursiveMeansCycle(g, rank, path + [key], inner, seen + {key});
    }
  }

  lemma NextRecursive(g: Graph, rank: seq<nat>, key: Key, seen: set<Key>) returns (inner: Key)
    requires Ready(g, rank) && KeyOk(g, key) && key !in seen
    requires LayoutFree(g, rank, key, seen) == Err(Recursive)
    ensures KeyOk(g, inner) && Contains(g, rank, key, inner)
    ensures LayoutFree(g, rank, inner, seen + {key}) == Err(Recursive)
    ensures |Universe(g, key.ptr) - (seen + {key})| < |Universe(g, key.ptr) - seen|
  {
    Smaller(g, key, seen);
    inner := RecursiveFields(g, rank, key, seen + {key}, |g.defs[key.id].fields|);
  }

  // --- What a layout is ---

  function PlaceAll(d: Def, xs: seq<Extent>, n: nat): Layout
    requires d.Record? && n <= |xs|
  {
    if n == 0 then Layout(0, 1, []) else Place(d, PlaceAll(d, xs, n - 1), xs[n - 1])
  }

  predicate Multiple(v: nat, align: nat) {
    align <= 1 || v % align == 0
  }

  // r is the least multiple of align at or after v.
  ghost predicate LeastMultiple(r: nat, v: nat, align: nat) {
    v <= r && Multiple(r, align) && forall m: nat :: v <= m && Multiple(m, align) ==> r <= m
  }

  lemma AlignUpLeast(v: nat, align: nat)
    ensures LeastMultiple(AlignUp(v, align), v, align)
  {
    var r := AlignUp(v, align);
    forall m: nat | v <= m && Multiple(m, align) ensures r <= m {
      if align > 1 && m < r {
        var q, p := r / align, m / align;
        assert r == align * q && m == align * p;
        assert align * (q - p) == r - m;
        if q - p >= 1 {
          AtLeast(align, q - p);
        } else {
          AtLeast(align, p - q + 1);
        }
      }
    }
  }

  // The end of the fields before field i of a struct
  function EndBefore(l: Layout, xs: seq<Extent>, i: nat): nat
    requires |l.offsets| == |xs| && i <= |xs|
  {
    if i == 0 then 0 else l.offsets[i - 1] + xs[i - 1].size
  }

  // Each field lies at the first multiple of its packed alignment after the field before it (in a union, at 0). The
  // alignment is the largest of the packed alignments, and the size is the least multiple of it that holds the fields.
  ghost predicate GoodLayout(d: Def, xs: seq<Extent>, l: Layout)
    requires d.Record?
  {
    && |l.offsets| == |xs|
    && (forall i :: 0 <= i < |xs| ==> PackedAlign(d, xs[i]) <= l.align && l.offsets[i] + xs[i].size <= l.size)
    && (l.align == 1 || exists i :: 0 <= i < |xs| && PackedAlign(d, xs[i]) == l.align)
    && (d.isUnion ==> forall i :: 0 <= i < |xs| ==> l.offsets[i] == 0)
    && (!d.isUnion ==>
          && (forall i: nat :: i < |xs| ==> LeastMultiple(l.offsets[i], EndBefore(l, xs, i), PackedAlign(d, xs[i])))
          && (forall i, j :: 0 <= i < j < |xs| ==> l.offsets[i] + xs[i].size <= l.offsets[j]))
    && exists end: nat :: LeastMultiple(l.size, end, l.align) && Holds(d, xs, l, end)
  }

  // end is where the last field ends, or the longest one of a union.
  ghost predicate Holds(d: Def, xs: seq<Extent>, l: Layout, end: nat)
    requires d.Record? && |l.offsets| == |xs|
  {
    if !d.isUnion then end == EndBefore(l, xs, |xs|)
    else
      && (forall i :: 0 <= i < |xs| ==> xs[i].size <= end)
      && (end == 0 || exists i :: 0 <= i < |xs| && xs[i].size == end)
  }

  lemma {:induction false} PlacedFields(d: Def, xs: seq<Extent>, n: nat)
    requires d.Record? && n <= |xs|
    ensures var l := PlaceAll(d, xs, n);
            && |l.offsets| == n
            && (forall i :: 0 <= i < n ==> PackedAlign(d, xs[i]) <= l.align && l.offsets[i] + xs[i].size <= l.size)
            && (l.align == 1 || exists i :: 0 <= i < n && PackedAlign(d, xs[i]) == l.align)
            && (d.isUnion ==> forall i :: 0 <= i < n ==> l.offsets[i] == 0)
            && (!d.isUnion ==> forall i, j :: 0 <= i < j < n ==> l.offsets[i] + xs[i].size <= l.offsets[j])
            && Holds(d, xs[..n], l, l.size)
  {
    if n > 0 {
      PlacedFields(d, xs, n - 1);
      var before, l := PlaceAll(d, xs, n - 1), PlaceAll(d, xs, n);
      assert xs[..n - 1] == xs[..n][..n - 1];
      assert PackedAlign(d, xs[n - 1]) <= l.align;
      if l.align != before.align {
        assert PackedAlign(d, xs[n - 1]) == l.align;
      }
      assert xs[..n][n - 1] == xs[n - 1];
    }
  }

  lemma {:induction false} PlacedLeast(d: Def, xs: seq<Extent>, n: nat, i: nat)
    requires d.Record? && !d.isUnion && i < n <= |xs|
    ensures var l := PlaceAll(d, xs, n);
            |l.offsets| == n && LeastMultiple(l.offsets[i], EndBefore(l, xs[..n], i), PackedAlign(d, xs[i]))
  {
    PlacedEnd(d, xs, n - 1);
    hide LeastMultiple;
    var before, l := PlaceAll(d, xs, n - 1), PlaceAll(d, xs, n);
    if i == n - 1 {
      AlignUpLeast(before.size, PackedAlign(d, xs[i]));
    } else {
      hide PackedAlign, AlignUp;
      PlacedLeast(d, xs, n - 1, i);
    }
  }

  lemma PlacedEnd(d: Def, xs: seq<Extent>, n: nat)
    requires d.Record? && !d.isUnion && n <= |xs|
    ensures var l := PlaceAll(d, xs, n); |l.offsets| == n && l.size == EndBefore(l, xs[..n], n)
  {
    PlacedFields(d, xs, n);
  }

  lemma PlacedIsGood(d: Def, xs: seq<Extent>)
    requires d.Record?
    ensures GoodLayout(d, xs, Finish(PlaceAll(d, xs, |xs|)))
  {
    var n := |xs|;
    var placed := PlaceAll(d, xs, n);
    var l := Finish(placed);
    PlacedFields(d, xs, n);
    assert xs[..n] == xs;
    if !d.isUnion {
      forall i: nat | i < n ensures LeastMultiple(l.offsets[i], EndBefore(l, xs, i), PackedAlign(d, xs[i])) {
        PlacedLeast(d, xs, n, i);
      }
    }
    AlignUpLeast(placed.size, placed.align);
    assert Holds(d, xs, l, placed.size);
  }

  // The extents of the first n fields
  ghost function Extents(g: Graph, rank: seq<nat>, key: Key, seen: set<Key>, n: nat): (xs: seq<Extent>)
    requires Ready(g, rank) && KeyOk(g, key) && n <= |g.defs[key.id].fields|
    requires FieldsFree(g, rank, key, seen, n).Ok?
    ensures |xs| == n
    decreases n
  {
    if n == 0 then []
    else
      BelowAll(g, rank, g.defs[key.id].fields[n - 1]);
      Extents(g, rank, key, seen, n - 1)
      + [FieldFree(g, rank, key.ptr, key.id, g.defs[key.id].fields[n - 1], seen, |g.defs|).value]
  }

  lemma {:induction false} FieldsArePlaced(g: Graph, rank: seq<nat>, key: Key, seen: set<Key>, n: nat)
    requires Ready(g, rank) && KeyOk(g, key) && n <= |g.defs[key.id].fields|
    requires FieldsFree(g, rank, key, seen, n).Ok?
    ensures var xs := Extents(g, rank, key, seen, n);
            FieldsFree(g, rank, key, seen, n) == Ok(PlaceAll(g.defs[key.id], xs, n))
  {
    if n > 0 {
      FieldsArePlaced(g, rank, key, seen, n - 1);
      PlacePrefix(g.defs[key.id], Extents(g, rank, key, seen, n), n - 1);
    }
  }

  lemma {:induction false} PlacePrefix(d: Def, xs: seq<Extent>, n: nat)
    requires d.Record? && n <= |xs|
    ensures PlaceAll(d, xs, n) == PlaceAll(d, xs[..n], n)
    decreases n
  {
    if n > 0 {
      PlacePrefix(d, xs, n - 1);
      PlacePrefix(d, xs[..n], n - 1);
      assert xs[..n][..n - 1] == xs[..n - 1];
    }
  }

  // At every depth: if a record has a layout, every record in a chain below it has a good layout of its own.
  lemma EveryDepth(g: Graph, rank: seq<nat>, path: seq<Key>) returns (xs: seq<Extent>)
    requires Ready(g, rank) && path != [] && Chain(g, rank, path) && LayoutFree(g, rank, path[0], {}).Ok?
    ensures var key := path[|path| - 1];
            LayoutFree(g, rank, key, {}).Ok? && GoodLayout(g.defs[key.id], xs, LayoutFree(g, rank, key, {}).value)
    ensures var key := path[|path| - 1];
            |xs| == |g.defs[key.id].fields| &&
            forall i :: 0 <= i < |xs| ==> Below(g, rank, g.defs[key.id].fields[i], |g.defs|)
                                          && FieldFree(g, rank, key.ptr, key.id, g.defs[key.id].fields[i], {key},
                                             |g.defs|)
                                             == Ok(xs[i])
  {
    var key := path[|path| - 1];
    var d := g.defs[key.id];
    ChainIsLaidOut(g, rank, path, {});
    assert {} + {key} == {key};
    xs := Extents(g, rank, key, {key}, |d.fields|);
    FieldsArePlaced(g, rank, key, {key}, |d.fields|);
    PlacedIsGood(d, xs);
    forall i | 0 <= i < |xs|
      ensures Below(g, rank, d.fields[i], |g.defs|)
              && FieldFree(g, rank, key.ptr, key.id, d.fields[i], {key}, |g.defs|) == Ok(xs[i])
    {
      ExtentAt(g, rank, key, {key}, |d.fields|, i);
    }
  }

  lemma {:induction false} ExtentAt(g: Graph, rank: seq<nat>, key: Key, seen: set<Key>, n: nat, i: nat)
    requires Ready(g, rank) && KeyOk(g, key) && i < n <= |g.defs[key.id].fields|
    requires FieldsFree(g, rank, key, seen, n).Ok?
    ensures Below(g, rank, g.defs[key.id].fields[i], |g.defs|)
    ensures FieldFree(g, rank, key.ptr, key.id, g.defs[key.id].fields[i], seen, |g.defs|)
         == Ok(Extents(g, rank, key, seen, n)[i])
  {
    BelowAll(g, rank, g.defs[key.id].fields[i]);
    if i < n - 1 {
      ExtentAt(g, rank, key, seen, n - 1, i);
    }
  }

  // --- Sizes with the caches ---

  // What a cache holds is what the layout without a cache gives.
  ghost predicate CacheOk(g: Graph, rank: seq<nat>, extents: map<Key, Extent>, offsets: map<Key, seq<nat>>)
    requires Ready(g, rank)
  {
    && extents.Keys == offsets.Keys
    && forall k :: k in extents ==>
         KeyOk(g, k) && LayoutFree(g, rank, k, {}) == Ok(Layout(extents[k].size, extents[k].align, offsets[k]))
  }

  function SizeOf(r: Result<Layout, Error>): Result<Extent, Error> {
    match r
    case Err(e) => Err(e)
    case Ok(l) => Ok(Extent(l.size, l.align))
  }

  lemma CacheAdds(
    g: Graph, rank: seq<nat>, layouts: map<Key, Extent>, offsets: map<Key, seq<nat>>, key: Key, seen: set<Key>,
    l: Layout)
    requires Ready(g, rank) && CacheOk(g, rank, layouts, offsets) && KeyOk(g, key)
    requires LayoutFree(g, rank, key, seen) == Ok(l)
    ensures CacheOk(g, rank, layouts[key := Extent(l.size, l.align)], offsets[key := l.offsets])
  {
    LayoutMono(g, rank, key, {}, seen);
    hide LayoutFree;
  }

  class TypeResolver {
    const graph: Graph
    var layouts: map<Key, Extent>
    var offsets: map<Key, seq<nat>>

    ghost predicate Valid(rank: seq<nat>)
      reads this
    {
      Ready(graph, rank) && CacheOk(graph, rank, layouts, offsets)
    }

    constructor (g: Graph, ghost rank: seq<nat>)
      requires Ready(g, rank)
      ensures Valid(rank) && graph == g
    {
      graph := g;
      layouts := map[];
      offsets := map[];
    }

    // seen is the tuple of records around this one. Whatever was laid out before, in whatever order, the result is
    // that of the layout without a cache.
    method LayoutStruct(key: Key, seen: seq<Key>, ghost rank: seq<nat>) returns (r: Result<Extent, Error>)
      requires Valid(rank) && KeyOk(graph, key) && Around(graph, rank, Keys(seen), key)
      modifies this
      ensures Valid(rank) && r == SizeOf(LayoutFree(graph, rank, key, Keys(seen))) && (r.Ok? ==> key in offsets)
      decreases |Universe(graph, key.ptr) - Keys(seen)|, 0, 0
    {
      if key in layouts {
        LayoutAnywhere(graph, rank, key, {}, Keys(seen));
        return Ok(layouts[key]);
      }
      if key in seen {
        return Err(Recursive);
      }
      Smaller(graph, key, Keys(seen));
      assert Keys(seen + [key]) == Keys(seen) + {key};
      var d := graph.defs[key.id];
      var placed := Layout(0, 1, []);
      var n := 0;
      while n < |d.fields|
        invariant n <= |d.fields| && Valid(rank)
        invariant FieldsFree(graph, rank, key, Keys(seen) + {key}, n) == Ok(placed)
      {
        AroundFields(graph, rank, Keys(seen), key, n);
        var x := LayoutField(key.ptr, key.id, d.fields[n], seen + [key], rank, |graph.defs|);
        if x.Err? {
          FieldsFail(graph, rank, key, Keys(seen) + {key}, n + 1, |d.fields|);
          return Err(x.error);
        }
        placed := Place(d, placed, x.value);
        n := n + 1;
      }
      var l := Finish(placed);
      assert LayoutFree(graph, rank, key, Keys(seen)) == Ok(l);
      hide CacheOk, FieldsFree, LayoutFree, Ready;
      CacheAdds(graph, rank, layouts, offsets, key, Keys(seen), l);
      layouts := layouts[key := Extent(l.size, l.align)];
      offsets := offsets[key := l.offsets];
      r := Ok(layouts[key]);
    }

    method LayoutField(ptr: nat, owner: nat, t: Type, seen: seq<Key>, ghost rank: seq<nat>, ghost bound: nat)
      returns (r: Result<Extent, Error>)
      requires Valid(rank) && TypeOk(graph, t) && Below(graph, rank, t, bound)
      requires owner < |graph.defs| && graph.defs[owner].Record?
      requires AroundField(graph, rank, Keys(seen), ptr, owner, t, bound)
      modifies this
      ensures Valid(rank) && r == FieldFree(graph, rank, ptr, owner, t, Keys(seen), bound)
      decreases |Universe(graph, ptr) - Keys(seen)|, bound + 1, t
    {
      match t {
        case Pointer => return Ok(Extent(ptr, ptr));
        case Native(n) => return NativeExtent(n, ptr);
        case Array(count, child) =>
          AroundChild(graph, rank, Keys(seen), ptr, owner, count, child, bound);
          var x := LayoutField(ptr, owner, child, seen, rank, bound);
          if x.Err? {
            return x;
          }
          return Ok(Extent(x.value.size * count, x.value.align));
        case OtherType => return Err(BadKind);
        case Ref(isPointer, api, name) =>
          if isPointer {
            return Ok(Extent(ptr, ptr));
          }
          var d := Resolve(graph, graph.defs[owner].nested, api, name);
          if d.None? {
            return Err(Unknown);
          }
          match graph.defs[d.value] {
            case Typedef(def) =>
              AroundTypedef(graph, rank, Keys(seen), ptr, owner, api, name, bound, d.value);
              r := LayoutField(ptr, owner, def, seen, rank, rank[d.value]);
            case Enum(base) => return EnumExtent(base);
            case Record(_, _, _, _) =>
              AroundRecord(graph, rank, Keys(seen), ptr, owner, api, name, bound, d.value);
              r := LayoutStruct(Key(api, d.value, ptr), seen, rank);
            case PointerDef => return Ok(Extent(ptr, ptr));
            case OtherDef => return Err(BadKind);
          }
      }
    }

    // The size of a record and the offsets of its fields, as any caller asks for them
    method FieldOffsets(key: Key, ghost rank: seq<nat>) returns (r: Result<Layout, Error>)
      requires Valid(rank) && KeyOk(graph, key)
      modifies this
      ensures Valid(rank) && r == LayoutFree(graph, rank, key, {})
    {
      assert Keys([]) == {};
      var x := LayoutStruct(key, [], rank);
      if x.Err? {
        return Err(x.error);
      }
      return Ok(Layout(x.value.size, x.value.align, offsets[key]));
    }
  }

  lemma {:induction false} FieldsFail(g: Graph, rank: seq<nat>, key: Key, seen: set<Key>, n: nat, m: nat)
    requires Ready(g, rank) && KeyOk(g, key) && n <= m <= |g.defs[key.id].fields|
    requires FieldsFree(g, rank, key, seen, n).Err?
    ensures FieldsFree(g, rank, key, seen, m) == FieldsFree(g, rank, key, seen, n)
  {
    if n < m {
      FieldsFail(g, rank, key, seen, n, m - 1);
    }
  }
}
