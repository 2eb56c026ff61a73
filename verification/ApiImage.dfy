// speakeasy/windows/api_image.py: the export directory of a synthetic module. speakeasy/windows/loaders.py: the test
// for a forwarder.

module ApiImage {
  import opened Options
  import opened Bytes

  // The encoded bytes of a string
  type Text = seq<byte>

  datatype Spec = Spec(name: Option<Text>, ordinal: Option<nat>, isData: bool, forwarder: Option<Text>)

  // What one ordinal exports
  datatype Target = Target(isData: bool, forwarder: Option<Text>) {
    predicate IsFunction() {
      forwarder.None? && !isData
    }

    predicate IsData() {
      forwarder.None? && isData
    }
  }

  datatype Error = BadName | NotAscii | TooMany | Conflict | DoesNotFit | Overflow

  // --- The order of the exports ---

  predicate LexLess(a: Text, b: Text) {
    b != [] && (a == [] || a[0] < b[0] || (a[0] == b[0] && LexLess(a[1..], b[1..])))
  }

  lemma {:induction false} LexTrans(a: Text, b: Text, c: Text)
    requires LexLess(a, b) && LexLess(b, c)
    ensures LexLess(a, c)
  {
    if a != [] && a[0] == b[0] == c[0] {
      LexTrans(a[1..], b[1..], c[1..]);
    }
  }

  lemma {:induction false} LexTotal(a: Text, b: Text)
    ensures a == b || LexLess(a, b) || LexLess(b, a)
  {
    if a != [] && b != [] && a[0] == b[0] {
      LexTotal(a[1..], b[1..]);
      assert a == [a[0]] + a[1..] && b == [b[0]] + b[1..];
    }
  }

  lemma {:induction false} LexStrict(a: Text)
    ensures !LexLess(a, a)
  {
    if a != [] {
      LexStrict(a[1..]);
    }
  }

  function Key(s: Spec): nat {
    if s.ordinal.Some? then s.ordinal.value else 0
  }

  // The sort key: named exports first, in the byte order of the names, then the ordinal
  predicate Precedes(a: Spec, b: Spec) {
    match (a.name, b.name)
    case (Some(x), Some(y)) => LexLess(x, y) || (x == y && Key(a) <= Key(b))
    case (Some(_), None) => true
    case (None, Some(_)) => false
    case (None, None) => Key(a) <= Key(b)
  }

  lemma PrecedesTrans(a: Spec, b: Spec, c: Spec)
    requires Precedes(a, b) && Precedes(b, c)
    ensures Precedes(a, c)
  {
    if a.name.Some? && b.name.Some? && c.name.Some? {
      if LexLess(a.name.value, b.name.value) && LexLess(b.name.value, c.name.value) {
        LexTrans(a.name.value, b.name.value, c.name.value);
      }
    }
  }

  lemma PrecedesTotal(a: Spec, b: Spec)
    ensures Precedes(a, b) || Precedes(b, a)
  {
    if a.name.Some? && b.name.Some? {
      LexTotal(a.name.value, b.name.value);
    }
  }

  function Insert(s: Spec, sorted: seq<Spec>): (r: seq<Spec>)
    ensures |r| == |sorted| + 1 && multiset(r) == multiset(sorted) + multiset{s}
  {
    if sorted == [] then [s]
    else if Precedes(sorted[0], s) then
      assert sorted == [sorted[0]] + sorted[1..];
      [sorted[0]] + Insert(s, sorted[1..])
    else [s] + sorted
  }

  // A stable sort
  function Sorted(exports: seq<Spec>): (r: seq<Spec>)
    ensures |r| == |exports| && multiset(r) == multiset(exports)
  {
    if exports == [] then []
    else
      var n := |exports| - 1;
      assert exports == exports[..n] + [exports[n]];
      Insert(exports[n], Sorted(exports[..n]))
  }

  ghost predicate InOrder(specs: seq<Spec>) {
    forall i, j :: 0 <= i < j < |specs| ==> Precedes(specs[i], specs[j])
  }

  lemma {:induction false} InsertInOrder(s: Spec, sorted: seq<Spec>)
    requires InOrder(sorted)
    ensures InOrder(Insert(s, sorted))
  {
    if sorted != [] {
      PrecedesTotal(sorted[0], s);
      hide Precedes;
      if Precedes(sorted[0], s) {
        InsertInOrder(s, sorted[1..]);
        forall x | x in Insert(s, sorted[1..]) ensures Precedes(sorted[0], x) {
          InsertMember(s, sorted[1..], x);
        }
        ConsInOrder(sorted[0], Insert(s, sorted[1..]));
      } else {
        forall x | x in sorted ensures Precedes(s, x) {
          if x != sorted[0] {
            assert Precedes(sorted[0], x);
            PrecedesTrans(s, sorted[0], x);
          }
        }
        ConsInOrder(s, sorted);
      }
    }
  }

  lemma InsertMember(s: Spec, sorted: seq<Spec>, x: Spec)
    requires x in Insert(s, sorted)
    ensures x == s || x in sorted
  {
    assert x in multiset(Insert(s, sorted));
  }

  lemma ConsInOrder(s: Spec, rest: seq<Spec>)
    requires InOrder(rest) && forall x :: x in rest ==> Precedes(s, x)
    ensures InOrder([s] + rest)
  {
    hide Precedes;
    var r := [s] + rest;
    forall i, j | 0 <= i < j < |r| ensures Precedes(r[i], r[j]) {
      assert r[j] == rest[j - 1];
      if i > 0 {
        assert Precedes(rest[i - 1], rest[j - 1]);
      }
    }
  }

  lemma {:induction false} SortedInOrder(exports: seq<Spec>)
    ensures InOrder(Sorted(exports))
  {
    if exports != [] {
      SortedInOrder(exports[..|exports| - 1]);
      InsertInOrder(exports[|exports| - 1], Sorted(exports[..|exports| - 1]));
    }
  }

  // --- The ordinals ---

  ghost function From(used: set<nat>, candidate: nat): set<nat> {
    set u | u in used && candidate <= u
  }

  function NextFree(used: set<nat>, candidate: nat): (c: nat)
    ensures candidate <= c && c !in used && forall k :: candidate <= k < c ==> k in used
    decreases |From(used, candidate)|
  {
    if candidate !in used then candidate
    else
      assert From(used, candidate) == From(used, candidate + 1) + {candidate};
      NextFree(used, candidate + 1)
  }

  function Explicit(specs: seq<Spec>): set<nat> {
    set s | s in specs && s.ordinal.Some? :: s.ordinal.value
  }

  // The ordinals of the specs from i on
  function Assign(specs: seq<Spec>, i: nat, used: set<nat>, candidate: nat): (ords: seq<nat>)
    requires i <= |specs|
    ensures |ords| == |specs| - i
    decreases |specs| - i
  {
    if i == |specs| then []
    else
      match specs[i].ordinal
      case Some(o) => [o] + Assign(specs, i + 1, used, candidate)
      case None =>
        var c := NextFree(used, candidate);
        [c] + Assign(specs, i + 1, used + {c}, c)
  }

  function Ordinals(specs: seq<Spec>): (ords: seq<nat>)
    ensures |ords| == |specs|
  {
    Assign(specs, 0, Explicit(specs), 1)
  }

  // What the ordinals of the specs before i used
  ghost predicate UsedBefore(specs: seq<Spec>, ords: seq<nat>, i: nat, used: set<nat>, candidate: nat)
    requires i <= |specs| == |ords|
  {
    && (forall o: nat :: o in used <==> o in Explicit(specs) || AutoBefore(specs, ords, i, o))
    && candidate >= 1 && forall o: nat :: 1 <= o < candidate ==> o in used
  }

  ghost predicate AutoBefore(specs: seq<Spec>, ords: seq<nat>, i: nat, o: nat)
    requires i <= |specs| == |ords|
  {
    exists j :: 0 <= j < i && specs[j].ordinal.None? && ords[j] == o
  }

  // An export that gets an ordinal gets the lowest one that no explicit ordinal and no earlier export has.
  ghost predicate LeastFree(specs: seq<Spec>, ords: seq<nat>, i: nat)
    requires i < |specs| == |ords|
  {
    match specs[i].ordinal
    case Some(o) => ords[i] == o
    case None =>
      && ords[i] >= 1 && ords[i] !in Explicit(specs) && !AutoBefore(specs, ords, i, ords[i])
      && forall o: nat :: 1 <= o < ords[i] ==> o in Explicit(specs) || AutoBefore(specs, ords, i, o)
  }

  lemma {:induction false} AssignLeastFree(
    specs: seq<Spec>, ords: seq<nat>, i: nat, used: set<nat>, candidate: nat, k: nat)
    requires i <= k < |specs| == |ords| && ords[i..] == Assign(specs, i, used, candidate)
    requires UsedBefore(specs, ords, i, used, candidate)
    ensures LeastFree(specs, ords, k)
    decreases k - i
  {
    if specs[i].ordinal.None? {
      var c := NextFree(used, candidate);
      assert ords[i] == ords[i..][0] == c;
      if i < k {
        assert ords[i + 1..] == ords[i..][1..];
        forall o: nat ensures o in used + {c} <==> o in Explicit(specs) || AutoBefore(specs, ords, i + 1, o) {
          if AutoBefore(specs, ords, i, o) {
            assert AutoBefore(specs, ords, i + 1, o);
          }
          assert AutoBefore(specs, ords, i + 1, c);
        }
        AssignLeastFree(specs, ords, i + 1, used + {c}, c, k);
      }
    } else {
      assert ords[i] == ords[i..][0];
      if i < k {
        assert ords[i + 1..] == ords[i..][1..];
        forall o: nat ensures AutoBefore(specs, ords, i + 1, o) <==> AutoBefore(specs, ords, i, o) {
        }
        AssignLeastFree(specs, ords, i + 1, used, candidate, k);
      }
    }
  }

  lemma OrdinalsLeastFree(specs: seq<Spec>, i: nat)
    requires i < |specs|
    ensures LeastFree(specs, Ordinals(specs), i)
  {
    assert Ordinals(specs)[0..] == Ordinals(specs);
    AssignLeastFree(specs, Ordinals(specs), 0, Explicit(specs), 1, i);
  }

  function TargetOf(s: Spec): Target {
    Target(s.isData, s.forwarder)
  }

  // What each ordinal exports, after the first n specs
  function Targets(specs: seq<Spec>, ords: seq<nat>, n: nat): Result<map<nat, Target>, Error>
    requires n <= |specs| == |ords|
  {
    if n == 0 then Ok(map[])
    else
      match Targets(specs, ords, n - 1)
      case Err(e) => Err(e)
      case Ok(t) =>
        var o, target := ords[n - 1], TargetOf(specs[n - 1]);
        if o in t && t[o] != target then Err(Conflict) else Ok(t[o := target])
  }

  lemma {:induction false} TargetsExact(specs: seq<Spec>, ords: seq<nat>, n: nat)
    requires n <= |specs| == |ords| && Targets(specs, ords, n).Ok?
    ensures var t := Targets(specs, ords, n).value;
            && (forall i :: 0 <= i < n ==> ords[i] in t && t[ords[i]] == TargetOf(specs[i]))
            && (forall o :: o in t ==> exists i :: 0 <= i < n && ords[i] == o)
  {
    if n > 0 {
      TargetsExact(specs, ords, n - 1);
    }
  }

  // --- The layout of the image ---

  function AlignPage(v: nat): (r: nat)
    ensures v <= r < v + 0x1000 && r % 0x1000 == 0
  {
    (v + 0xFFF) / 0x1000 * 0x1000
  }

  function Max(a: nat, b: nat): nat {
    if a < b then b else a
  }

  function Functions(t: map<nat, Target>, lo: nat, n: nat): nat {
    if n == 0 then 0
    else Functions(t, lo, n - 1) + if lo + n - 1 in t && t[lo + n - 1].IsFunction() then 1 else 0
  }

  function Datas(t: map<nat, Target>, lo: nat, n: nat): nat {
    if n == 0 then 0
    else Datas(t, lo, n - 1) + if lo + n - 1 in t && t[lo + n - 1].IsData() then 1 else 0
  }

  function CString(s: Text): (r: Text)
    ensures |r| == |s| + 1
  {
    s + [0]
  }

  // The forwarder strings of n ordinals
  function Forwards(t: map<nat, Target>, lo: nat, n: nat): Text {
    if n == 0 then []
    else
      Forwards(t, lo, n - 1)
      + if lo + n - 1 in t && t[lo + n - 1].forwarder.Some? then CString(t[lo + n - 1].forwarder.value) else []
  }

  // The names of the first n specs
  function Names(specs: seq<Spec>, n: nat): Text
    requires n <= |specs| && forall i :: 0 <= i < n ==> specs[i].name.Some?
  {
    if n == 0 then [] else Names(specs, n - 1) + CString(specs[n - 1].name.value)
  }

  // The number of named specs at the start
  function NameCount(specs: seq<Spec>): (n: nat)
    ensures n <= |specs| && forall i :: 0 <= i < n ==> specs[i].name.Some?
    ensures n < |specs| ==> specs[n].name.None?
  {
    if specs == [] || specs[0].name.None? then 0 else 1 + NameCount(specs[1..])
  }

  // The parts of an image that its tables come from
  datatype Image = Image(
    specs: seq<Spec>, ords: seq<nat>, targets: map<nat, Target>, ordinalBase: nat, span: nat, dll: Text, textSize: nat,
    dataSize: nat)
  {
    function Count(): (n: nat)
      ensures n <= |specs| && forall i :: 0 <= i < n ==> specs[i].name.Some?
    {
      NameCount(specs)
    }

    const TextRva: nat := 0x1000

    function EdataRva(): nat {
      0x1000 + textSize
    }

    function StringsOffset(): nat {
      40 + span * 4 + Count() * 6
    }

    function Strings(): Text {
      CString(dll) + Names(specs, Count()) + Forwards(targets, ordinalBase, span)
    }

    function ExportSize(): nat {
      if specs == [] then 0 else StringsOffset() + |Strings()|
    }

    function DataRva(): nat {
      EdataRva() + AlignPage(Max(1, ExportSize()))
    }

    function DynRva(): nat {
      DataRva() + dataSize
    }

    function ImageSize(): nat {
      DynRva() + 0x10000
    }

    function NameRva(i: nat): nat
      requires i <= Count()
    {
      EdataRva() + StringsOffset() + |dll| + 1 + |Names(specs, i)|
    }

    // The address of an exported ordinal
    function Rva(o: nat): nat
      requires o in targets && ordinalBase <= o
    {
      if targets[o].forwarder.Some? then NameRva(Count()) + |Forwards(targets, ordinalBase, o - ordinalBase)|
      else if targets[o].isData then DataRva() + 0x100 * Datas(targets, ordinalBase, o - ordinalBase)
      else TextRva + 0x20 * Functions(targets, ordinalBase, o - ordinalBase) + 16
    }

    // A gap between the ordinals is zero.
    function EatWord(i: nat): nat {
      if ordinalBase + i in targets then Rva(ordinalBase + i) else 0
    }

    function Eat(n: nat): (words: seq<nat>)
      ensures |words| == n && forall i :: 0 <= i < n ==> words[i] == EatWord(i)
    {
      if n == 0 then [] else Eat(n - 1) + [EatWord(n - 1)]
    }

    function NamePointers(n: nat): (words: seq<nat>)
      requires n <= Count()
      ensures |words| == n && forall i :: 0 <= i < n ==> words[i] == NameRva(i)
    {
      if n == 0 then [] else NamePointers(n - 1) + [NameRva(n - 1)]
    }

    function NameOrdinals(n: nat): (words: seq<nat>)
      requires n <= |ords| && forall i :: 0 <= i < n ==> ordinalBase <= ords[i]
      ensures |words| == n && forall i :: 0 <= i < n ==> words[i] == ords[i] - ordinalBase
    {
      if n == 0 then [] else NameOrdinals(n - 1) + [ords[n - 1] - ordinalBase]
    }
  }

  // The header of the directory. Its first three words are zero: the characteristics, the time, and two 16-bit
  // versions.
  function HeaderWords(img: Image): seq<nat> {
    [0, 0, 0, img.EdataRva() + img.StringsOffset(), img.ordinalBase, img.span, img.Count(), img.EdataRva() + 40,
     img.EdataRva() + 40 + img.span * 4, img.EdataRva() + 40 + img.span * 4 + img.Count() * 4]
  }

  // The .edata section, without the zeros at its end
  function Edata(img: Image): Text
    requires |img.ords| == |img.specs| && forall i :: 0 <= i < |img.ords| ==> img.ordinalBase <= img.ords[i]
  {
    Words(HeaderWords(img), 4) + (Words(img.Eat(img.span), 4)
    + (Words(img.NamePointers(img.Count()), 4) + (Words(img.NameOrdinals(img.Count()), 2) + img.Strings())))
  }

  // What build_api_image establishes
  ghost predicate Built(img: Image) {
    && InOrder(img.specs) && |img.ords| == |img.specs| && img.specs != []
    && Targets(img.specs, img.ords, |img.specs|) == Ok(img.targets)
    && (forall i :: 0 <= i < |img.ords| ==> img.ordinalBase <= img.ords[i] < img.ordinalBase + img.span)
    && img.span <= 0x10000 && img.ImageSize() < W32 && img.ordinalBase < W32
    && img.textSize == AlignPage(Max(1, 0x20 * Functions(img.targets, img.ordinalBase, img.span)))
    && img.dataSize == AlignPage(Max(1, 0x100 * Datas(img.targets, img.ordinalBase, img.span)))
  }

  ghost predicate UniqueNames(specs: seq<Spec>) {
    forall i, j :: 0 <= i < j < |specs| && specs[i].name.Some? ==> specs[i].name != specs[j].name
  }

  // --- Forwarders ---

  lemma {:induction false} CountsGrow(t: map<nat, Target>, lo: nat, n: nat, m: nat)
    requires n < m
    ensures Functions(t, lo, n) + (if lo + n in t && t[lo + n].IsFunction() then 1 else 0) <= Functions(t, lo, m)
    ensures Datas(t, lo, n) + (if lo + n in t && t[lo + n].IsData() then 1 else 0) <= Datas(t, lo, m)
    ensures |Forwards(t, lo, n)| + (if lo + n in t && t[lo + n].forwarder.Some? then 1 else 0) <= |Forwards(t, lo, m)|
  {
    if n < m - 1 {
      CountsGrow(t, lo, n, m - 1);
    }
  }

  lemma OrdinalInRange(img: Image, o: nat)
    requires Built(img) && o in img.targets
    ensures img.ordinalBase <= o < img.ordinalBase + img.span
  {
    TargetsExact(img.specs, img.ords, |img.specs|);
  }

  // The test of the loader: the address of an export is inside the directory exactly when it is a forwarder. Functions
  // lie in .text, and data in .data.
  lemma ForwarderIff(img: Image, o: nat)
    requires Built(img) && o in img.targets
    ensures img.ordinalBase <= o < img.ordinalBase + img.span
    ensures img.EdataRva() <= img.Rva(o) < img.EdataRva() + img.ExportSize() <==> img.targets[o].forwarder.Some?
    ensures 0 < img.Rva(o) < img.ImageSize()
    ensures img.targets[o].IsFunction() ==> img.TextRva + 16 <= img.Rva(o) && img.Rva(o) + 16 <= img.EdataRva()
    ensures img.targets[o].IsData() ==> img.DataRva() <= img.Rva(o) && img.Rva(o) + 0x100 <= img.DynRva()
  {
    OrdinalInRange(img, o);
    CountsGrow(img.targets, img.ordinalBase, o - img.ordinalBase, img.span);
    hide Names, Forwards, Functions, Datas, Targets, CString, InOrder, NameCount, AlignPage;
    if img.targets[o].forwarder.Some? {
      assert img.EdataRva() <= img.Rva(o) < img.EdataRva() + img.ExportSize();
    } else if img.targets[o].isData {
      assert img.DataRva() <= img.Rva(o) && img.Rva(o) + 0x100 <= img.DynRva();
    } else {
      assert img.TextRva + 16 <= img.Rva(o) && img.Rva(o) + 16 <= img.EdataRva();
    }
  }

  // Two functions share no part of a slot.
  lemma SlotsApart(img: Image, o: nat, p: nat)
    requires Built(img) && o in img.targets && p in img.targets && o < p
    requires img.targets[o].IsFunction() && img.targets[p].IsFunction()
    ensures img.ordinalBase <= o && img.Rva(o) + 32 <= img.Rva(p)
  {
    ForwarderIff(img, o);
    ForwarderIff(img, p);
    CountsGrow(img.targets, img.ordinalBase, o - img.ordinalBase, p - img.ordinalBase);
  }

  // --- The directory in memory ---

  // The fields of an export directory that a lookup reads
  datatype Fields = Fields(ordinalBase: nat, functions: nat, names: nat, eat: nat, pointers: nat, ordinals: nat)

  function ReadFields(m: Memory, rva: nat): Option<Fields> {
    var ordinalBase :- ReadU32(m, rva + 16);
    var functions :- ReadU32(m, rva + 20);
    var names :- ReadU32(m, rva + 24);
    var eat :- ReadU32(m, rva + 28);
    var pointers :- ReadU32(m, rva + 32);
    var ordinals :- ReadU32(m, rva + 36);
    Some(Fields(ordinalBase, functions, names, eat, pointers, ordinals))
  }

  lemma FieldsHeld(m: Memory, a: nat, ws: seq<nat>)
    requires |ws| == 10 && Holds(m, a, Words(ws, 4)) && forall i :: 4 <= i < 10 ==> ws[i] < W32
    ensures ReadFields(m, a) == Some(Fields(ws[4], ws[5], ws[6], ws[7], ws[8], ws[9]))
  {
    Pow256Values();
    hide Words, ReadLE, ToLE, Pow256, Holds, Mapped;
    WordHeld(m, a, ws, 4, 4);
    WordHeld(m, a, ws, 4, 5);
    WordHeld(m, a, ws, 4, 6);
    WordHeld(m, a, ws, 4, 7);
    WordHeld(m, a, ws, 4, 8);
    WordHeld(m, a, ws, 4, 9);
  }

  lemma HeaderHeld(m: Memory, a: nat, img: Image)
    requires Built(img) && Holds(m, a, Words(HeaderWords(img), 4))
    ensures ReadFields(m, a)
         == Some(Fields(img.ordinalBase, img.span, img.Count(), img.EdataRva() + 40, img.EdataRva() + 40 + img.span * 4,
                        img.EdataRva() + 40 + img.span * 4 + img.Count() * 4))
  {
    hide InOrder, Targets, Functions, Datas, AlignPage, Words, ReadFields, Holds, ToLE, NameCount, Names, Forwards;
    FieldsHeld(m, a, HeaderWords(img));
  }

  lemma PartsHeld(m: Memory, a: int, v: Text, w: Text, x: Text, y: Text, z: Text)
    requires Holds(m, a, v + (w + (x + (y + z))))
    ensures Holds(m, a, v) && Holds(m, a + |v|, w) && Holds(m, a + |v| + |w|, x)
    ensures Holds(m, a + |v| + |w| + |x|, y) && Holds(m, a + |v| + |w| + |x| + |y|, z)
  {
    hide *;
    HoldsParts(m, a, v, w + (x + (y + z)));
    HoldsParts(m, a + |v|, w, x + (y + z));
    HoldsParts(m, a + |v| + |w|, x, y + z);
    HoldsParts(m, a + |v| + |w| + |x|, y, z);
  }

  // Where each table of the section lies
  lemma TablesHeld(m: Memory, img: Image)
    requires Built(img) && Holds(m, img.EdataRva(), Edata(img))
    ensures Holds(m, img.EdataRva(), Words(HeaderWords(img), 4))
    ensures Holds(m, img.EdataRva() + 40, Words(img.Eat(img.span), 4))
    ensures Holds(m, img.EdataRva() + 40 + img.span * 4, Words(img.NamePointers(img.Count()), 4))
    ensures Holds(m, img.EdataRva() + 40 + img.span * 4 + img.Count() * 4, Words(img.NameOrdinals(img.Count()), 2))
    ensures Holds(m, img.EdataRva() + img.StringsOffset(), img.Strings())
  {
    hide *;
    EdataParts(img);
    PartsHeld(m, img.EdataRva(), Words(HeaderWords(img), 4), Words(img.Eat(img.span), 4),
              Words(img.NamePointers(img.Count()), 4), Words(img.NameOrdinals(img.Count()), 2), img.Strings());
  }

  lemma EdataParts(img: Image)
    requires Built(img)
    ensures |img.ords| == |img.specs| && forall i :: 0 <= i < |img.ords| ==> img.ordinalBase <= img.ords[i]
    ensures Edata(img)
         == Words(HeaderWords(img), 4)
            + (Words(img.Eat(img.span), 4)
               + (Words(img.NamePointers(img.Count()), 4)
                  + (Words(img.NameOrdinals(img.Count()), 2) + img.Strings())))
    ensures |Words(HeaderWords(img), 4)| == 40 && |Words(img.Eat(img.span), 4)| == img.span * 4
    ensures |Words(img.NamePointers(img.Count()), 4)| == img.Count() * 4
    ensures |Words(img.NameOrdinals(img.Count()), 2)| == img.Count() * 2
    ensures img.StringsOffset() == 40 + img.span * 4 + img.Count() * 6
  {
    WordsLength(HeaderWords(img), 4);
    WordsLength(img.Eat(img.span), 4);
    WordsLength(img.NamePointers(img.Count()), 4);
    WordsLength(img.NameOrdinals(img.Count()), 2);
  }

  // The address table: the address of each exported ordinal, and zero in the gaps
  lemma EatHeld(m: Memory, img: Image, i: nat)
    requires Built(img) && Holds(m, img.EdataRva(), Edata(img)) && i < img.span
    ensures ReadU32(m, img.EdataRva() + 40 + 4 * i) == Some(img.EatWord(i))
  {
    hide *;
    EatWordSmall(img, i);
    TablesHeld(m, img);
    Word32Held(m, img.EdataRva() + 40, img.Eat(img.span), i);
  }

  lemma EatWordSmall(img: Image, i: nat)
    requires Built(img) && i < img.span
    ensures img.EatWord(i) < W32
  {
    if img.ordinalBase + i in img.targets {
      ForwarderIff(img, img.ordinalBase + i);
    }
  }

  lemma {:induction false} NameAt(m: Memory, a: int, specs: seq<Spec>, n: nat, i: nat)
    requires n <= |specs| && forall k :: 0 <= k < n ==> specs[k].name.Some?
    requires i < n && Holds(m, a, Names(specs, n))
    ensures Holds(m, a + |Names(specs, i)|, CString(specs[i].name.value))
  {
    HoldsParts(m, a, Names(specs, n - 1), CString(specs[n - 1].name.value));
    if i < n - 1 {
      NameAt(m, a, specs, n - 1, i);
    }
  }

  lemma {:induction false} ForwardAt(m: Memory, a: int, t: map<nat, Target>, lo: nat, n: nat, i: nat)
    requires i < n && lo + i in t && t[lo + i].forwarder.Some? && Holds(m, a, Forwards(t, lo, n))
    ensures Holds(m, a + |Forwards(t, lo, i)|, CString(t[lo + i].forwarder.value))
  {
    HoldsParts(m, a, Forwards(t, lo, n - 1),
               if lo + n - 1 in t && t[lo + n - 1].forwarder.Some? then CString(t[lo + n - 1].forwarder.value) else []);
    if i < n - 1 {
      ForwardAt(m, a, t, lo, n - 1, i);
    }
  }

  lemma StringsParts(img: Image)
    ensures img.Strings()
         == CString(img.dll) + Names(img.specs, img.Count()) + Forwards(img.targets, img.ordinalBase, img.span)
  {
  }

  lemma BlobsHeld(m: Memory, img: Image)
    requires Built(img) && Holds(m, img.EdataRva(), Edata(img))
    ensures var a := img.EdataRva() + img.StringsOffset() + |img.dll| + 1;
            && Holds(m, a, Names(img.specs, img.Count()))
            && Holds(m, a + |Names(img.specs, img.Count())|, Forwards(img.targets, img.ordinalBase, img.span))
  {
    StringsParts(img);
    hide *;
    TablesHeld(m, img);
    var a := img.EdataRva() + img.StringsOffset();
    var names, forwards := Names(img.specs, img.Count()), Forwards(img.targets, img.ordinalBase, img.span);
    HoldsParts(m, a, CString(img.dll) + names, forwards);
    HoldsParts(m, a, CString(img.dll), names);
  }

  // Each name pointer leads to the name.
  lemma NameHeld(m: Memory, img: Image, i: nat)
    requires Built(img) && Holds(m, img.EdataRva(), Edata(img)) && i < img.Count()
    ensures ReadU32(m, img.EdataRva() + 40 + img.span * 4 + 4 * i) == Some(img.NameRva(i))
    ensures Holds(m, img.NameRva(i), CString(img.specs[i].name.value))
  {
    hide *;
    NamePointerHeld(m, img, i);
    NameTextHeld(m, img, i);
  }

  lemma NamePointerHeld(m: Memory, img: Image, i: nat)
    requires Built(img) && Holds(m, img.EdataRva(), Edata(img)) && i < img.Count()
    ensures ReadU32(m, img.EdataRva() + 40 + img.span * 4 + 4 * i) == Some(img.NameRva(i))
  {
    hide *;
    NameInside(img, i);
    TablesHeld(m, img);
    Word32Held(m, img.EdataRva() + 40 + img.span * 4, img.NamePointers(img.Count()), i);
  }

  lemma NameTextHeld(m: Memory, img: Image, i: nat)
    requires Built(img) && Holds(m, img.EdataRva(), Edata(img)) && i < img.Count()
    ensures Holds(m, img.NameRva(i), CString(img.specs[i].name.value))
  {
    hide *;
    NameInside(img, i);
    BlobsHeld(m, img);
    NameAt(m, img.EdataRva() + img.StringsOffset() + |img.dll| + 1, img.specs, img.Count(), i);
  }

  lemma Word32Held(m: Memory, a: int, ws: seq<nat>, i: nat)
    requires Holds(m, a, Words(ws, 4)) && i < |ws| && ws[i] < W32
    ensures ReadU32(m, a + 4 * i) == Some(ws[i])
  {
    Pow256Values();
    hide ReadLE, Words, Holds, Pow256;
    WordHeld(m, a, ws, 4, i);
  }

  lemma NameInside(img: Image, i: nat)
    requires Built(img) && i <= img.Count()
    ensures img.NameRva(i) < W32
      && img.NameRva(i) == img.EdataRva() + img.StringsOffset() + |img.dll| + 1 + |Names(img.specs, i)|
  {
    NamesGrow(img.specs, i, img.Count());
    hide Names, Forwards, NameCount, Functions, Datas, Targets, InOrder;
  }

  lemma {:induction false} NamesGrow(specs: seq<Spec>, i: nat, n: nat)
    requires i <= n <= |specs| && forall k :: 0 <= k < n ==> specs[k].name.Some?
    ensures |Names(specs, i)| <= |Names(specs, n)|
  {
    if i < n {
      NamesGrow(specs, i, n - 1);
    }
  }

  lemma ForwarderRva(img: Image, o: nat)
    requires Built(img) && o in img.targets && img.targets[o].forwarder.Some?
    ensures img.ordinalBase <= o < img.ordinalBase + img.span
    ensures img.Rva(o) == img.EdataRva() + img.StringsOffset() + |img.dll| + 1 + |Names(img.specs, img.Count())|
                          + |Forwards(img.targets, img.ordinalBase, o - img.ordinalBase)|
  {
    hide Built, Names, Forwards, NameCount;
    OrdinalInRange(img, o);
  }

  // The address of a forwarder leads to its string.
  lemma ForwarderHeld(m: Memory, img: Image, o: nat)
    requires Built(img) && Holds(m, img.EdataRva(), Edata(img))
    requires o in img.targets && img.targets[o].forwarder.Some?
    ensures img.ordinalBase <= o && Holds(m, img.Rva(o), CString(img.targets[o].forwarder.value))
  {
    hide *;
    ForwarderRva(img, o);
    BlobsHeld(m, img);
    var a := img.EdataRva() + img.StringsOffset() + |img.dll| + 1 + |Names(img.specs, img.Count())|;
    ForwardAt(m, a, img.targets, img.ordinalBase, img.span, o - img.ordinalBase);
  }

  // --- Looking a name up ---

  datatype Order = Less | Same | Greater

  // How the string at a compares with q[i..], byte by byte up to its NUL
  function Compare(m: Memory, a: nat, q: Text, i: nat): Option<Order>
    requires i <= |q|
    decreases |q| - i
  {
    if a + i !in m then None
    else
      var c := m[a + i];
      if i == |q| then Some(if c == 0 then Same else Greater)
      else if c < q[i] then Some(Less)
      else if c > q[i] then Some(Greater)
      else Compare(m, a, q, i + 1)
  }

  predicate NulFree(s: Text) {
    forall i :: 0 <= i < |s| ==> s[i] != 0
  }

  lemma {:induction false} CompareExact(m: Memory, a: nat, s: Text, q: Text, i: nat)
    requires Holds(m, a, CString(s)) && NulFree(s) && NulFree(q) && i <= |q| && i <= |s| && s[..i] == q[..i]
    ensures Compare(m, a, q, i)
         == Some(if s[i..] == q[i..] then Same else if LexLess(s[i..], q[i..]) then Less else Greater)
    decreases |q| - i
  {
    assert m[a + i] == CString(s)[i];
    if i < |q| && i < |s| && s[i] == q[i] {
      CompareExact(m, a, s, q, i + 1);
      assert s[i..] == [s[i]] + s[i + 1..] && q[i..] == [q[i]] + q[i + 1..];
    }
  }

  datatype Found = Fault | Absent | At(rva: nat)

  // Binary search in the name table, as a loader looks a name up, then the ordinal table and the address table
  function FindName(m: Memory, f: Fields, q: Text, lo: nat, hi: nat): Found
    decreases hi - lo
  {
    if lo >= hi then Absent
    else
      var mid := (lo + hi) / 2;
      var pointer := ReadU32(m, f.pointers + 4 * mid);
      if pointer.None? then Fault
      else
        match Compare(m, pointer.value, q, 0)
        case None => Fault
        case Some(Less) => FindName(m, f, q, mid + 1, hi)
        case Some(Greater) => FindName(m, f, q, lo, mid)
        case Some(Same) =>
          var index := ReadU16(m, f.ordinals + 2 * mid);
          if index.None? then Fault
          else
            var rva := ReadU32(m, f.eat + 4 * index.value);
            if rva.None? then Fault else At(rva.value)
  }

  function Lookup(m: Memory, directory: nat, q: Text): Found {
    match ReadFields(m, directory)
    case None => Fault
    case Some(f) => FindName(m, f, q, 0, f.names)
  }

  // A linear scan over the exports: the ordinal of the one with the name
  function Scan(specs: seq<Spec>, ords: seq<nat>, q: Text, i: nat): (r: Option<nat>)
    requires i <= |specs| == |ords|
    decreases |specs| - i
  {
    if i == |specs| then None
    else if specs[i].name == Some(q) then Some(ords[i])
    else Scan(specs, ords, q, i + 1)
  }

  lemma {:induction false} ScanFinds(specs: seq<Spec>, ords: seq<nat>, q: Text, i: nat, k: nat)
    requires i <= k < |specs| == |ords| && UniqueNames(specs) && specs[k].name == Some(q)
    ensures Scan(specs, ords, q, i) == Some(ords[k])
    decreases k - i
  {
    if i < k {
      ScanFinds(specs, ords, q, i + 1, k);
    }
  }

  lemma {:induction false} ScanMisses(specs: seq<Spec>, ords: seq<nat>, q: Text, i: nat)
    requires i <= |specs| == |ords| && forall k :: i <= k < |specs| ==> specs[k].name != Some(q)
    ensures Scan(specs, ords, q, i) == None
    decreases |specs| - i
  {
    if i < |specs| {
      ScanMisses(specs, ords, q, i + 1);
    }
  }

  // The sorted exports start with all the named ones, in strictly increasing order.
  lemma NamesSorted(specs: seq<Spec>, i: nat, j: nat)
    requires InOrder(specs) && UniqueNames(specs) && i < j < |specs| && specs[j].name.Some?
    ensures specs[i].name.Some? && LexLess(specs[i].name.value, specs[j].name.value)
  {
    assert Precedes(specs[i], specs[j]);
  }

  lemma AllNamed(specs: seq<Spec>, k: nat)
    requires InOrder(specs) && k < |specs| && specs[k].name.Some?
    ensures k < NameCount(specs)
  {
    var n := NameCount(specs);
    forall j | n < j < |specs| ensures Precedes(specs[n], specs[j]) {
    }
  }

  // Where a found name leads: its entry in the ordinal table, then its address
  lemma IndexHeld(m: Memory, img: Image, i: nat)
    requires Built(img) && Holds(m, img.EdataRva(), Edata(img)) && i < img.Count()
    ensures img.ordinalBase <= img.ords[i] < img.ordinalBase + img.span && img.ords[i] in img.targets
    ensures ReadU16(m, img.EdataRva() + 40 + img.span * 4 + img.Count() * 4 + 2 * i)
         == Some(img.ords[i] - img.ordinalBase)
    ensures ReadU32(m, img.EdataRva() + 40 + 4 * (img.ords[i] - img.ordinalBase)) == Some(img.Rva(img.ords[i]))
  {
    hide *;
    OrdinalOk(img, i);
    TablesHeld(m, img);
    Word16Held(m, img.EdataRva() + 40 + img.span * 4 + img.Count() * 4, img.NameOrdinals(img.Count()), i);
    EatHeld(m, img, img.ords[i] - img.ordinalBase);
  }

  lemma OrdinalOk(img: Image, i: nat)
    requires Built(img) && i < img.Count()
    ensures |img.ords| == |img.specs| && img.span <= W16
    ensures img.ordinalBase <= img.ords[i] < img.ordinalBase + img.span && img.ords[i] in img.targets
    ensures img.EatWord(img.ords[i] - img.ordinalBase) == img.Rva(img.ords[i])
  {
    hide Names, Forwards, NameCount, Functions, Datas, Targets, InOrder, AlignPage;
    TargetsExact(img.specs, img.ords, |img.specs|);
  }

  lemma Word16Held(m: Memory, a: int, ws: seq<nat>, i: nat)
    requires Holds(m, a, Words(ws, 2)) && i < |ws| && ws[i] < W16
    ensures ReadU16(m, a + 2 * i) == Some(ws[i])
  {
    Pow256Values();
    hide ReadLE, Words, Holds, Pow256;
    WordHeld(m, a, ws, 2, i);
  }

  ghost predicate NamesNulFree(specs: seq<Spec>) {
    forall i :: 0 <= i < |specs| && specs[i].name.Some? ==> NulFree(specs[i].name.value)
  }

  lemma {:induction false} FindNameExact(m: Memory, img: Image, f: Fields, q: Text, lo: nat, hi: nat)
    requires Built(img) && Holds(m, img.EdataRva(), Edata(img)) && lo <= hi <= img.Count()
    requires UniqueNames(img.specs) && NamesNulFree(img.specs) && NulFree(q)
    requires ReadFields(m, img.EdataRva()) == Some(f)
    requires forall i :: 0 <= i < lo ==> LexLess(img.specs[i].name.value, q)
    requires forall i :: hi <= i < img.Count() ==> LexLess(q, img.specs[i].name.value)
    ensures |img.ords| == |img.specs|
    ensures match Scan(img.specs, img.ords, q, 0)
            case None => FindName(m, f, q, lo, hi) == Absent
            case Some(o) => o in img.targets && img.ordinalBase <= o && FindName(m, f, q, lo, hi) == At(img.Rva(o))
    decreases hi - lo
  {
    hide Holds, Edata, ReadLE, LexLess, Compare, ReadFields, NameCount, Built, UniqueNames, NamesNulFree, NulFree,
      Scan;
    if lo == hi {
      NotThere(img, q, lo);
    } else {
      var mid := (lo + hi) / 2;
      var name := img.specs[mid].name.value;
      Probe(m, img, f, q, mid);
      if name == q {
        ScanFinds(img.specs, img.ords, q, 0, mid);
      } else if LexLess(name, q) {
        LessBefore(img, q, mid);
        FindNameExact(m, img, f, q, mid + 1, hi);
      } else {
        GreaterAfter(img, q, mid);
        FindNameExact(m, img, f, q, lo, mid);
      }
    }
  }

  lemma CompareName(m: Memory, img: Image, q: Text, mid: nat)
    requires mid < img.Count() && Holds(m, img.NameRva(mid), CString(img.specs[mid].name.value))
    requires NamesNulFree(img.specs) && NulFree(q)
    ensures Compare(m, img.NameRva(mid), q, 0)
         == Some(if img.specs[mid].name.value == q then Same
                 else if LexLess(img.specs[mid].name.value, q) then Less else Greater)
  {
    var name := img.specs[mid].name.value;
    assert name[..0] == q[..0] && name[0..] == name && q[0..] == q;
    hide Holds, CString, LexLess, Compare, NameCount;
    CompareExact(m, img.NameRva(mid), name, q, 0);
  }

  // What one probe of the search reads
  lemma Probe(m: Memory, img: Image, f: Fields, q: Text, mid: nat)
    requires Built(img) && Holds(m, img.EdataRva(), Edata(img)) && mid < img.Count()
    requires NamesNulFree(img.specs) && NulFree(q) && ReadFields(m, img.EdataRva()) == Some(f)
    ensures |img.ords| == |img.specs|
    ensures var name := img.specs[mid].name.value;
            && ReadU32(m, f.pointers + 4 * mid) == Some(img.NameRva(mid))
            && Compare(m, img.NameRva(mid), q, 0)
               == Some(if name == q then Same else if LexLess(name, q) then Less else Greater)
            && img.ordinalBase <= img.ords[mid] && img.ords[mid] in img.targets
            && ReadU16(m, f.ordinals + 2 * mid) == Some(img.ords[mid] - img.ordinalBase)
            && ReadU32(m, f.eat + 4 * (img.ords[mid] - img.ordinalBase)) == Some(img.Rva(img.ords[mid]))
  {
    hide *;
    OrdinalOk(img, mid);
    NameHeld(m, img, mid);
    IndexHeld(m, img, mid);
    TablesHeld(m, img);
    HeaderHeld(m, img.EdataRva(), img);
    CompareName(m, img, q, mid);
  }

  lemma LessBefore(img: Image, q: Text, mid: nat)
    requires Built(img) && UniqueNames(img.specs) && mid < img.Count() && LexLess(img.specs[mid].name.value, q)
    ensures forall i :: 0 <= i <= mid ==> LexLess(img.specs[i].name.value, q)
  {
    forall i | 0 <= i < mid ensures LexLess(img.specs[i].name.value, q) {
      NamesSorted(img.specs, i, mid);
      LexTrans(img.specs[i].name.value, img.specs[mid].name.value, q);
    }
  }

  lemma GreaterAfter(img: Image, q: Text, mid: nat)
    requires Built(img) && UniqueNames(img.specs) && mid < img.Count()
    requires img.specs[mid].name.value != q && !LexLess(img.specs[mid].name.value, q)
    ensures forall i :: mid <= i < img.Count() ==> LexLess(q, img.specs[i].name.value)
  {
    LexTotal(img.specs[mid].name.value, q);
    forall i | mid < i < img.Count() ensures LexLess(q, img.specs[i].name.value) {
      NamesSorted(img.specs, mid, i);
      LexTrans(q, img.specs[mid].name.value, img.specs[i].name.value);
    }
  }

  lemma NotThere(img: Image, q: Text, lo: nat)
    requires Built(img) && lo <= img.Count()
    requires forall i :: 0 <= i < lo ==> LexLess(img.specs[i].name.value, q)
    requires forall i :: lo <= i < img.Count() ==> LexLess(q, img.specs[i].name.value)
    ensures |img.ords| == |img.specs| && Scan(img.specs, img.ords, q, 0) == None
  {
    LexStrict(q);
    forall k | 0 <= k < |img.specs| ensures img.specs[k].name != Some(q) {
      if img.specs[k].name == Some(q) {
        AllNamed(img.specs, k);
      }
    }
    ScanMisses(img.specs, img.ords, q, 0);
  }

  // The directory is a correct index: for every name, the binary search in the image finds what a linear scan over the
  // exports finds, and nothing for a name that is not there.
  lemma LookupExact(m: Memory, img: Image, q: Text)
    requires Built(img) && Holds(m, img.EdataRva(), Edata(img))
    requires UniqueNames(img.specs) && NamesNulFree(img.specs) && NulFree(q)
    ensures |img.ords| == |img.specs|
    ensures match Scan(img.specs, img.ords, q, 0)
            case None => Lookup(m, img.EdataRva(), q) == Absent
            case Some(o) => o in img.targets && img.ordinalBase <= o && Lookup(m, img.EdataRva(), q) == At(img.Rva(o))
  {
    hide Holds, Edata, FindName, Built, Scan, ReadFields, NameCount;
    TablesHeld(m, img);
    HeaderHeld(m, img.EdataRva(), img);
    FindNameExact(m, img, ReadFields(m, img.EdataRva()).value, q, 0, img.Count());
  }

  // --- Building the image ---

  predicate Ascii(s: Text) {
    forall i :: 0 <= i < |s| ==> s[i] < 128
  }

  // The name ends with .dll in any case.
  predicate EndsWithDll(name: Text) {
    var n := |name|;
    n >= 4 && name[n - 4] == 0x2E && (name[n - 3] == 0x64 || name[n - 3] == 0x44)
    && (name[n - 2] == 0x6C || name[n - 2] == 0x4C) && (name[n - 1] == 0x6C || name[n - 1] == 0x4C)
  }

  function DllName(name: Text): Text {
    if EndsWithDll(name) then name else name + [0x2E, 0x64, 0x6C, 0x6C]
  }

  function Least(ords: seq<nat>): (m: nat)
    requires ords != []
    ensures forall i :: 0 <= i < |ords| ==> m <= ords[i]
  {
    if |ords| == 1 then ords[0]
    else
      var m := Least(ords[1..]);
      if ords[0] < m then ords[0] else m
  }

  function Greatest(ords: seq<nat>): (m: nat)
    requires ords != []
    ensures forall i :: 0 <= i < |ords| ==> ords[i] <= m
  {
    if |ords| == 1 then ords[0]
    else
      var m := Greatest(ords[1..]);
      if m < ords[0] then ords[0] else m
  }

  function OrdinalBase(ords: seq<nat>): nat {
    if ords == [] then 1 else Least(ords)
  }

  function Span(ords: seq<nat>): (n: nat)
    ensures forall i :: 0 <= i < |ords| ==> OrdinalBase(ords) <= ords[i] < OrdinalBase(ords) + n
  {
    if ords == [] then 0
    else
      assert Least(ords) <= ords[0] <= Greatest(ords);
      Greatest(ords) - Least(ords) + 1
  }

  function Laid(name: Text, specs: seq<Spec>, ords: seq<nat>, t: map<nat, Target>): Image {
    var lo, span := OrdinalBase(ords), Span(ords);
    Image(specs, ords, t, lo, span, DllName(name), AlignPage(Max(1, 0x20 * Functions(t, lo, span))),
          AlignPage(Max(1, 0x100 * Datas(t, lo, span))))
  }

  predicate NamesAscii(specs: seq<Spec>) {
    forall i :: 0 <= i < |specs| && specs[i].name.Some? ==> Ascii(specs[i].name.value)
  }

  predicate ForwardersAscii(specs: seq<Spec>) {
    forall i :: 0 <= i < |specs| && specs[i].forwarder.Some? ==> Ascii(specs[i].forwarder.value)
  }

  function Build(name: Text, bits: nat, base: int, exports: seq<Spec>): (r: Result<Image, Error>)
    ensures r.Ok? ==>
              && |r.value.ords| == |r.value.specs|
              && forall i :: 0 <= i < |r.value.ords| ==> r.value.ordinalBase <= r.value.ords[i]
  {
    if name == [] || !NulFree(name) || !Ascii(name) then Err(BadName)
    else if !NamesAscii(exports) then Err(NotAscii)
    else
      var specs := Sorted(exports);
      var ords := Ordinals(specs);
      if Span(ords) > 0x10000 || NameCount(specs) > 0x10000 then Err(TooMany)
      else
        match Targets(specs, ords, |specs|)
        case Err(e) => Err(e)
        case Ok(t) =>
          var img := Laid(name, specs, ords, t);
          if !ForwardersAscii(exports) then Err(NotAscii)
          else if base < 0 || base + img.ImageSize() > (if bits == 64 then W64 else W32) then Err(DoesNotFit)
          else if img.ImageSize() >= W32 || img.ordinalBase >= W32 then Err(Overflow)
          else Ok(img)
  }

  lemma BuildBuilt(name: Text, bits: nat, base: int, exports: seq<Spec>)
    requires exports != [] && Build(name, bits, base, exports).Ok?
    ensures Built(Build(name, bits, base, exports).value)
  {
    SortedInOrder(exports);
    hide InOrder, Ordinals, Targets, Functions, Datas, AlignPage, NameCount, OrdinalBase, Span, NamesAscii,
      ForwardersAscii, EndsWithDll;
  }

  lemma {:induction false} InsertUnique(s: Spec, sorted: seq<Spec>)
    requires UniqueNames(sorted) && forall x :: x in sorted && s.name.Some? ==> x.name != s.name
    ensures UniqueNames(Insert(s, sorted))
  {
    hide Precedes;
    if sorted != [] && Precedes(sorted[0], s) {
      InsertUnique(s, sorted[1..]);
      forall x | x in Insert(s, sorted[1..]) && sorted[0].name.Some? ensures x.name != sorted[0].name {
        InsertMember(s, sorted[1..], x);
      }
      ConsUnique(sorted[0], Insert(s, sorted[1..]));
    } else {
      ConsUnique(s, sorted);
    }
  }

  lemma ConsUnique(s: Spec, rest: seq<Spec>)
    requires UniqueNames(rest) && forall x :: x in rest && s.name.Some? ==> x.name != s.name
    ensures UniqueNames([s] + rest)
  {
    var r := [s] + rest;
    forall i, j | 0 <= i < j < |r| && r[i].name.Some? ensures r[i].name != r[j].name {
      assert r[j] == rest[j - 1];
    }
  }

  // Sorting keeps the names unique.
  lemma {:induction false} SortedUnique(exports: seq<Spec>)
    requires UniqueNames(exports)
    ensures UniqueNames(Sorted(exports))
  {
    if exports != [] {
      var n := |exports| - 1;
      SortedUnique(exports[..n]);
      forall x | x in Sorted(exports[..n]) && exports[n].name.Some? ensures x.name != exports[n].name {
        assert x in multiset(Sorted(exports[..n]));
        assert x in exports[..n];
      }
      InsertUnique(exports[n], Sorted(exports[..n]));
    }
  }

  lemma SortedNulFree(exports: seq<Spec>)
    requires NamesNulFree(exports)
    ensures NamesNulFree(Sorted(exports))
  {
    var specs := Sorted(exports);
    hide Sorted, NulFree;
    forall i | 0 <= i < |specs| && specs[i].name.Some? ensures NulFree(specs[i].name.value) {
      assert specs[i] in multiset(specs);
      assert specs[i] in exports;
    }
  }

  // For every list of exports with unique names, a lookup of any name in the image agrees with a linear scan.
  lemma BuiltIndexIsCorrect(name: Text, bits: nat, base: int, exports: seq<Spec>, m: Memory, q: Text)
    requires exports != [] && UniqueNames(exports) && NamesNulFree(exports) && NulFree(q)
    requires Build(name, bits, base, exports).Ok?
    requires Holds(m, Build(name, bits, base, exports).value.EdataRva(), Edata(Build(name, bits, base, exports).value))
    ensures var img := Build(name, bits, base, exports).value;
            match Scan(Sorted(exports), Ordinals(Sorted(exports)), q, 0)
            case None => Lookup(m, img.EdataRva(), q) == Absent
            case Some(o) => o in img.targets && img.ordinalBase <= o && Lookup(m, img.EdataRva(), q) == At(img.Rva(o))
  {
    BuildBuilt(name, bits, base, exports);
    SortedUnique(exports);
    SortedNulFree(exports);
    SameSpecs(name, bits, base, exports);
    hide *;
    LookupExact(m, Build(name, bits, base, exports).value, q);
  }

  lemma SameSpecs(name: Text, bits: nat, base: int, exports: seq<Spec>)
    requires Build(name, bits, base, exports).Ok?
    ensures var img := Build(name, bits, base, exports).value;
            img.specs == Sorted(exports) && img.ords == Ordinals(Sorted(exports))
  {
  }

  // The ordinals, as the source assigns them
  method AssignOrdinals(specs: seq<Spec>) returns (ords: seq<nat>)
    ensures ords == Ordinals(specs)
  {
    hide Explicit;
    var used: set<nat> := Explicit(specs);
    var candidate := 1;
    ords := [];
    for i := 0 to |specs|
      invariant |ords| == i && ords + Assign(specs, i, used, candidate) == Ordinals(specs)
    {
      ghost var done, rest := ords, Assign(specs, i, used, candidate);
      var ordinal: nat;
      if specs[i].ordinal.None? {
        ghost var first := NextFree(used, candidate);
        while candidate in used
          invariant candidate <= first && NextFree(used, candidate) == first
          decreases first - candidate
        {
          candidate := candidate + 1;
        }
        used := used + {candidate};
        ordinal := candidate;
      } else {
        ordinal := specs[i].ordinal.value;
      }
      ords := ords + [ordinal];
      ghost var after := Assign(specs, i + 1, used, candidate);
      assert rest == [ordinal] + after;
      assert done + rest == done + [ordinal] + after;
    }
  }

  lemma CountNone(t: map<nat, Target>, lo: nat)
    ensures Functions(t, lo, 0) == 0 == Datas(t, lo, 0) && Forwards(t, lo, 0) == []
  {
  }

  lemma CountNext(t: map<nat, Target>, lo: nat, n: nat)
    ensures Functions(t, lo, n + 1)
         == Functions(t, lo, n) + if lo + n in t && t[lo + n].IsFunction() then 1 else 0
    ensures Datas(t, lo, n + 1) == Datas(t, lo, n) + if lo + n in t && t[lo + n].IsData() then 1 else 0
    ensures |Forwards(t, lo, n + 1)|
         == |Forwards(t, lo, n)|
            + if lo + n in t && t[lo + n].forwarder.Some? then |t[lo + n].forwarder.value| + 1 else 0
  {
  }

  // The addresses of the ordinals and the address table, in the order of the ordinals
  method FillAddresses(img: Image) returns (eat: seq<nat>)
    requires forall o :: o in img.targets ==> img.ordinalBase <= o
    ensures eat == img.Eat(img.span)
  {
    hide Names, NameCount, AlignPage, Functions, Datas, Forwards, CString;
    CountNone(img.targets, img.ordinalBase);
    eat := [];
    var functionIndex, dataIndex := 0, 0;
    var forwardRva := img.NameRva(img.Count());
    for i := 0 to img.span
      invariant eat == img.Eat(i) && functionIndex == Functions(img.targets, img.ordinalBase, i)
      invariant dataIndex == Datas(img.targets, img.ordinalBase, i)
      invariant forwardRva == img.NameRva(img.Count()) + |Forwards(img.targets, img.ordinalBase, i)|
    {
      var o := img.ordinalBase + i;
      CountNext(img.targets, img.ordinalBase, i);
      if o !in img.targets {
        eat := eat + [0];
        continue;
      }
      var target := img.targets[o];
      if target.forwarder.Some? {
        eat := eat + [forwardRva];
        forwardRva := forwardRva + |target.forwarder.value| + 1;
      } else if target.isData {
        eat := eat + [img.DataRva() + dataIndex * 0x100];
        dataIndex := dataIndex + 1;
      } else {
        eat := eat + [img.TextRva + functionIndex * 0x20 + 16];
        functionIndex := functionIndex + 1;
      }
    }
  }

  // The name table and the ordinal table
  method FillNames(img: Image) returns (pointers: seq<nat>, ordinals: seq<nat>)
    requires |img.ords| == |img.specs| && forall i :: 0 <= i < |img.ords| ==> img.ordinalBase <= img.ords[i]
    ensures pointers == img.NamePointers(img.Count()) && ordinals == img.NameOrdinals(img.Count())
  {
    pointers, ordinals := [], [];
    var rva := img.NameRva(0);
    for i := 0 to img.Count()
      invariant pointers == img.NamePointers(i) && ordinals == img.NameOrdinals(i) && rva == img.NameRva(i)
    {
      pointers := pointers + [rva];
      ordinals := ordinals + [img.ords[i] - img.ordinalBase];
      rva := rva + |img.specs[i].name.value| + 1;
    }
  }

  method BuildApiImage(name: Text, bits: nat, base: int, exports: seq<Spec>)
    returns (r: Result<Image, Error>, edata: Text)
    requires UniqueNames(exports)
    ensures r == Build(name, bits, base, exports)
    ensures r.Ok? && exports != [] ==> Built(r.value) && edata == Edata(r.value)
  {
    edata := [];
    if name == [] || !NulFree(name) || !Ascii(name) {
      return Err(BadName), [];
    }
    if !NamesAscii(exports) {
      return Err(NotAscii), [];
    }
    var specs := Sorted(exports);
    var ords := AssignOrdinals(specs);
    hide NamesAscii, Sorted, Ordinals, NulFree, Ascii, Functions, Datas, AlignPage, Words, EndsWithDll, UniqueNames,
      NameCount;
    if Span(ords) > 0x10000 || NameCount(specs) > 0x10000 {
      return Err(TooMany), [];
    }
    var targets: map<nat, Target> := map[];
    for i := 0 to |specs|
      invariant Targets(specs, ords, i) == Ok(targets)
    {
      var o, target := ords[i], TargetOf(specs[i]);
      if o in targets && targets[o] != target {
        ConflictStays(specs, ords, i + 1, |specs|);
        return Err(Conflict), [];
      }
      targets := targets[o := target];
    }
    var img := Laid(name, specs, ords, targets);
    if !ForwardersAscii(exports) {
      return Err(NotAscii), [];
    }
    if base < 0 || base + img.ImageSize() > (if bits == 64 then W64 else W32) {
      return Err(DoesNotFit), [];
    }
    if img.ImageSize() >= W32 || img.ordinalBase >= W32 {
      return Err(Overflow), [];
    }
    r := Ok(img);
    if exports != [] {
      BuildBuilt(name, bits, base, exports);
      edata := Render(img);
    }
  }

  method Render(img: Image) returns (edata: Text)
    requires Built(img)
    ensures edata == Edata(img)
  {
    forall o | o in img.targets ensures img.ordinalBase <= o {
      OrdinalInRange(img, o);
    }
    hide InOrder, Targets, Functions, Datas, AlignPage, Words, NameCount;
    var eat := FillAddresses(img);
    var pointers, ordinals := FillNames(img);
    edata := Words(HeaderWords(img), 4)
             + (Words(eat, 4) + (Words(pointers, 4) + (Words(ordinals, 2) + img.Strings())));
  }

  lemma {:induction false} ConflictStays(specs: seq<Spec>, ords: seq<nat>, n: nat, m: nat)
    requires n <= m <= |specs| == |ords| && Targets(specs, ords, n).Err?
    ensures Targets(specs, ords, m) == Targets(specs, ords, n)
  {
    if n < m {
      ConflictStays(specs, ords, n, m - 1);
    }
  }
}
