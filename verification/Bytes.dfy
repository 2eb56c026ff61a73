// Little-endian integers and the guest memory that every other module reads and writes.

module Options {

  datatype Option<+T> = None | Some(value: T) {
    predicate IsFailure() {
      None?
    }

    function PropagateFailure<U>(): Option<U>
      requires None?
    {
      None
    }

    function Extract(): T
      requires Some?
    {
      value
    }
  }

  datatype Result<+T, +E> = Ok(value: T) | Err(error: E)
}

module Sets {

  lemma EmptySet<T>(s: set<T>)
    requires forall x :: x !in s
    ensures s == {}
  {
    assert s == {};
  }

  lemma {:induction false} LeastExists(s: set<int>)
    requires s != {}
    ensures exists m :: m in s && forall p :: p in s ==> m <= p
  {
    if !exists x :: x in s {
      EmptySet(s);
    }
    var x :| x in s;
    var below := set p | p in s && p < x;
    if below == {} {
      assert forall p :: p in s && p < x ==> p in below;
    } else {
      LeastExists(below);
      var m :| m in below && forall p :: p in below ==> m <= p;
      assert forall p :: p in s && p < x ==> p in below;
    }
  }
}

module Sequences {

  lemma Regroup<T>(a: seq<T>, b: seq<T>, c: seq<T>)
    ensures a + (b + c) == (a + b) + c
  {
  }
}

module Arithmetic {

  lemma AtLeast(m: nat, d: int)
    requires d >= 1
    ensures m * d >= m
  {
  }

  // A quotient and a remainder determine what % gives.
  lemma Quotient(a: int, m: nat, q: int, r: nat)
    requires r < m && a == m * q + r
    ensures a % m == r
  {
    var d := q - a / m;
    assert m * d == m * q - m * (a / m) == a % m - r;
    if d >= 1 {
      AtLeast(m, d);
    } else if d <= -1 {
      AtLeast(m, -d);
    }
  }

  lemma ModAdd(v: int, d: int, m: nat)
    requires m > 0
    ensures (v % m + d) % m == (v + d) % m
  {
    var q, p := v / m, (v % m + d) / m;
    var r := (v % m + d) % m;
    assert v + d == m * q + (v % m + d) == m * (q + p) + r;
    Quotient(v + d, m, q + p, r);
  }
}

module Bytes {
  import opened Options

  type byte = b: int | 0 <= b < 256

  const W16: nat := 0x1_0000
  const W32: nat := 0x1_0000_0000
  const W64: nat := 0x1_0000_0000_0000_0000

  function Pow256(n: nat): (p: nat)
    ensures p > 0
  {
    if n == 0 then 1 else 256 * Pow256(n - 1)
  }

  lemma Pow256Values()
    ensures Pow256(1) == 256 && Pow256(2) == W16 && Pow256(4) == W32 && Pow256(8) == W64
  {
    assert Pow256(4) == W32;
    assert Pow256(8) == 256 * 256 * 256 * 256 * Pow256(4);
  }

  // The n low bytes of v, least significant first.
  function ToLE(v: nat, n: nat): (s: seq<byte>)
    ensures |s| == n
  {
    if n == 0 then [] else [v % 256] + ToLE(v / 256, n - 1)
  }

  function FromLE(s: seq<byte>): nat {
    if s == [] then 0 else s[0] + 256 * FromLE(s[1..])
  }

  lemma {:induction false} FromLEBound(s: seq<byte>)
    ensures FromLE(s) < Pow256(|s|)
  {
    if s != [] {
      FromLEBound(s[1..]);
    }
  }

  lemma {:induction false} FromToLE(v: nat, n: nat)
    requires v < Pow256(n)
    ensures FromLE(ToLE(v, n)) == v
  {
    if n > 0 {
      assert v / 256 < Pow256(n - 1);
      FromToLE(v / 256, n - 1);
      assert ToLE(v, n)[1..] == ToLE(v / 256, n - 1);
    }
  }

  lemma LowByte(b: byte, rest: nat)
    ensures (b + 256 * rest) % 256 == b && (b + 256 * rest) / 256 == rest
  {
  }

  lemma {:induction false} ToFromLE(s: seq<byte>)
    ensures ToLE(FromLE(s), |s|) == s
  {
    if s != [] {
      ToFromLE(s[1..]);
      LowByte(s[0], FromLE(s[1..]));
      assert s == [s[0]] + s[1..];
    }
  }

  // Guest memory: a byte for every mapped address.
  type Memory = map<int, byte>

  predicate Mapped(m: Memory, a: int, n: nat) {
    forall i :: a <= i < a + n ==> i in m
  }

  // Data lies in memory at a.
  ghost predicate Holds(m: Memory, a: int, data: seq<byte>) {
    Mapped(m, a, |data|) && forall k :: a <= k < a + |data| ==> m[k] == data[k - a]
  }

  function BytesAt(m: Memory, a: int, n: nat): (s: seq<byte>)
    requires Mapped(m, a, n)
    ensures |s| == n && Holds(m, a, s)
  {
    if n == 0 then [] else BytesAt(m, a, n - 1) + [m[a + n - 1]]
  }

  function Read(m: Memory, a: int, n: nat): (r: Option<seq<byte>>)
    ensures r.Some? <==> Mapped(m, a, n)
    ensures r.Some? ==> |r.value| == n && Holds(m, a, r.value)
  {
    if Mapped(m, a, n) then Some(BytesAt(m, a, n)) else None
  }

  function Write(m: Memory, a: int, data: seq<byte>): (m': Memory)
    ensures Holds(m', a, data)
    ensures forall k :: k in m' <==> k in m || a <= k < a + |data|
    ensures forall k :: k in m && !(a <= k < a + |data|) ==> m'[k] == m[k]
    decreases |data|
  {
    if data == [] then m else Write(m[a := data[0]], a + 1, data[1..])
  }

  lemma ReadHeld(m: Memory, a: int, data: seq<byte>)
    requires Holds(m, a, data)
    ensures Read(m, a, |data|) == Some(data)
  {
    var r := BytesAt(m, a, |data|);
    forall i | 0 <= i < |data| ensures r[i] == data[i] {
      assert m[a + i] == data[a + i - a];
    }
    assert r == data;
  }

  lemma HoldsSlice(m: Memory, a: int, data: seq<byte>, lo: nat, hi: nat)
    requires lo <= hi <= |data| && Holds(m, a, data)
    ensures Holds(m, a + lo, data[lo..hi])
  {
  }

  function ReadLE(m: Memory, a: int, n: nat): (r: Option<nat>)
    ensures r.Some? <==> Mapped(m, a, n)
  {
    var data :- Read(m, a, n);
    Some(FromLE(data))
  }

  function ReadU16(m: Memory, a: int): Option<nat> {
    ReadLE(m, a, 2)
  }

  function ReadU32(m: Memory, a: int): Option<nat> {
    ReadLE(m, a, 4)
  }

  function ReadU64(m: Memory, a: int): (r: Option<nat>)
    ensures r.Some? ==> r.value < W64
  {
    Pow256Values();
    match Read(m, a, 8)
    case None => None
    case Some(data) => FromLEBound(data); Some(FromLE(data))
  }

  lemma ReadLEHeld(m: Memory, a: int, v: nat, n: nat)
    requires v < Pow256(n) && Holds(m, a, ToLE(v, n))
    ensures ReadLE(m, a, n) == Some(v)
  {
    ReadHeld(m, a, ToLE(v, n));
    FromToLE(v, n);
  }

  lemma ReadU64Held(m: Memory, a: int, v: nat)
    requires v < W64 && Holds(m, a, ToLE(v, 8))
    ensures ReadU64(m, a) == Some(v)
  {
    Pow256Values();
    ReadLEHeld(m, a, v, 8);
  }

  // Words of n bytes, one after the other
  function Words(ws: seq<nat>, n: nat): seq<byte>
    decreases |ws|
  {
    if ws == [] then [] else ToLE(ws[0], n) + Words(ws[1..], n)
  }

  lemma HoldsParts(m: Memory, a: int, x: seq<byte>, y: seq<byte>)
    requires Holds(m, a, x + y)
    ensures Holds(m, a, x) && Holds(m, a + |x|, y)
  {
    var s := x + y;
    forall k | a <= k < a + |x| ensures m[k] == x[k - a] {
      assert m[k] == s[k - a];
    }
    forall k | a + |x| <= k < a + |x| + |y| ensures m[k] == y[k - a - |x|] {
      assert m[k] == s[k - a];
    }
  }

  lemma {:induction false} WordsLength(ws: seq<nat>, n: nat)
    ensures |Words(ws, n)| == |ws| * n
    decreases |ws|
  {
    if ws != [] {
      WordsLength(ws[1..], n);
    }
  }

  lemma {:induction false} WordHeld(m: Memory, a: int, ws: seq<nat>, n: nat, i: nat)
    requires Holds(m, a, Words(ws, n)) && i < |ws| && ws[i] < Pow256(n)
    ensures ReadLE(m, a + i * n, n) == Some(ws[i])
    decreases |ws|
  {
    hide Holds, ReadLE, ToLE, Pow256;
    HoldsParts(m, a, ToLE(ws[0], n), Words(ws[1..], n));
    if i == 0 {
      ReadLEHeld(m, a, ws[0], n);
    } else {
      assert a + n + (i - 1) * n == a + i * n;
      WordHeld(m, a + n, ws[1..], n, i - 1);
    }
  }
}
