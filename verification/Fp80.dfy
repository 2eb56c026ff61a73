// speakeasy/binemu.py: doubles in the 80-bit registers of the x87 stack.
//
// Bit patterns are natural numbers, and each shift and mask of the program is a multiplication, division or
// remainder by a power of two. The formats are those of section 3.4 of IEEE 754-2008 and of the x87.

module Fp80 {

  function Pow2(n: nat): (p: nat)
    ensures p > 0
  {
    if n == 0 then 1 else 2 * Pow2(n - 1)
  }

  const P11: nat := 0x800
  const P15: nat := 0x8000
  const P52: nat := 0x10_0000_0000_0000
  const P63: nat := 0x8000_0000_0000_0000
  const P64: nat := 0x1_0000_0000_0000_0000

  const QUIET_NAN: nat := 0x7FF8_0000_0000_0000

  lemma {:induction false} Pow2Add(a: nat, b: nat)
    ensures Pow2(a + b) == Pow2(a) * Pow2(b)
  {
    if b > 0 {
      Pow2Add(a, b - 1);
      assert Pow2(a) * Pow2(b) == 2 * (Pow2(a) * Pow2(b - 1));
    }
  }

  lemma Powers()
    ensures Pow2(11) == P11 && Pow2(52) == P52 && Pow2(53) == 2 * P52 && Pow2(63) == P63 && Pow2(64) == P64
  {
    assert Pow2(11) == P11 && Pow2(8) == 256;
    Pow2Add(52, 1);
    Pow2Add(63, 1);
    assert Pow2(1) == 2;
    hide Pow2;
    Pow2Add(11, 11);
    Pow2Add(22, 22);
    Pow2Add(44, 8);
    Pow2Add(52, 11);
  }

  // int.bit_length
  function BitLength(n: nat): nat {
    if n == 0 then 0 else 1 + BitLength(n / 2)
  }

  lemma {:induction false} BitLengthBounds(n: nat)
    requires n > 0
    ensures BitLength(n) > 0 && Pow2(BitLength(n) - 1) <= n < Pow2(BitLength(n))
  {
    if n > 1 {
      BitLengthBounds(n / 2);
    }
  }

  lemma {:induction false} Pow2Mono(a: nat, b: nat)
    requires a <= b
    ensures Pow2(a) <= Pow2(b)
  {
    if a < b {
      Pow2Mono(a, b - 1);
    }
  }

  lemma BitLengthIs(n: nat, k: nat)
    requires k > 0 && Pow2(k - 1) <= n < Pow2(k)
    ensures BitLength(n) == k
  {
    BitLengthBounds(n);
    if BitLength(n) < k {
      Pow2Mono(BitLength(n), k - 1);
    } else if BitLength(n) > k {
      Pow2Mono(k, BitLength(n) - 1);
    }
  }

  lemma FractionLength(fraction: nat)
    requires 0 < fraction < P52
    ensures 0 < BitLength(fraction) <= 52
  {
    Powers();
    BitLengthBounds(fraction);
    if BitLength(fraction) > 52 {
      Pow2Mono(52, BitLength(fraction) - 1);
    }
  }

  // -- The fields of a double

  function Sign(bits: nat): nat {
    bits / P63
  }

  function Exponent(bits: nat): nat {
    bits / P52 % 0x800
  }

  function Fraction(bits: nat): nat {
    bits % P52
  }

  predicate IsDouble(bits: nat) {
    bits < P64
  }

  predicate IsNaN(bits: nat) {
    Exponent(bits) == 0x7FF && Fraction(bits) != 0
  }

  lemma Fields(bits: nat)
    requires IsDouble(bits)
    ensures Sign(bits) < 2 && Fraction(bits) < P52
    ensures bits == Sign(bits) * P63 + Exponent(bits) * P52 + Fraction(bits)
  {
    var high := bits / P52;
    assert bits == high * P52 + bits % P52;
    assert high / 0x800 == bits / P63;
    assert high == high / 0x800 * 0x800 + high % 0x800;
  }

  // -- Conversions

  // A register: the mantissa, and the sign and exponent.
  datatype Register = Register(mantissa: nat, signExponent: nat)

  // double_bits_to_fp80
  function ToFp80(bits: nat): Register {
    var (sign, exponent, fraction) := (Sign(bits) * P15, Exponent(bits), Fraction(bits));
    if exponent == 0x7FF then Register(P63 + fraction * P11, sign + 0x7FFF)
    else if exponent != 0 then Register(P63 + fraction * P11, sign + (exponent - 1023 + 16383))
    else if fraction == 0 then Register(0, sign)
    else
      FractionLength(fraction);
      var shift := 53 - BitLength(fraction);
      Register(fraction * Pow2(11 + shift), sign + (16383 - 1022 - shift))
  }

  // n / 2^s to the nearest integer, ties to even
  function RoundEven(n: nat, s: nat): nat {
    var (q, r) := (n / Pow2(s), n % Pow2(s));
    if 2 * r > Pow2(s) || (2 * r == Pow2(s) && q % 2 == 1) then q + 1 else q
  }

  // The bits of the double nearest to m * 2^e, or of infinity. m has at most 53 bits, or is 2^53.
  function Ldexp(m: nat, e: int): nat {
    var length := BitLength(m);
    var top := length - 1 + e;
    if m == 0 then 0
    else if top > 1023 then 0x7FF * P52
    else if top >= -1022 then
      var significand := if length <= 53 then m * Pow2(53 - length) else m / 2;
      (top + 1023) * P52 + significand - P52
    else if e + 1074 >= 0 then m * Pow2(e + 1074)
    else RoundEven(m, -(e + 1074))
  }

  // math.ldexp of an integer: the integer becomes a double first.
  function LdexpInt(n: nat, e: int): nat {
    var length := BitLength(n);
    if length <= 53 then Ldexp(n, e) else Ldexp(RoundEven(n, length - 53), e + (length - 53))
  }

  // fp80_to_double_bits
  function ToDouble(r: Register): nat {
    var sign := if r.signExponent / P15 % 2 == 1 then P63 else 0;
    var exponent := r.signExponent % P15;
    if exponent == 0x7FFF then
      if r.mantissa % P63 != 0 then QUIET_NAN else sign + 0x7FF * P52
    else sign + LdexpInt(r.mantissa, exponent - 16383 - 63)
  }

  // -- The round trip

  lemma RoundEvenExact(q: nat, s: nat)
    ensures RoundEven(q * Pow2(s), s) == q
  {
    ExactQuotient(q, Pow2(s));
  }

  lemma AtLeastOne(k: int, d: nat)
    requires k >= 1
    ensures k * d >= d
  {
  }

  lemma ExactQuotient(q: nat, d: nat)
    requires d > 0
    ensures q * d / d == q && q * d % d == 0
  {
    var n := q * d;
    assert (q - n / d) * d == n % d;
    if q - n / d >= 1 {
      AtLeastOne(q - n / d, d);
    } else if n / d - q >= 1 {
      AtLeastOne(n / d - q, d);
    }
  }

  // A mantissa of 64 bits whose low 11 bits are clear keeps its value as a double.
  lemma WideMantissa(q: nat, e: int)
    requires P52 <= q < 2 * P52
    ensures LdexpInt(q * P11, e) == Ldexp(q, e + 11) && BitLength(q) == 53
  {
    Powers();
    BitLengthIs(q * P11, 64);
    BitLengthIs(q, 53);
    RoundEvenExact(q, 11);
  }

  // The mantissa of a normal double, converted back
  lemma NormalMantissa(exponent: nat, fraction: nat)
    requires 0 < exponent < 0x7FF && fraction < P52
    ensures LdexpInt((P52 + fraction) * P11, exponent + 15360 - 16446) == exponent * P52 + fraction
  {
    var q := P52 + fraction;
    WideMantissa(q, exponent + 15360 - 16446);
    assert Pow2(0) == 1;
    hide Pow2, BitLength, LdexpInt;
    assert Ldexp(q, exponent - 1075) == exponent * P52 + fraction;
  }

  lemma NormalRoundTrip(bits: nat)
    requires IsDouble(bits) && 0 < Exponent(bits) < 0x7FF
    ensures ToDouble(ToFp80(bits)) == bits
  {
    hide LdexpInt, Pow2, BitLength;
    Fields(bits);
    var exponent, fraction, r := Exponent(bits), Fraction(bits), ToFp80(bits);
    assert r.signExponent == Sign(bits) * P15 + (exponent + 15360);
    assert r.signExponent % P15 == exponent + 15360 && r.signExponent / P15 == Sign(bits);
    assert r.mantissa == (P52 + fraction) * P11;
    NormalMantissa(exponent, fraction);
  }

  lemma SignSplits(sign: nat, e: nat)
    requires e < P15
    ensures (sign * P15 + e) % P15 == e && (sign * P15 + e) / P15 == sign
  {
  }

  lemma SubnormalRoundTrip(bits: nat)
    requires IsDouble(bits) && Exponent(bits) == 0 && Fraction(bits) != 0
    ensures ToDouble(ToFp80(bits)) == bits
  {
    Fields(bits);
    var (fraction, r) := (Fraction(bits), ToFp80(bits));
    FractionLength(fraction);
    var shift := 53 - BitLength(fraction);
    assert r.signExponent == Sign(bits) * P15 + (15361 - shift) && r.mantissa == fraction * Pow2(11 + shift);
    hide ToFp80, Pow2, BitLength, LdexpInt, Exponent, Fraction, Sign;
    SignSplits(Sign(bits), 15361 - shift);
    SubnormalMantissa(fraction);
  }

  // The mantissa of a subnormal double, converted back
  lemma SubnormalMantissa(fraction: nat)
    requires 0 < fraction < P52
    ensures BitLength(fraction) <= 52
    ensures var shift := 53 - BitLength(fraction);
            LdexpInt(fraction * Pow2(11 + shift), 15361 - shift - 16446) == fraction
  {
    FractionLength(fraction);
    BitLengthBounds(fraction);
    var shift := 53 - BitLength(fraction);
    var q := fraction * Pow2(shift);
    ScaledBounds(fraction, BitLength(fraction));
    Regroup(fraction, shift);
    WideMantissa(q, 15361 - shift - 16446);
    RoundEvenExact(fraction, shift);
    hide Pow2, BitLength, RoundEven;
    assert Ldexp(q, 15361 - shift - 16446 + 11) == fraction;
  }

  lemma Regroup(n: nat, shift: nat)
    ensures n * Pow2(11 + shift) == n * Pow2(shift) * P11
  {
    Powers();
    Pow2Add(11, shift);
    assert n * (P11 * Pow2(shift)) == n * Pow2(shift) * P11;
  }

  // Shifting a number of length bits up to 53 bits
  lemma ScaledBounds(n: nat, length: nat)
    requires 0 < length <= 53 && Pow2(length - 1) <= n < Pow2(length)
    ensures P52 <= n * Pow2(53 - length) < 2 * P52
  {
    Powers();
    var s := Pow2(53 - length);
    Pow2Add(length - 1, 53 - length);
    Pow2Add(length, 53 - length);
    MulBetween(Pow2(length - 1), n, Pow2(length), s);
  }

  lemma MulBetween(a: nat, n: nat, b: nat, s: nat)
    requires a <= n < b && s > 0
    ensures a * s <= n * s < b * s
  {
  }

  // Every double that is not a NaN comes back from the register, bit for bit.
  lemma RoundTrip(bits: nat)
    requires IsDouble(bits) && !IsNaN(bits)
    ensures ToDouble(ToFp80(bits)) == bits
  {
    Fields(bits);
    if 0 < Exponent(bits) < 0x7FF {
      NormalRoundTrip(bits);
    } else if Exponent(bits) == 0 && Fraction(bits) != 0 {
      SubnormalRoundTrip(bits);
    } else {
      var r := ToFp80(bits);
      assert r.signExponent / P15 == Sign(bits);
      assert r.signExponent % P15 == if Exponent(bits) == 0 then 0 else 0x7FFF;
    }
  }

  // Exactly the NaNs do not all come back: each becomes the one quiet NaN.
  lemma NaNsCollapse(bits: nat)
    requires IsDouble(bits) && IsNaN(bits)
    ensures ToDouble(ToFp80(bits)) == QUIET_NAN
  {
    Fields(bits);
    var r := ToFp80(bits);
    assert r.signExponent % P15 == 0x7FFF;
    assert r.mantissa % P63 == Fraction(bits) * P11;
  }

  // So a double comes back exactly when it is not a NaN, or is the quiet NaN itself.
  lemma RoundTripExactly(bits: nat)
    requires IsDouble(bits)
    ensures ToDouble(ToFp80(bits)) == bits <==> !IsNaN(bits) || bits == QUIET_NAN
  {
    hide ToDouble, ToFp80;
    if IsNaN(bits) {
      NaNsCollapse(bits);
    } else {
      RoundTrip(bits);
    }
  }

  // -- The value that the bits stand for

  // The magnitude of a finite double, times 2^1074
  function Magnitude(bits: nat): nat {
    if Exponent(bits) == 0 then Fraction(bits) else (P52 + Fraction(bits)) * Pow2(Exponent(bits) - 1)
  }

  // The register has the same sign and exactly the same value: mantissa * 2^(exponent - 16446).
  lemma SameValue(bits: nat)
    requires IsDouble(bits) && Exponent(bits) != 0x7FF
    ensures var (r, e) := (ToFp80(bits), ToFp80(bits).signExponent % P15);
            && r.signExponent / P15 == Sign(bits)
            && (e < 15309 ==> r.mantissa == 0 == Magnitude(bits))
            && (e >= 15309 ==> r.mantissa * Pow2(e - 15309) == Magnitude(bits) * P63)
  {
    Fields(bits);
    var (exponent, fraction, r) := (Exponent(bits), Fraction(bits), ToFp80(bits));
    if exponent != 0 {
      assert r.signExponent == Sign(bits) * P15 + (exponent + 15360) && r.mantissa == (P52 + fraction) * P11;
      hide ToFp80, Exponent, Fraction, Sign, Pow2;
      SignSplits(Sign(bits), exponent + 15360);
      NormalValue(P52 + fraction, exponent - 1);
    } else if fraction != 0 {
      FractionLength(fraction);
      var length := BitLength(fraction);
      assert r.signExponent == Sign(bits) * P15 + (15308 + length);
      hide Exponent, Fraction, Sign, Pow2, BitLength;
      SignSplits(Sign(bits), 15308 + length);
      SubnormalValue(fraction, length);
    } else {
      assert r.signExponent == Sign(bits) * P15 && r.mantissa == 0;
      hide ToFp80, Exponent, Fraction, Sign, Pow2;
      SignSplits(Sign(bits), 0);
    }
  }

  lemma NormalValue(q: nat, e: nat)
    ensures q * P11 * Pow2(e + 52) == q * Pow2(e) * P63
  {
    Powers();
    Pow2Add(e, 52);
    var p := Pow2(e);
    assert q * P11 * (p * P52) == q * p * P63;
  }

  lemma SubnormalValue(fraction: nat, length: nat)
    requires 0 < length <= 52
    ensures fraction * Pow2(64 - length) * Pow2(length - 1) == fraction * P63
  {
    Powers();
    Pow2Add(64 - length, length - 1);
    hide Pow2;
    MulAssociates(fraction, Pow2(64 - length), Pow2(length - 1));
  }

  lemma MulAssociates(a: nat, b: nat, c: nat)
    ensures a * b * c == a * (b * c)
  {
  }

  // -- The register stack

  // The eight data registers, the status word, and the two tag bits of each register (3 is empty).
  datatype Fpu = Fpu(registers: seq<Register>, status: nat, tags: seq<nat>)

  predicate IsFpu(f: Fpu) {
    |f.registers| == 8 && |f.tags| == 8
  }

  // The top of stack is in bits 11 to 13 of the status word.
  function TopOf(status: nat): (top: nat)
    ensures top < 8
  {
    status / P11 % 8
  }

  function WithTop(status: nat, top: nat): nat {
    status - TopOf(status) * P11 + top * P11
  }

  lemma TopSet(status: nat, top: nat)
    requires top < 8
    ensures TopOf(WithTop(status, top)) == top
    ensures WithTop(WithTop(status, top), TopOf(status)) == status
  {
    var q := status / P11 / 8;
    assert status == q * 0x4000 + TopOf(status) * P11 + status % P11;
    TopSplits(q, top, status % P11);
  }

  lemma TopSplits(q: nat, top: nat, low: nat)
    requires top < 8 && low < P11
    ensures (q * 0x4000 + top * P11 + low) / P11 % 8 == top
  {
    assert (q * 0x4000 + top * P11 + low) / P11 == q * 8 + top;
  }

  function Before(top: nat): nat
    requires top < 8
  {
    (top + 7) % 8
  }

  function After(top: nat): nat
    requires top < 8
  {
    (top + 1) % 8
  }

  // push_fpu_double
  function Push(f: Fpu, bits: nat): (r: Fpu)
    requires IsFpu(f)
    ensures IsFpu(r)
  {
    var top := Before(TopOf(f.status));
    Fpu(f.registers[top := ToFp80(bits)], WithTop(f.status, top), f.tags[top := 0])
  }

  // pop_fpu_double
  function Pop(f: Fpu): (r: (nat, Fpu))
    requires IsFpu(f)
    ensures IsFpu(r.1)
  {
    var top := TopOf(f.status);
    (ToDouble(f.registers[top]), Fpu(f.registers, WithTop(f.status, After(top)), f.tags[top := 3]))
  }

  function PushAll(f: Fpu, values: seq<nat>): (r: Fpu)
    requires IsFpu(f)
    ensures IsFpu(r)
    decreases |values|
  {
    if values == [] then f else PushAll(Push(f, values[0]), values[1..])
  }

  function PopAll(f: Fpu, n: nat): (r: (seq<nat>, Fpu))
    requires IsFpu(f)
    ensures IsFpu(r.1) && |r.0| == n
    decreases n
  {
    if n == 0 then ([], f)
    else
      var (v, f1) := Pop(f);
      var (rest, f2) := PopAll(f1, n - 1);
      ([v] + rest, f2)
  }

  predicate Restorable(values: seq<nat>) {
    forall i :: 0 <= i < |values| ==> IsDouble(values[i]) && !IsNaN(values[i])
  }

  // A register is one of the next n to be pushed when the top is top.
  predicate Next(top: nat, n: nat, r: nat) {
    top < 8 && r < 8 && (top + 7 - r) % 8 < n
  }

  // Popping a value that is still in its register gives it back, and the status word from before the push.
  lemma PopPushed(f: Fpu, bits: nat, now: Fpu)
    requires IsFpu(f) && IsFpu(now) && IsDouble(bits) && !IsNaN(bits)
    requires now.status == Push(f, bits).status && now.registers[Before(TopOf(f.status))] == ToFp80(bits)
    ensures Pop(now) == (bits, Fpu(now.registers, f.status, now.tags[Before(TopOf(f.status)) := 3]))
  {
    hide TopOf, WithTop, ToFp80, ToDouble, IsDouble;
    var top := TopOf(f.status);
    TopSet(f.status, Before(top));
    RoundTrip(bits);
    assert After(Before(top)) == top;
  }

  lemma {:induction false} PopAllSplit(f: Fpu, n: nat)
    requires IsFpu(f) && n > 0
    ensures var (first, mid) := PopAll(f, n - 1);
            var (v, end) := Pop(mid);
            PopAll(f, n) == (first + [v], end)
    decreases n
  {
    hide Pop;
    if n == 1 {
      assert PopAll(Pop(f).1, 0) == ([], Pop(f).1);
      assert [Pop(f).0] + [] == [] + [Pop(f).0];
    } else {
      var (v0, f1) := Pop(f);
      PopAllSplit(f1, n - 1);
      var (first, mid) := PopAll(f1, n - 2);
      assert [v0] + (first + [Pop(mid).0]) == ([v0] + first) + [Pop(mid).0];
    }
  }

  lemma NextStep(top: nat, n: nat)
    requires top < 8 && 0 < n <= 8
    ensures !Next(Before(top), n - 1, Before(top))
    ensures forall k :: 0 <= k < 8 ==> (Next(top, n, k) <==> k == Before(top) || Next(Before(top), n - 1, k))
  {
  }

  // After the pops: values come back in reverse order, and only the registers pushed on changed, and are empty.
  ghost predicate PoppedAll(f: Fpu, values: seq<nat>, popped: seq<nat>, r: Fpu)
    requires IsFpu(f) && IsFpu(r) && |popped| == |values|
  {
    && (forall i :: 0 <= i < |values| ==> popped[i] == values[|values| - 1 - i])
    && r.status == f.status
    && (forall k :: 0 <= k < 8 ==>
          if Next(TopOf(f.status), |values|, k) then r.tags[k] == 3
          else r.tags[k] == f.tags[k] && r.registers[k] == f.registers[k])
  }

  lemma PoppedOne(f: Fpu, values: seq<nat>, popped: seq<nat>, mid: Fpu)
    requires IsFpu(f) && IsFpu(mid) && 0 < |values| <= 8 && |popped| == |values| - 1
    requires IsDouble(values[0]) && !IsNaN(values[0])
    requires PoppedAll(Push(f, values[0]), values[1..], popped, mid)
    ensures var (v, r) := Pop(mid); PoppedAll(f, values, popped + [v], r)
  {
    var top, f1 := TopOf(f.status), Push(f, values[0]);
    TopSet(f.status, Before(top));
    NextStep(top, |values|);
    hide TopOf, WithTop, ToFp80, ToDouble, Next, Before, Pop, IsNaN;
    assert TopOf(f1.status) == Before(top);
    PopPushed(f, values[0], mid);
  }

  // Pushing up to eight values and popping as many gives them back in reverse order and restores the status word.
  lemma {:induction false} PopAllPushAll(f: Fpu, values: seq<nat>)
    requires IsFpu(f) && |values| <= 8 && Restorable(values)
    ensures var (popped, r) := PopAll(PushAll(f, values), |values|);
            PoppedAll(f, values, popped, r)
    decreases |values|
  {
    hide Push, Pop, PoppedAll, IsNaN, TopOf;
    if values != [] {
      var f1, rest := Push(f, values[0]), values[1..];
      PopAllPushAll(f1, rest);
      PopAllSplit(PushAll(f1, rest), |values|);
      var (popped, mid) := PopAll(PushAll(f1, rest), |rest|);
      PoppedOne(f, values, popped, mid);
    } else {
      NothingPopped(f);
    }
  }

  lemma NothingPopped(f: Fpu)
    requires IsFpu(f)
    ensures PoppedAll(f, [], [], f)
  {
  }

  class FpuStack {
    var registers: seq<Register>
    var status: nat
    var tags: seq<nat>

    function Value(): Fpu
      reads this
    {
      Fpu(registers, status, tags)
    }

    method PushDouble(bits: nat)
      requires IsFpu(Value())
      modifies this
      ensures Value() == Push(old(Value()), bits)
    {
      var top := (status / P11 % 8 + 7) % 8;
      registers := registers[top := ToFp80(bits)];
      status := WithTop(status, top);
      tags := tags[top := 0];
    }

    method PopDouble() returns (bits: nat)
      requires IsFpu(Value())
      modifies this
      ensures (bits, Value()) == Pop(old(Value()))
    {
      var top := status / P11 % 8;
      bits := ToDouble(registers[top]);
      status := WithTop(status, (top + 1) % 8);
      tags := tags[top := 3];
    }
  }
}
