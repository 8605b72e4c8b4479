/**
 Bit decompositions over the field (circuits/src/mpc_gadgets/bits.rs). A shared scalar is modelled by
 its plaintext; the preprocessing randomness is an explicit argument.
 */
module MpcBits {
  import opened Numbers
  import opened ResidueField
  import opened ScalarField
  import Primality

  const SCALAR_MAX_BITS: nat := 253
  const SCALAR_BYTES_BITS: nat := 256

  /** 2^m as a scalar; the source gives up (returns zero) from 253 bits on. */
  function Scalar2ToM(m: nat): Elem {
    if m >= SCALAR_MAX_BITS then 0
    else if m >= 128 then Mul(F(Pow2(127)), F(Pow2(m - 127)))
    else F(Pow2(m))
  }

  lemma Scalar2ToMIsPower(m: nat)
    requires m < SCALAR_MAX_BITS
    ensures Scalar2ToM(m) == F(Pow2(m)) && Scalar2ToM(m) == Pow2(m)
  {
    hide F, Mul;
    if m >= 128 {
      FMul(Pow2(127), Pow2(m - 127));
      Pow2Add(127, m - 127);
    }
    PowerBelowModulus(m);
    FSelf(Pow2(m));
  }

  lemma PowerBelowModulus(m: nat)
    requires m < SCALAR_MAX_BITS
    ensures Pow2(m) < P
  {
    Pow2Monotone(m, 252);
    Pow2Literals();
  }

  lemma {:induction false} PowerNonZero(m: nat)
    ensures F(Pow2(m)) != 0
  {
    hide F, Mul;
    ModulusSize();
    if m == 0 {
      FSelf(1);
    } else {
      PowerNonZero(m - 1);
      FSelf(2);
      FMul(2, Pow2(m - 1));
      if Mul(2, F(Pow2(m - 1))) == 0 {
        NoZeroDivisors(2, F(Pow2(m - 1)));
      }
    }
  }

  /** The scalar stands for 2^m exactly below 253 bits. */
  lemma Scalar2ToMExact(m: nat)
    ensures Scalar2ToM(m) == F(Pow2(m)) <==> m < SCALAR_MAX_BITS
    ensures Scalar2ToM(m) == 0 <==> m >= SCALAR_MAX_BITS
  {
    hide F, Mul;
    PowerNonZero(m);
    if m < SCALAR_MAX_BITS {
      Scalar2ToMIsPower(m);
    }
  }

  // ---- bit vectors ---------------------------------------------------------------------

  predicate IsBit(e: Elem) {
    e == 0 || e == 1
  }

  predicate AllBits(s: seq<Elem>) {
    forall i :: 0 <= i < |s| ==> IsBit(s[i])
  }

  function Bit(b: bool): Elem {
    if b then 1 else 0
  }

  /** The integer whose little-endian digits are `bits`. */
  function Value(bits: seq<Elem>): nat {
    if |bits| == 0 then 0 else bits[0] as int + 2 * Value(bits[1..])
  }

  /** The n least significant bits of x. */
  function BitsOf(x: nat, n: nat): (s: seq<Elem>)
    ensures |s| == n && AllBits(s) && Value(s) == x % Pow2(n)
  {
    if n == 0 then []
    else
      var rest := BitsOf(x / 2, n - 1);
      HalveMod(x, Pow2(n - 1));
      [x % 2] + rest
  }

  lemma ZeroBits(m: nat)
    ensures Value(BitsOf(0, m)) == 0
  {
    DivModUnique(0, 0, 0, Pow2(m));
  }

  lemma HalveMod(x: nat, m: nat)
    requires m > 0
    ensures x % (2 * m) == x % 2 + 2 * (x / 2 % m)
  {
    var h := x / 2;
    assert h == m * (h / m) + h % m;
    DivModUnique(x, h / m, x % 2 + 2 * (h % m), 2 * m) by {
      MulRotates(2, m, h / m);
    }
  }

  lemma {:induction false} ValueBound(s: seq<Elem>)
    requires AllBits(s)
    ensures Value(s) < Pow2(|s|)
  {
    if |s| > 0 { ValueBound(s[1..]); }
  }

  /** A bit vector is determined by its length and value. */
  lemma {:induction false} BitsOfValue(s: seq<Elem>)
    requires AllBits(s)
    ensures BitsOf(Value(s), |s|) == s
  {
    if |s| > 0 {
      BitsOfValue(s[1..]);
      assert Value(s) / 2 == Value(s[1..]) && Value(s) % 2 == s[0];
    }
  }

  lemma {:induction false} ValuePrefix(s: seq<Elem>, n: nat)
    requires AllBits(s) && n <= |s|
    ensures Value(s[..n]) == Value(s) % Pow2(n)
  {
    if n > 0 {
      ValuePrefix(s[1..], n - 1);
      assert s[..n][1..] == s[1..][..n - 1];
      HalveMod(Value(s), Pow2(n - 1));
      assert Value(s) / 2 == Value(s[1..]) && Value(s) % 2 == s[0];
    }
  }

  /** Pads with zeros or truncates to length n. */
  function Resize(s: seq<Elem>, n: nat): seq<Elem> {
    (s + seq(if |s| < n then n - |s| else 0, _ => 0))[..n]
  }

  /** Horner evaluation from the top bit; the source refuses an empty vector. */
  method ScalarFromBitsLe(bits: seq<Elem>) returns (result: Elem)
    requires bits != []
    ensures result == FromBits(bits)
  {
    hide F, Add, Mul;
    var i := |bits| - 1;
    result := bits[i];
    assert bits[i..] == [bits[i]] && Value([bits[i]]) == bits[i];
    FSelf(bits[i]);
    while i > 0
      invariant 0 <= i < |bits|
      invariant result == FromBits(bits[i..])
    {
      i := i - 1;
      HornerStep(bits[i], bits[i + 1..]);
      assert bits[i..] == [bits[i]] + bits[i + 1..];
      result := Add(Mul(result, 2), bits[i]);
    }
    assert bits[0..] == bits;
  }

  function FromBits(bits: seq<Elem>): Elem {
    F(Value(bits))
  }

  lemma HornerStep(bit: Elem, rest: seq<Elem>)
    ensures FromBits([bit] + rest) == Add(Mul(FromBits(rest), 2), bit)
  {
    hide F, Add, Mul;
    assert ([bit] + rest)[1..] == rest;
    FSelf(2);
    FSelf(bit);
    FMul(Value(rest), 2);
    FAdd(Value(rest) * 2, bit);
  }

  // ---- the ripple-carry adder ----------------------------------------------------------

  function BitXor(a: Elem, b: Elem): Elem {
    Sub(Add(a, b), Mul(Mul(2, a), b))
  }

  function CarryBit(a: Elem, b: Elem, carry: Elem): Elem {
    Add(Mul(a, b), Mul(BitXor(a, b), carry))
  }

  lemma BitXorIsXor(a: Elem, b: Elem)
    requires IsBit(a) && IsBit(b)
    ensures BitXor(a, b) == if a == b then 0 else 1
  {
    hide F, Add, Mul, Sub;
    var x: int, y: int := a, b;
    FSelf(a);
    FSelf(b);
    FSelf(2);
    FMul(2, x);
    FMul(2 * x, y);
    FAdd(x, y);
    FSub(x + y, 2 * x * y);
    FSelf(0);
    FSelf(1);
  }

  lemma CarryBitIsMajority(a: Elem, b: Elem, c: Elem)
    requires IsBit(a) && IsBit(b) && IsBit(c)
    ensures CarryBit(a, b, c) == if a as int + b as int + c as int >= 2 then 1 else 0
  {
    hide F, Add, Mul, BitXor;
    BitXorIsXor(a, b);
    MulOne(a);
    MulOne(c);
    FAdd(0, 0);
    FAdd(0, 1);
    FAdd(1, 0);
    FSelf(0);
    FSelf(1);
  }

  /** Sum bits and carry out of the adder. */
  function RippleAdd(a: seq<Elem>, b: seq<Elem>, carry: Elem): (r: (seq<Elem>, Elem))
    requires |a| == |b|
    ensures |r.0| == |a|
    decreases |a|
  {
    if |a| == 0 then ([], carry)
    else
      var rest := RippleAdd(a[1..], b[1..], CarryBit(a[0], b[0], carry));
      ([BitXor(BitXor(a[0], b[0]), carry)] + rest.0, rest.1)
  }

  /** The adder adds: nothing is lost but what the carry out says. */
  lemma {:induction false} RippleAddValue(a: seq<Elem>, b: seq<Elem>, carry: Elem)
    requires |a| == |b| && AllBits(a) && AllBits(b) && IsBit(carry)
    ensures var (sum, out) := RippleAdd(a, b, carry);
      AllBits(sum) && IsBit(out) &&
      Value(sum) + Pow2(|a|) * out as int == Value(a) + Value(b) + carry as int
    decreases |a|
  {
    hide BitXor, CarryBit;
    if |a| > 0 {
      var x := BitXor(a[0], b[0]);
      var c := CarryBit(a[0], b[0], carry);
      BitXorIsXor(a[0], b[0]);
      BitXorIsXor(x, carry);
      CarryBitIsMajority(a[0], b[0], carry);
      RippleAddValue(a[1..], b[1..], c);
      var (rest, out) := RippleAdd(a[1..], b[1..], c);
      assert ([BitXor(x, carry)] + rest)[1..] == rest;
      MulRotates(2, Pow2(|a| - 1), out);
      MulCommutes(Pow2(|a| - 1) * out as int, 2);
    }
  }

  /** The source's loop: push a sum bit, update the carry. */
  method BitAddImpl(a: seq<Elem>, b: seq<Elem>, initialCarry: Elem) returns (result: seq<Elem>, carry: Elem)
    requires |a| == |b|
    ensures (result, carry) == RippleAdd(a, b, initialCarry)
    ensures AllBits(a) && AllBits(b) && IsBit(initialCarry) ==>
      AllBits(result) && IsBit(carry) &&
      Value(result) + Pow2(|a|) * carry as int == Value(a) + Value(b) + initialCarry as int
  {
    hide BitXor, CarryBit, Add, Mul;
    result, carry := [], initialCarry;
    assert a[0..] == a && b[0..] == b;
    for i := 0 to |a|
      invariant RippleAdd(a, b, initialCarry).0 == result + RippleAdd(a[i..], b[i..], carry).0
      invariant RippleAdd(a, b, initialCarry).1 == RippleAdd(a[i..], b[i..], carry).1
    {
      assert a[i..][1..] == a[i + 1..] && b[i..][1..] == b[i + 1..];
      ghost var rest := RippleAdd(a[i + 1..], b[i + 1..], CarryBit(a[i], b[i], carry));
      var aXorB := BitXor(a[i], b[i]);
      assert result + ([BitXor(aXorB, carry)] + rest.0) == result + [BitXor(aXorB, carry)] + rest.0;
      result := result + [BitXor(aXorB, carry)];
      carry := CarryBit(a[i], b[i], carry);
    }
    assert a[|a|..] == [] && b[|a|..] == [];
    assert RippleAdd([], [], carry) == ([], carry) && result + [] == result;
    if AllBits(a) && AllBits(b) && IsBit(initialCarry) {
      RippleAddValue(a, b, initialCarry);
    }
  }

  // ---- comparison of bit vectors -------------------------------------------------------

  function Inverted(b: seq<Elem>): (r: seq<Elem>)
    ensures |r| == |b|
  {
    if |b| == 0 then [] else [Sub(1, b[0])] + Inverted(b[1..])
  }

  function BitLt(a: seq<Elem>, b: seq<Elem>): Elem
    requires |a| == |b|
  {
    Sub(1, RippleAdd(a, Inverted(b), 1).1)
  }

  lemma OneMinusBit(b: Elem)
    requires IsBit(b)
    ensures Sub(1, b) == 1 - b as int
  {
    hide F;
    FSelf(0);
    FSelf(1);
  }

  /** The selection polynomial a s + b (1 - s) of both proof systems. */
  function Selected(a: Elem, b: Elem, s: Elem): Elem {
    Add(Mul(a, s), Mul(b, Sub(1, s)))
  }

  lemma SelectedByBit(a: Elem, b: Elem, s: Elem)
    requires IsBit(s)
    ensures Selected(a, b, s) == if s == 1 then a else b
  {
    hide F, Add, Mul, Sub;
    OneMinusBit(s);
    MulOne(a);
    MulOne(b);
    FSelf(0);
    FSelf(a);
    FSelf(b);
    FAdd(a, 0);
    FAdd(0, b);
  }

  lemma {:induction false} InvertedValue(b: seq<Elem>)
    requires AllBits(b)
    ensures AllBits(Inverted(b)) && Value(Inverted(b)) == Pow2(|b|) - 1 - Value(b)
  {
    hide Sub;
    if |b| > 0 {
      OneMinusBit(b[0]);
      InvertedValue(b[1..]);
      assert Inverted(b)[1..] == Inverted(b[1..]);
    }
  }

  /** bit_lt decides the strict integer order, on empty vectors too. */
  lemma BitLtIsLess(a: seq<Elem>, b: seq<Elem>)
    requires |a| == |b| && AllBits(a) && AllBits(b)
    ensures BitLt(a, b) == if Value(a) < Value(b) then 1 else 0
  {
    hide Sub, RippleAdd, AllBits;
    InvertedValue(b);
    RippleAddValue(a, Inverted(b), 1);
    var (sum, out) := RippleAdd(a, Inverted(b), 1);
    ValueBound(sum);
    OneMinusBit(out);
    CarryDecides(Value(sum), Pow2(|a|), out, Value(a), Value(b));
  }

  lemma CarryDecides(s: int, m: int, out: int, x: int, y: int)
    requires 0 <= s < m && 0 <= out <= 1 && s + m * out == x - y + m
    ensures out == 1 <==> x >= y
  {
  }

  // ---- blinded openings ----------------------------------------------------------------

  /** Preprocessing randomness that hides an opened value: low bits and an upper scalar. */
  datatype Blind = Blind(low: seq<Elem>, high: Elem)

  /** How often the integer t wraps around the modulus when it is reduced to a field element. */
  function Wraps(t: int): int {
    t / P
  }

  /** Reducing t modulo P leaves its m low bits alone. */
  ghost predicate KeepsLowBits(t: int, m: nat) {
    Wraps(t) % Pow2(m) == 0
  }

  lemma NoWrapKeepsLowBits(t: int, m: nat)
    requires 0 <= t < P
    ensures KeepsLowBits(t, m)
  {
    DivModUnique(t, 0, t, P);
  }

  lemma {:induction false} OddFactor(k: int, p: int, m: nat)
    requires p % 2 == 1
    ensures (k * p) % Pow2(m) == 0 <==> k % Pow2(m) == 0
    decreases m
  {
    if m > 0 {
      var h := Pow2(m - 1);
      if k % (2 * h) == 0 { FactorOfMultiple(k, p, 2 * h); }
      if (k * p) % (2 * h) == 0 {
        HalveProduct(k, p, h);
        OddFactor(k / 2, p, m - 1);
        DoubleMultiple(k, h);
      }
    }
  }

  lemma FactorOfMultiple(k: int, p: int, n: int)
    requires n > 0 && k % n == 0
    ensures (k * p) % n == 0
  {
    var j := k / n;
    assert k == n * j;
    MulRotates(n, j, p);
    DivModUnique(k * p, j * p, 0, n);
  }

  lemma HalveProduct(k: int, p: int, h: int)
    requires p % 2 == 1 && h > 0 && (k * p) % (2 * h) == 0
    ensures k % 2 == 0 && (k / 2 * p) % h == 0
  {
    var j, l := k * p / (2 * h), k / 2;
    MulRotates(2, h, j);
    assert k * p == 2 * (h * j);
    OddTimesOdd(k, p);
    MulRotates(2, l, p);
    MulCommutes(h, j);
    DivModUnique(l * p, j, 0, h);
  }

  lemma DoubleMultiple(k: int, h: int)
    requires h > 0 && k % 2 == 0 && k / 2 % h == 0
    ensures k % (2 * h) == 0
  {
    var j := k / 2 / h;
    MulRotates(2, h, j);
    DivModUnique(k, j, 0, 2 * h);
  }

  lemma OddTimesOdd(k: int, p: int)
    requires p % 2 == 1 && (k * p) % 2 == 0
    ensures k % 2 == 0
  {
    var j := p / 2;
    assert k * p == 2 * (k * j) + k by {
      assert p == 2 * j + 1;
      MulDistributesOver(k, 2 * j, 1);
      MulRotates(2, j, k);
    }
  }

  lemma ModulusIsOdd()
    ensures P % 2 == 1
  {
    assert !Primality.Divides(2, P);
  }

  /** Unblinding an opened value is exact precisely when the blinded integer keeps its low bits. */
  lemma LowBitsKeptIff(x: int, t: int, m: nat)
    ensures (x - Wraps(t) * P) % Pow2(m) == x % Pow2(m) <==> KeepsLowBits(t, m)
  {
    hide Wraps;
    ModulusIsOdd();
    ShiftKeepsIff(x, Wraps(t), P, m);
  }

  lemma ShiftKeepsIff(x: int, w: int, p: int, m: nat)
    requires p % 2 == 1
    ensures (x - w * p) % Pow2(m) == x % Pow2(m) <==> w % Pow2(m) == 0
  {
    var s := w * p;
    ModEqualsIff(x - s, x, Pow2(m));
    NegMultiple(s, Pow2(m));
    OddFactor(w, p, m);
  }

  lemma NegMultiple(k: int, m: int)
    requires m > 0
    ensures k % m == 0 <==> (-k) % m == 0
  {
    if k % m == 0 { DivModUnique(-k, -(k / m), 0, m); }
    if (-k) % m == 0 { DivModUnique(k, -((-k) / m), 0, m); }
  }

  // ---- to_bits_le ----------------------------------------------------------------------

  /** The integer whose residue to_bits_le opens for a shared input representing x. */
  function BitsOpening(d: nat, x: int, blind: Blind): int {
    x - Value(blind.low) - Pow2(d) * blind.high as int + (if d + 1 < SCALAR_MAX_BITS then Pow2(d + 1) else 0)
  }

  function ToBitsLe(d: nat, x: Elem, isPublic: bool, blind: Blind): seq<Elem>
    requires d < SCALAR_MAX_BITS
    requires !isPublic ==> 0 < d == |blind.low|
  {
    if isPublic then BitsOf(x, SCALAR_BYTES_BITS)
    else
      var blinding := Add(Mul(blind.high, Scalar2ToM(d)), FromBits(blind.low));
      var open := Add(Sub(x, blinding), Scalar2ToM(d + 1));
      RippleAdd(Resize(BitsOf(open, SCALAR_BYTES_BITS), d), Resize(blind.low, d), 0).0
  }

  lemma OpeningIsReduction(d: nat, x: int, blind: Blind)
    requires 0 < d < SCALAR_MAX_BITS
    ensures Add(Sub(F(x), Add(Mul(blind.high, Scalar2ToM(d)), FromBits(blind.low))), Scalar2ToM(d + 1))
         == F(BitsOpening(d, x, blind))
  {
    hide F, Add, Sub, Mul, Scalar2ToM, Value;
    var r, h := Value(blind.low), Pow2(d) * blind.high as int;
    Scalar2ToMIsPower(d);
    FSelf(blind.high);
    FMul(blind.high, Pow2(d));
    MulCommutes(blind.high, Pow2(d));
    FAdd(h, r);
    FSub(x, h + r);
    if d + 1 < SCALAR_MAX_BITS {
      Scalar2ToMIsPower(d + 1);
      FAdd(x - (h + r), Pow2(d + 1));
    } else {
      assert Scalar2ToM(d + 1) == 0 by { Scalar2ToMExact(d + 1); }
      FSelf(0);
      FAdd(x - (h + r), 0);
    }
  }

  lemma {:induction false} ResizeValue(s: seq<Elem>, n: nat)
    requires AllBits(s) && n <= |s|
    ensures |Resize(s, n)| == n && AllBits(Resize(s, n)) && Value(Resize(s, n)) == Value(s) % Pow2(n)
  {
    assert Resize(s, n) == s[..n];
    ValuePrefix(s, n);
  }

  lemma CanonicalBits(o: Elem)
    ensures Value(BitsOf(o, SCALAR_BYTES_BITS)) == o
  {
    ModulusSize();
    Pow2Literals();
    Pow2Add(252, 4);
    DivModUnique(o, 0, o, Pow2(256));
  }

  /**
   The decomposition of a shared x, for every blinding: the result is a bit vector whose value
   is x minus the wrap-around, so it is the two's complement of x exactly when the low bits survive.
   */
  lemma ToBitsLeExact(d: nat, x: int, blind: Blind)
    requires 0 < d < SCALAR_MAX_BITS && |blind.low| == d && AllBits(blind.low)
    ensures var bits := ToBitsLe(d, F(x), false, blind);
      var t := BitsOpening(d, x, blind);
      && |bits| == d && AllBits(bits)
      && Value(bits) == (x - Wraps(t) * P) % Pow2(d)
      && (bits == BitsOf(x % Pow2(d), d) <==> KeepsLowBits(t, d))
  {
    hide F, Add, Sub, Mul, Scalar2ToM, Value, RippleAdd, Resize, BitsOf, AllBits, KeepsLowBits, Wraps, Pow2, BitsOpening;
    var t := BitsOpening(d, x, blind);
    var o := F(t);
    OpeningIsReduction(d, x, blind);
    var wide := BitsOf(o, SCALAR_BYTES_BITS);
    CanonicalBits(o);
    ResizeValue(wide, d);
    ResizeValue(blind.low, d);
    ValueBound(blind.low);
    DivModUnique(Value(blind.low), 0, Value(blind.low), Pow2(d));
    RippleAddValue(Resize(wide, d), Resize(blind.low, d), 0);
    var (bits, out) := RippleAdd(Resize(wide, d), Resize(blind.low, d), 0);
    ValueBound(bits);
    MulCommutes(Pow2(d), out);
    DivModUnique(o % Pow2(d) + Value(blind.low), out, Value(bits), Pow2(d));
    UnblindBits(d, x, blind);
    LowBitsKeptIff(x, t, d);
    BitsOfValue(bits);
    DivModUnique(x % Pow2(d), 0, x % Pow2(d), Pow2(d));
    assert Value(BitsOf(x % Pow2(d), d)) == x % Pow2(d);
  }

  lemma UnblindBits(d: nat, x: int, blind: Blind)
    requires 0 < d < SCALAR_MAX_BITS
    ensures var t := BitsOpening(d, x, blind);
      (F(t) as int % Pow2(d) + Value(blind.low)) % Pow2(d) == (x - Wraps(t) * P) % Pow2(d)
  {
    hide Value, F, Wraps;
    var t := BitsOpening(d, x, blind);
    FIsShift(t);
    var c := if d + 1 < SCALAR_MAX_BITS then 2 else 0;
    MulCommutes(Pow2(d), blind.high);
    MulDistributesOver(Pow2(d), c, -(blind.high as int));
    UnblindMod(x, F(t), t, Wraps(t) * P, Value(blind.low), c - blind.high as int, Pow2(d));
  }

  lemma FIsShift(t: int)
    ensures F(t) as int == t - Wraps(t) * P
  {
    MulCommutes(P, Wraps(t));
  }

  /** Different integers that agree modulo P are at least P apart. */
  lemma FarApart(x: int, y: int)
    requires F(x) == F(y) && x != y
    ensures x >= y + P || x <= y - P
  {
    hide F;
    FIsShift(x);
    FIsShift(y);
    var k := Wraps(x) - Wraps(y);
    MulDistributesOver(P, Wraps(x), -Wraps(y));
    assert x - y == P * k;
    MultipleBound(P, k);
  }

  lemma UnblindMod(x: int, o: int, t: int, s: int, r: int, j: int, m: int)
    requires m > 0 && o == t - s && t + r == x + j * m
    ensures (o % m + r) % m == (x - s) % m
  {
    ModAddLeft(o, r, m);
    ModShift(x - s, j, m);
  }

  /** A public input is decomposed locally, into all 256 stored bits whatever d is. */
  lemma ToBitsLePublic(d: nat, x: Elem, blind: Blind)
    requires d < SCALAR_MAX_BITS
    ensures var bits := ToBitsLe(d, x, true, blind);
      |bits| == SCALAR_BYTES_BITS && AllBits(bits) && Value(bits) == x
  {
    CanonicalBits(x);
  }
}
