/** Equality, order, k-ary OR and selection on shared values (circuits/src/mpc_gadgets/comparators.rs). */
module MpcComparators {
  import opened Numbers
  import opened ResidueField
  import opened ScalarField
  import opened MpcBits
  import opened MpcModulo
  import opened MpcArithmetic

  // ---- counting set bits ---------------------------------------------------------------

  function SumOf(a: seq<Elem>): Elem {
    if |a| == 0 then 0 else Add(SumOf(a[..|a| - 1]), a[|a| - 1])
  }

  /** The number of ones. */
  function Ones(a: seq<Elem>): nat {
    if |a| == 0 then 0 else Ones(a[..|a| - 1]) + a[|a| - 1] as int
  }

  lemma {:induction false} SumIsOnes(a: seq<Elem>)
    ensures SumOf(a) == F(Ones(a))
  {
    hide F, Add;
    FSelf(0);
    if |a| > 0 {
      SumIsOnes(a[..|a| - 1]);
      FSelf(a[|a| - 1]);
      FAdd(Ones(a[..|a| - 1]), a[|a| - 1]);
    }
  }

  lemma {:induction false} OnesBounds(a: seq<Elem>)
    requires AllBits(a)
    ensures Ones(a) <= |a|
    ensures Ones(a) == 0 <==> forall i :: 0 <= i < |a| ==> a[i] == 0
  {
    if |a| > 0 { OnesBounds(a[..|a| - 1]); }
  }

  lemma {:induction false} ValueZero(a: seq<Elem>)
    requires AllBits(a)
    ensures Value(a) == 0 <==> forall i :: 0 <= i < |a| ==> a[i] == 0
  {
    if |a| > 0 {
      ValueZero(a[1..]);
      assert a == [a[0]] + a[1..];
    }
  }

  // ---- the vanishing polynomial --------------------------------------------------------

  /** The factors (i - s) / i for i in 1..n. */
  function Monomials(s: Elem, n: nat): (r: seq<Elem>)
    ensures |r| == n
  {
    if n == 0 then [] else Monomials(s, n - 1) + [Mul(Sub(F(n), s), Inv(F(n)))]
  }

  /** Their product is 1 at zero and vanishes on 1..n. */
  lemma {:induction false} MonomialsVanish(s: nat, n: nat)
    requires s <= n < P
    ensures ProductOf(Monomials(F(s), n)) == if s == 0 then 1 else 0
  {
    hide F, Mul, Sub, Inv;
    if n > 0 {
      var front, last := Monomials(F(s), n - 1), Mul(Sub(F(n), F(s)), Inv(F(n)));
      assert (front + [last])[..n - 1] == front;
      FSelf(n);
      FSelf(0);
      FSub(n, s);
      if s == n {
        MulOne(Inv(F(n)));
        MulOne(ProductOf(front));
      } else {
        MonomialsVanish(s, n - 1);
        MulOne(last);
        if s == 0 { Inverts(F(n)); }
      }
    }
  }

  function ConstantRoundOr(a: seq<Elem>, pairs: InversePairs): Elem
    requires a != [] && |pairs.b| == |pairs.inv| == |a| + 1
  {
    Sub(1, Product(Monomials(SumOf(a), |a|), pairs))
  }

  /** The factor that the prefix product leaves uncancelled. */
  function Residue(pairs: InversePairs, n: nat): Elem
    requires 0 < n && |pairs.b| == |pairs.inv| == n + 1
  {
    Mul(pairs.b[n - 1], pairs.inv[n])
  }

  lemma ConstantRoundOrExact(a: seq<Elem>, pairs: InversePairs)
    requires 0 < |a| < P && AllBits(a) && ValidPairs(pairs, |a|)
    ensures ConstantRoundOr(a, pairs) == if Ones(a) == 0 then Sub(1, Residue(pairs, |a|)) else 1
  {
    hide F, Mul, Sub, Inv, Monomials, SumOf, Ones, ProductOf, PrefixProduct, AllBits;
    var n, m := |a|, Monomials(SumOf(a), |a|);
    SumIsOnes(a);
    OnesBounds(a);
    MonomialsVanish(Ones(a), n);
    assert m[..n] == m;
    PrefixProductExact(m, pairs, n - 1);
    MulOne(Residue(pairs, n));
    OneMinusBit(0);
  }

  // ---- k-ary OR ------------------------------------------------------------------------

  /** ceil(log2(n + 1)), the number of bits that hold a count up to n. */
  function CountBits(n: nat): (m: nat)
    ensures n < Pow2(m) && (n > 0 ==> m > 0 && Pow2(m - 1) <= n)
  {
    if n == 0 then 0 else 1 + CountBits(n / 2)
  }

  /** Pairs up to the shorter length, as zip does. */
  function XorZip(x: seq<Elem>, y: seq<Elem>): (r: seq<Elem>)
    ensures |r| == if |x| < |y| then |x| else |y|
  {
    if |x| == 0 || |y| == 0 then [] else [BitXor(x[0], y[0])] + XorZip(x[1..], y[1..])
  }

  lemma {:induction false} XorZipZero(x: seq<Elem>, y: seq<Elem>)
    requires AllBits(x) && AllBits(y) && |y| <= |x|
    ensures AllBits(XorZip(x, y))
    ensures Ones(XorZip(x, y)) == 0 <==> x[..|y|] == y
  {
    hide BitXor;
    XorZipPointwise(x, y);
    OnesBounds(XorZip(x, y));
    if forall i :: 0 <= i < |y| ==> XorZip(x, y)[i] == 0 {
      forall i | 0 <= i < |y| ensures x[i] == y[i] { assert XorZip(x, y)[i] == 0; }
    }
    if x[..|y|] == y {
      forall i | 0 <= i < |y| ensures XorZip(x, y)[i] == 0 { assert x[..|y|][i] == y[i]; }
    }
  }

  lemma {:induction false} XorZipPointwise(x: seq<Elem>, y: seq<Elem>)
    requires AllBits(x) && AllBits(y) && |y| <= |x|
    ensures forall i :: 0 <= i < |y| ==> XorZip(x, y)[i] == if x[i] == y[i] then 0 else 1
    ensures AllBits(XorZip(x, y))
  {
    hide BitXor;
    if |y| > 0 {
      BitXorIsXor(x[0], y[0]);
      XorZipPointwise(x[1..], y[1..]);
    }
  }

  function KaryOr(a: seq<Elem>, blind: Blind, pairs: InversePairs): Elem
    requires a != [] && CountBits(|a|) <= SCALAR_BYTES_BITS
    requires |blind.low| == CountBits(|a|) && |pairs.b| == |pairs.inv| == CountBits(|a|) + 1
  {
    var m := CountBits(|a|);
    var upper := Mul(F(Pow2(m)), blind.high);
    var open := Add(Add(SumOf(a), FromBits(blind.low)), upper);
    ConstantRoundOr(XorZip(BitsOf(open, SCALAR_BYTES_BITS), blind.low), pairs)
  }

  lemma OrOpening(a: seq<Elem>, blind: Blind, m: nat)
    ensures Add(Add(SumOf(a), FromBits(blind.low)), Mul(F(Pow2(m)), blind.high))
         == F(ModOpening(m, Ones(a), blind))
  {
    hide F, Add, Mul, Value;
    SumIsOnes(a);
    FAdd(Ones(a), Value(blind.low));
    FSelf(blind.high);
    FMul(Pow2(m), blind.high);
    FAdd(Ones(a) + Value(blind.low), Pow2(m) * blind.high as int);
  }

  /** The value of kary_or for every blinding and every inverse pair. */
  lemma KaryOrExact(a: seq<Elem>, blind: Blind, pairs: InversePairs)
    requires a != [] && AllBits(a) && CountBits(|a|) <= SCALAR_BYTES_BITS
    requires |blind.low| == CountBits(|a|) && AllBits(blind.low) && ValidPairs(pairs, CountBits(|a|))
    ensures var m := CountBits(|a|);
      var t := ModOpening(m, Ones(a), blind);
      KaryOr(a, blind, pairs) ==
      if (Ones(a) - Wraps(t) * P) % Pow2(m) == 0 then Sub(1, Residue(pairs, m)) else 1
  {
    hide F, Add, Sub, Mul, Value, BitsOf, Wraps, XorZip, Ones, SumOf, AllBits, Residue, CountBits, ModOpening,
      ConstantRoundOr, ValidPairs;
    var m := CountBits(|a|);
    var o := F(ModOpening(m, Ones(a), blind));
    OrOpening(a, blind, m);
    RecoveredBits(o, blind.low);
    CountBitsFit(m);
    ConstantRoundOrExact(XorZip(BitsOf(o, SCALAR_BYTES_BITS), blind.low), pairs);
    UnblindOpening(m, Ones(a), blind);
    ValueBound(blind.low);
    DifferenceZero(o as int % Pow2(m), Value(blind.low), Pow2(m));
  }

  /** Xoring the opened bits with the blinding bits gives zero iff the low parts agree. */
  lemma RecoveredBits(o: Elem, low: seq<Elem>)
    requires AllBits(low) && |low| <= SCALAR_BYTES_BITS
    ensures var bits := XorZip(BitsOf(o, SCALAR_BYTES_BITS), low);
      |bits| == |low| && AllBits(bits) && (Ones(bits) == 0 <==> o as int % Pow2(|low|) == Value(low))
  {
    hide BitsOf, Value, Ones;
    var wide := BitsOf(o, SCALAR_BYTES_BITS);
    CanonicalBits(o);
    ValuePrefix(wide, |low|);
    XorZipZero(wide, low);
    SameBitsIff(wide[..|low|], low);
  }

  lemma CountBitsFit(m: nat)
    requires m <= SCALAR_BYTES_BITS
    ensures m < P
  {
  }

  lemma SameBitsIff(x: seq<Elem>, y: seq<Elem>)
    requires |x| == |y| && AllBits(x) && AllBits(y)
    ensures x == y <==> Value(x) == Value(y)
  {
    BitsOfValue(x);
    BitsOfValue(y);
  }

  lemma DifferenceZero(o: int, r: int, n: int)
    requires 0 <= o < n && 0 <= r < n
    ensures (o - r) % n == 0 <==> o == r
  {
    Borrow(o, r, n);
  }

  /** The residue of valid pairs is never zero, and is one exactly when the last two pairs agree. */
  lemma ResidueIff(pairs: InversePairs, n: nat)
    requires 0 < n && ValidPairs(pairs, n)
    ensures Residue(pairs, n) != 0 && (Residue(pairs, n) == 1 <==> pairs.b[n - 1] == pairs.b[n])
  {
    hide Mul;
    var b, c, inv := pairs.b[n - 1], pairs.b[n], pairs.inv[n];
    assert Mul(b, pairs.inv[n - 1]) == 1 && Mul(c, inv) == 1;
    MulOne(pairs.inv[n - 1]);
    MulOne(c);
    if Mul(b, inv) == 0 {
      NoZeroDivisors(b, inv);
    }
    if Mul(b, inv) == 1 {
      MulCommutative(b, inv);
      MulCommutative(c, inv);
      MulOne(b);
      MulCancels(inv, b, c);
    }
  }

  /** The count of ones that the opening leaves, modulo 2^m. */
  ghost function OpenedCount(a: seq<Elem>, blind: Blind): int {
    var m := CountBits(|a|);
    (Ones(a) - Wraps(ModOpening(m, Ones(a), blind)) * P) % Pow2(m)
  }

  /** For every blinding and all pairs: OR, exactly when the opened count is zero for no ones only and the pairs cancel. */
  lemma KaryOrIff(a: seq<Elem>, blind: Blind, pairs: InversePairs)
    requires a != [] && AllBits(a) && CountBits(|a|) <= SCALAR_BYTES_BITS
    requires |blind.low| == CountBits(|a|) && AllBits(blind.low) && ValidPairs(pairs, CountBits(|a|))
    ensures KaryOr(a, blind, pairs) == (if Ones(a) > 0 then 1 else 0) <==>
      && (OpenedCount(a, blind) == 0 <==> Ones(a) == 0)
      && (Ones(a) == 0 ==> pairs.b[CountBits(|a|) - 1] == pairs.b[CountBits(|a|)])
  {
    hide F, Sub, Mul, KaryOr, Wraps, Ones, AllBits, ModOpening, Residue;
    var r := Residue(pairs, CountBits(|a|));
    KaryOrExact(a, blind, pairs);
    ResidueIff(pairs, CountBits(|a|));
    SubOneIff(r);
  }

  lemma SubOneIff(r: Elem)
    ensures (Sub(1, r) == 0 <==> r == 1) && (Sub(1, r) == 1 <==> r == 0)
  {
    hide F;
    FSelf(0);
    FSelf(1);
    if r > 1 {
      DivModUnique(1 - r, -1, 1 - r + P, P);
      FIsShift(1 - r);
    }
  }

  /** OR, whenever the opening keeps the count's bits and the last two pairs agree. */
  lemma KaryOrIsOr(a: seq<Elem>, blind: Blind, pairs: InversePairs)
    requires a != [] && AllBits(a) && CountBits(|a|) <= SCALAR_BYTES_BITS
    requires |blind.low| == CountBits(|a|) && AllBits(blind.low) && ValidPairs(pairs, CountBits(|a|))
    requires KeepsLowBits(ModOpening(CountBits(|a|), Ones(a), blind), CountBits(|a|))
    requires pairs.b[CountBits(|a|) - 1] == pairs.b[CountBits(|a|)]
    ensures KaryOr(a, blind, pairs) == if exists i :: 0 <= i < |a| && a[i] == 1 then 1 else 0
  {
    hide KaryOr, KeepsLowBits, OpenedCount, ModOpening, Ones, CountBits, ValidPairs;
    KaryOrIff(a, blind, pairs);
    KeptCount(a, blind);
    OnesBounds(a);
    if Ones(a) != 0 {
      var i :| 0 <= i < |a| && a[i] != 0;
      assert a[i] == 1;
    }
  }

  lemma KeptCount(a: seq<Elem>, blind: Blind)
    requires AllBits(a) && KeepsLowBits(ModOpening(CountBits(|a|), Ones(a), blind), CountBits(|a|))
    ensures OpenedCount(a, blind) == Ones(a)
  {
    hide KeepsLowBits, ModOpening, Ones, Wraps;
    var m := CountBits(|a|);
    LowBitsKeptIff(Ones(a), ModOpening(m, Ones(a), blind), m);
    OnesBounds(a);
    DivModUnique(Ones(a), 0, Ones(a), Pow2(m));
  }

  // ---- equality ------------------------------------------------------------------------

  /** Randomness of one equality test. */
  datatype EqTape = EqTape(bits: Blind, or: Blind, pairs: InversePairs)

  predicate EqTapeFits(d: nat, t: EqTape) {
    && 0 < d < SCALAR_MAX_BITS
    && |t.bits.low| == d
    && |t.or.low| == CountBits(d) <= SCALAR_BYTES_BITS
    && |t.pairs.b| == |t.pairs.inv| == CountBits(d) + 1
  }

  /** The openings for input x keep their low bits and the pairs leave no residue. */
  ghost predicate EqTapeExact(d: nat, x: int, t: EqTape) {
    && EqTapeFits(d, t) && AllBits(t.bits.low) && AllBits(t.or.low) && ValidPairs(t.pairs, CountBits(d))
    && KeepsLowBits(BitsOpening(d, x, t.bits), d)
    && KeepsLowBits(ModOpening(CountBits(d), Ones(BitsOf(x % Pow2(d), d)), t.or), CountBits(d))
    && t.pairs.b[CountBits(d) - 1] == t.pairs.b[CountBits(d)]
  }

  function EqZero(d: nat, x: Elem, t: EqTape): Elem
    requires EqTapeFits(d, t)
  {
    Sub(1, KaryOr(ToBitsLe(d, x, false, t.bits), t.or, t.pairs))
  }

  function Eq(d: nat, a: Elem, b: Elem, t: EqTape): Elem
    requires EqTapeFits(d, t)
  {
    EqZero(d, Sub(a, b), t)
  }

  function Ne(d: nat, a: Elem, b: Elem, t: EqTape): Elem
    requires EqTapeFits(d, t)
  {
    Sub(1, Eq(d, a, b, t))
  }

  /** Only the d low bits are compared with zero. */
  lemma EqZeroDecides(d: nat, x: int, t: EqTape)
    requires EqTapeExact(d, x, t)
    ensures EqZero(d, F(x), t) == if x % Pow2(d) == 0 then 1 else 0
  {
    hide F, Sub, ToBitsLe, KaryOr, KeepsLowBits, ValidPairs, BitsOf, Pow2, CountBits, Ones;
    ToBitsLeExact(d, x, t.bits);
    var bits := ToBitsLe(d, F(x), false, t.bits);
    assert bits == BitsOf(x % Pow2(d), d);
    KaryOrIsOr(bits, t.or, t.pairs);
    ValueZero(bits);
    DivModUnique(x % Pow2(d), 0, x % Pow2(d), Pow2(d));
    OneMinusBit(0);
    OneMinusBit(1);
  }

  /** For every randomness: the test is right exactly when the opened count of the recovered bits is, and the pairs cancel. */
  lemma EqZeroIff(d: nat, x: int, t: EqTape)
    requires EqTapeFits(d, t) && AllBits(t.bits.low) && AllBits(t.or.low) && ValidPairs(t.pairs, CountBits(d))
    ensures EqZero(d, F(x), t) == (if x % Pow2(d) == 0 then 1 else 0) <==>
      && (OpenedCount(ToBitsLe(d, F(x), false, t.bits), t.or) == 0 <==> x % Pow2(d) == 0)
      && (x % Pow2(d) == 0 ==> t.pairs.b[CountBits(d) - 1] == t.pairs.b[CountBits(d)])
  {
    hide F, Sub, ToBitsLe, KaryOr, Wraps, ValidPairs, BitsOf, Pow2, CountBits, Ones, ModOpening, Residue;
    ToBitsLeExact(d, x, t.bits);
    var bits := ToBitsLe(d, F(x), false, t.bits);
    KaryOrExact(bits, t.or, t.pairs);
    ResidueIff(t.pairs, CountBits(d));
    SubOneIff(Residue(t.pairs, CountBits(d)));
    SubOneIff(KaryOr(bits, t.or, t.pairs));
  }

  predicate PublicTapeFits(t: EqTape) {
    && |t.or.low| == CountBits(SCALAR_BYTES_BITS) <= SCALAR_BYTES_BITS
    && |t.pairs.b| == |t.pairs.inv| == CountBits(SCALAR_BYTES_BITS) + 1
  }

  ghost predicate PublicTapeExact(x: Elem, t: EqTape) {
    var m := CountBits(SCALAR_BYTES_BITS);
    && PublicTapeFits(t) && AllBits(t.or.low) && ValidPairs(t.pairs, m)
    && KeepsLowBits(ModOpening(m, Ones(BitsOf(x, SCALAR_BYTES_BITS)), t.or), m)
    && t.pairs.b[m - 1] == t.pairs.b[m]
  }

  /** The equality test on a public value: its bits are taken locally, and all of them are. */
  function EqZeroPublic(d: nat, x: Elem, t: EqTape): Elem
    requires d < SCALAR_MAX_BITS && PublicTapeFits(t)
  {
    Sub(1, KaryOr(ToBitsLe(d, x, true, t.bits), t.or, t.pairs))
  }

  /** A public value is compared with zero whole, whatever the bit length. */
  lemma EqZeroPublicDecides(d: nat, x: Elem, t: EqTape)
    requires d < SCALAR_MAX_BITS && PublicTapeExact(x, t)
    ensures EqZeroPublic(d, x, t) == if x == 0 then 1 else 0
  {
    hide F, Sub, KaryOr, KeepsLowBits, ValidPairs, BitsOf, Pow2, CountBits, Ones;
    ToBitsLePublic(d, x, t.bits);
    var bits := BitsOf(x, SCALAR_BYTES_BITS);
    KaryOrIsOr(bits, t.or, t.pairs);
    ValueZero(bits);
    OneMinusBit(0);
    OneMinusBit(1);
  }

  lemma EqDecides(d: nat, a: int, b: int, t: EqTape)
    requires EqTapeExact(d, a - b, t)
    ensures Eq(d, F(a), F(b), t) == if (a - b) % Pow2(d) == 0 then 1 else 0
    ensures Ne(d, F(a), F(b), t) == if (a - b) % Pow2(d) == 0 then 0 else 1
  {
    hide F, Sub, EqZero, EqTapeExact;
    FSub(a, b);
    EqZeroDecides(d, a - b, t);
    OneMinusBit(0);
    OneMinusBit(1);
  }

  // ---- order ---------------------------------------------------------------------------

  /** Randomness of one order test. */
  datatype CmpTape = CmpTape(trunc: Blind, eq: EqTape)

  predicate CmpTapeFits(t: CmpTape) {
    |t.trunc.low| == 250 && EqTapeFits(2, t.eq)
  }

  ghost predicate CmpTapeExact(x: int, t: CmpTape) {
    && CmpTapeFits(t) && AllBits(t.trunc.low)
    && KeepsLowBits(ModOpening(250, x, t.trunc), 250)
    && EqTapeExact(2, x / Pow2(250), t.eq)
  }

  function LessThanZero(x: Elem, t: CmpTape): Elem
    requires CmpTapeFits(t)
  {
    Ne(2, Truncate(250, x, t.trunc), 0, t.eq)
  }

  function LessThan(a: Elem, b: Elem, t: CmpTape): Elem
    requires CmpTapeFits(t)
  {
    LessThanZero(Sub(a, b), t)
  }

  function GreaterThan(a: Elem, b: Elem, t: CmpTape): Elem
    requires CmpTapeFits(t)
  {
    LessThanZero(Sub(b, a), t)
  }

  function LessThanEqual(a: Elem, b: Elem, t: CmpTape): Elem
    requires CmpTapeFits(t)
  {
    Sub(1, GreaterThan(a, b, t))
  }

  function GreaterThanEqual(a: Elem, b: Elem, t: CmpTape): Elem
    requires CmpTapeFits(t)
  {
    Sub(1, LessThan(a, b, t))
  }

  /** The index (0 iff a is smaller) and the value of the minimum. */
  function Min(a: Elem, b: Elem, t: CmpTape): (Elem, Elem)
    requires CmpTapeFits(t)
  {
    var lt := LessThan(a, b, t);
    (Sub(1, lt), Add(Mul(lt, a), Mul(Sub(1, lt), b)))
  }

  /** The test looks at bits 250 and 251 of the floor quotient only. */
  lemma LessThanZeroExact(x: int, t: CmpTape)
    requires CmpTapeExact(x, t)
    ensures LessThanZero(F(x), t) == if x / Pow2(250) % 4 == 0 then 0 else 1
  {
    hide F, Truncate, Ne, KeepsLowBits, EqTapeExact, AllBits, Pow2;
    TruncateExact(250, x, t.trunc);
    FSelf(0);
    EqDecides(2, x / Pow2(250), 0, t.eq);
    Pow2Literals();
  }

  /** Hence the sign is right from -3 2^250 up to, excluding, 2^250. */
  lemma LessThanZeroDecides(x: int, t: CmpTape)
    requires CmpTapeExact(x, t) && -3 * Pow2(250) <= x < Pow2(250)
    ensures LessThanZero(F(x), t) == if x < 0 then 1 else 0
  {
    hide LessThanZero, F, CmpTapeExact;
    LessThanZeroExact(x, t);
    SmallQuotient(x, Pow2(250));
  }

  /** Over all signed readings of a field element it is right only there. */
  lemma LessThanZeroIff(x: int, t: CmpTape)
    requires CmpTapeExact(x, t) && -1 * Pow2(252) <= x < Pow2(252)
    ensures LessThanZero(F(x), t) == (if x < 0 then 1 else 0) <==> -3 * Pow2(250) <= x < Pow2(250)
  {
    hide LessThanZero, F, CmpTapeExact, Pow2;
    LessThanZeroExact(x, t);
    Pow2Add(2, 250);
    Pow2Literals();
    SmallQuotient(x, Pow2(250));
  }

  lemma SmallQuotient(x: int, n: int)
    requires n > 0 && -4 * n <= x < 4 * n
    ensures (x / n % 4 == 0 <==> x >= 0) <==> -3 * n <= x < n
  {
    var q := if x >= 0 then (if x < n then 0 else if x < 2 * n then 1 else if x < 3 * n then 2 else 3)
      else if x >= -n then -1 else if x >= -2 * n then -2 else if x >= -3 * n then -3 else -4;
    DivModUnique(x, q, x - q * n, n);
  }

  /** All four order tests return the integer answers. */
  lemma OrderDecides(a: int, b: int, t: CmpTape)
    requires -1 * Pow2(250) < a - b < Pow2(250)
    ensures CmpTapeExact(a - b, t) ==>
      && LessThan(F(a), F(b), t) == (if a < b then 1 else 0)
      && GreaterThanEqual(F(a), F(b), t) == (if a >= b then 1 else 0)
    ensures CmpTapeExact(b - a, t) ==>
      && GreaterThan(F(a), F(b), t) == (if a > b then 1 else 0)
      && LessThanEqual(F(a), F(b), t) == (if a <= b then 1 else 0)
  {
    hide F, Sub, LessThanZero, CmpTapeExact, Pow2;
    FSub(a, b);
    FSub(b, a);
    OneMinusBit(0);
    OneMinusBit(1);
    if CmpTapeExact(a - b, t) { LessThanZeroDecides(a - b, t); }
    if CmpTapeExact(b - a, t) { LessThanZeroDecides(b - a, t); }
  }

  lemma MinDecides(a: int, b: int, t: CmpTape)
    requires -1 * Pow2(250) < a - b < Pow2(250) && CmpTapeExact(a - b, t)
    ensures Min(F(a), F(b), t) == if a < b then (0, F(a)) else (1, F(b))
  {
    hide F, Sub, Add, Mul, LessThan, GreaterThan, LessThanEqual, GreaterThanEqual, CmpTapeExact, Pow2;
    OrderDecides(a, b, t);
    OneMinusBit(0);
    OneMinusBit(1);
    MulOne(F(a));
    MulOne(F(b));
    FSelf(0);
    FAdd(a, 0);
    FAdd(0, b);
  }

  // ---- selection -----------------------------------------------------------------------

  function CondSelectAll(s: Elem, a: seq<Elem>, b: seq<Elem>): (r: seq<Elem>)
    requires |a| == |b|
    ensures |r| == |a| && forall i :: 0 <= i < |a| ==> r[i] == Selected(a[i], b[i], s)
  {
    seq(|a|, i requires 0 <= i < |a| => Selected(a[i], b[i], s))
  }

  /** One batch of 2n products, folded by adding the two halves. */
  method CondSelectVec(s: Elem, a: seq<Elem>, b: seq<Elem>) returns (result: seq<Elem>)
    requires |a| == |b|
    ensures result == CondSelectAll(s, a, b)
    ensures s == 1 ==> result == a
    ensures s == 0 ==> result == b
  {
    hide Add, Mul, Sub;
    var left, right := a + b, seq(|a|, _ => s) + seq(|b|, _ => Sub(1, s));
    var selectors := seq(|left|, i requires 0 <= i < |left| => Mul(left[i], right[i]));
    result := [];
    for i := 0 to |a|
      invariant |result| == i && forall j :: 0 <= j < i ==> result[j] == Selected(a[j], b[j], s)
    {
      result := result + [Add(selectors[i], selectors[|a| + i])];
    }
    if IsBit(s) {
      forall i | 0 <= i < |a| { SelectedByBit(a[i], b[i], s); }
    }
  }
}
