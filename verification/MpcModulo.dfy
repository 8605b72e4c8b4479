/** Reduction modulo 2^m and truncation of shared values (circuits/src/mpc_gadgets/modulo.rs). */
module MpcModulo {
  import opened Numbers
  import opened ResidueField
  import opened ScalarField
  import opened MpcBits

  /** The integer whose residue mod_2m opens. */
  function ModOpening(m: nat, x: int, blind: Blind): int {
    x + Value(blind.low) + Pow2(m) * blind.high as int
  }

  function Mod2m(m: nat, a: Elem, blind: Blind): Elem
    requires m < 256 ==> |blind.low| == m
  {
    if m >= 256 then a
    else
      var lower := if m == 0 then 0 else FromBits(blind.low);
      var open := Add(a, Add(Mul(blind.high, Scalar2ToM(m)), lower));
      var reduced := open as int % Pow2(m);
      var shift := Mul(Scalar2ToM(m), BitLt(BitsOf(reduced, m), blind.low));
      Sub(Add(shift, F(reduced)), lower)
  }

  function Truncate(m: nat, x: Elem, blind: Blind): Elem
    requires m < SCALAR_MAX_BITS ==> |blind.low| == m
  {
    if m >= SCALAR_MAX_BITS then 0
    else Mul(Inv(Scalar2ToM(m)), Sub(x, Mod2m(m, x, blind)))
  }

  function ShiftRight(m: nat, x: Elem, blind: Blind): Elem
    requires m < SCALAR_MAX_BITS ==> |blind.low| == m
  {
    if m >= 256 then 0 else Truncate(m, x, blind)
  }

  lemma OpeningIsReduction(m: nat, x: int, blind: Blind)
    requires m < SCALAR_MAX_BITS && |blind.low| == m
    ensures var lower := if m == 0 then 0 else FromBits(blind.low);
      lower == F(Value(blind.low)) &&
      Add(F(x), Add(Mul(blind.high, Scalar2ToM(m)), lower)) == F(ModOpening(m, x, blind))
  {
    hide F, Add, Mul, Scalar2ToM;
    var r, h := Value(blind.low), Pow2(m) * blind.high as int;
    Scalar2ToMIsPower(m);
    FSelf(0);
    FSelf(blind.high);
    FMul(blind.high, Pow2(m));
    MulCommutes(blind.high, Pow2(m));
    FAdd(h, r);
    FAdd(x, h + r);
  }

  /** The borrow in the integers: subtract r from o modulo n, both below n. */
  lemma Borrow(o: int, r: int, n: int)
    requires 0 <= o < n && 0 <= r < n
    ensures (o - r) % n == o - r + (if o < r then n else 0)
  {
    DivModUnique(o - r, if o < r then -1 else 0, o - r + (if o < r then n else 0), n);
  }

  /** Everything after the opening, as an integer function of the opened value. */
  lemma Unblinded(m: nat, o: nat, low: seq<Elem>)
    requires m < SCALAR_MAX_BITS && |low| == m && AllBits(low) && o < Pow2(m)
    ensures Sub(Add(Mul(Scalar2ToM(m), BitLt(BitsOf(o, m), low)), F(o)), F(Value(low)))
         == (o - Value(low)) % Pow2(m)
  {
    hide F, Add, Sub, Mul, Scalar2ToM, BitLt, BitsOf, Value;
    var r, n := Value(low), Pow2(m);
    assert Value(BitsOf(o, m)) == o by { DivModUnique(o, 0, o, n); }
    BitLtIsLess(BitsOf(o, m), low);
    ValueBound(low);
    Scalar2ToMIsPower(m);
    var lt := if o < r then 1 else 0;
    FSelf(lt);
    FMul(n, lt);
    FAdd(n * lt, o);
    FSub(n * lt + o, r);
    Borrow(o, r, n);
    PowerBelowModulus(m);
    FSelf((o - r) % n);
  }

  /** For every input and every blinding, mod_2m returns the input less the wrap-around, modulo 2^m. */
  lemma Mod2mExact(m: nat, x: int, blind: Blind)
    requires m < SCALAR_MAX_BITS && |blind.low| == m && AllBits(blind.low)
    ensures var t := ModOpening(m, x, blind);
      && Mod2m(m, F(x), blind) == (x - Wraps(t) * P) % Pow2(m)
      && (Mod2m(m, F(x), blind) == F(x % Pow2(m)) <==> KeepsLowBits(t, m))
  {
    hide F, Add, Sub, Mul, Scalar2ToM, BitLt, BitsOf, Value, Wraps, KeepsLowBits, FromBits;
    var t := ModOpening(m, x, blind);
    OpeningIsReduction(m, x, blind);
    var o := F(t) as int % Pow2(m);
    Unblinded(m, o, blind.low);
    UnblindOpening(m, x, blind);
    LowBitsKeptIff(x, t, m);
    PowerBelowModulus(m);
    FSelf(x % Pow2(m));
  }

  lemma UnblindOpening(m: nat, x: int, blind: Blind)
    ensures var t := ModOpening(m, x, blind);
      (F(t) as int % Pow2(m) - Value(blind.low)) % Pow2(m) == (x - Wraps(t) * P) % Pow2(m)
  {
    hide Value, F, Wraps;
    var t := ModOpening(m, x, blind);
    FIsShift(t);
    MulCommutes(Pow2(m), blind.high);
    UnblindMod(x, F(t), t, Wraps(t) * P, -(Value(blind.low) as int), blind.high, Pow2(m));
  }

  /** From 253 bits on the modulus exceeds every field element and mod_2m is the identity. */
  lemma Mod2mWide(m: nat, a: Elem, blind: Blind)
    requires m >= SCALAR_MAX_BITS && (m < 256 ==> |blind.low| == m && AllBits(blind.low))
    ensures Mod2m(m, a, blind) == a
  {
    hide F, Add, Sub, Mul, BitLt, BitsOf, Value;
    if m < 256 {
      var r: int := Value(blind.low);
      MulOne(blind.high);
      FSelf(0);
      FSelf(a);
      FAdd(0, r);
      FAdd(a, r);
      var o := F(a as int + r);
      ModulusSize();
      Pow2Literals();
      Pow2Add(252, 1);
      Pow2Monotone(253, m);
      DivModUnique(o, 0, o, Pow2(m));
      MulOne(BitLt(BitsOf(o, m), blind.low));
      FSelf(o);
      FAdd(0, a as int + r);
      FSub(a as int + r, r);
    }
  }

  /**
   Truncation is the floor of the (signed) quotient, for every blinding that keeps the low bits
   and for no other.
   */
  lemma TruncateExact(m: nat, x: int, blind: Blind)
    requires m < SCALAR_MAX_BITS && |blind.low| == m && AllBits(blind.low)
    ensures Truncate(m, F(x), blind) == F(x / Pow2(m)) <==> KeepsLowBits(ModOpening(m, x, blind), m)
  {
    hide F, Sub, Mul, Scalar2ToM, Value, Wraps, KeepsLowBits, Mod2m;
    var n, c := Pow2(m), Mod2m(m, F(x), blind);
    Mod2mExact(m, x, blind);
    Scalar2ToMIsPower(m);
    var scale: Elem := n;
    var q := F(x / n);
    FMul(n, x / n);
    FSub(x, x % n);
    assert x - x % n == n * (x / n);
    assert Mul(scale, q) == Sub(F(x), F(x % n));
    MulAssociative(Inv(scale), scale, q);
    MulCommutative(scale, Inv(scale));
    MulOne(q);
    assert Mul(Inv(scale), Sub(F(x), F(x % n))) == q;
    if Truncate(m, F(x), blind) == q {
      InvNonZero(scale);
      MulCancels(Inv(scale), Sub(F(x), c), Sub(F(x), F(x % n)));
      SubCancels(F(x), c, F(x % n));
    }
  }

  lemma InvNonZero(a: Elem)
    requires a != 0
    ensures Inv(a) != 0
  {
    hide Mul;
    MulOne(a);
  }

  lemma SubCancels(a: Elem, b: Elem, c: Elem)
    requires Sub(a, b) == Sub(a, c)
    ensures b == c
  {
    hide F;
    FSub(a, a as int - b as int);
    FSub(a, a as int - c as int);
    FSelf(a);
    FSelf(b);
    FSelf(c);
  }
}
