/** The exponentiation gadgets (circuits/src/zk_gadgets/arithmetic.rs) and ElGamal encryption (elgamal.rs). */
module ZkExponent {
  import opened Numbers
  import opened ResidueField
  import opened ScalarField
  import opened MpcBits
  import Arith = MpcArithmetic
  import opened ConstraintSystems
  import opened ZkGadgets

  /** ExpGadget: x^alpha by recursive squaring, alpha public. */
  method Exp(cs: ConstraintSystem, x: LC, alpha: nat) returns (res: LC)
    requires cs.Valid() && Known(x, cs.wires)
    modifies cs
    ensures cs.Valid() && cs.wires >= old(cs.wires) && cs.unchecked == old(cs.unchecked) && Known(res, cs.wires)
    ensures forall w {:trigger Satisfies(cs.constraints, w)} :: Satisfies(cs.constraints, w) ==>
      Satisfies(old(cs.constraints), w) && Eval(res, w) == Arith.Exp(Eval(x, w), alpha)
    ensures forall w {:trigger Honest(cs.hints, w)} :: Honest(cs.hints, w) ==>
      && Honest(old(cs.hints), w) && Eval(res, w) == Arith.Exp(Eval(x, w), alpha)
      && (Satisfies(old(cs.constraints), w) ==> Satisfies(cs.constraints, w))
    decreases alpha
  {
    hide Eval, Satisfies, Honest, At, Mul, Arith.Exp;
    if alpha == 0 {
      res := ONE;
      forall w ensures Eval(res, w) == Arith.Exp(Eval(x, w), 0) { SmallPowers(x, w); }
    } else if alpha == 1 {
      res := x;
      forall w ensures Eval(res, w) == Arith.Exp(Eval(x, w), 1) { SmallPowers(x, w); }
    } else if alpha % 2 == 0 {
      var half := Exp(cs, x, alpha / 2);
      var _, _, out := Multiply(cs, half, half);
      res := Wire(out);
      forall w ensures Eval(res, w) == At(w, out)
          && Arith.Exp(Eval(x, w), alpha) == Mul(Arith.Exp(Eval(x, w), alpha / 2), Arith.Exp(Eval(x, w), alpha / 2)) {
        EvalWire(out, w);
        Arith.ExpAdd(Eval(x, w), alpha / 2, alpha / 2);
      }
    } else {
      var half := Exp(cs, x, (alpha - 1) / 2);
      var _, _, square := Multiply(cs, half, half);
      KnownMore(x, old(cs.wires), cs.wires);
      var _, _, out := Multiply(cs, Wire(square), x);
      res := Wire(out);
      forall w ensures Eval(res, w) == At(w, out) && Eval(Wire(square), w) == At(w, square)
          && Arith.Exp(Eval(x, w), alpha) ==
             Mul(Mul(Arith.Exp(Eval(x, w), (alpha - 1) / 2), Arith.Exp(Eval(x, w), (alpha - 1) / 2)), Eval(x, w)) {
        EvalWire(out, w);
        EvalWire(square, w);
        OddPower(Eval(x, w), (alpha - 1) / 2);
      }
    }
  }

  lemma SmallPowers(x: LC, w: Assignment)
    ensures Eval(ONE, w) == Arith.Exp(Eval(x, w), 0) && Eval(x, w) == Arith.Exp(Eval(x, w), 1)
  {
    hide Mul;
    EvalOne(w);
    Arith.ExpOne(Eval(x, w));
  }

  lemma OddPower(x: Elem, h: nat)
    ensures Arith.Exp(x, 2 * h + 1) == Mul(Mul(Arith.Exp(x, h), Arith.Exp(x, h)), x)
  {
    hide Mul, Arith.Exp;
    Arith.ExpAdd(x, h, h);
    Arith.ExpAdd(x, 2 * h, 1);
    Arith.ExpOne(x);
  }

  // ---- private exponents ---------------------------------------------------------------

  function WireSum(bits: seq<nat>, w: Assignment): nat {
    if |bits| == 0 then 0 else WireSum(bits[..|bits| - 1], w) + At(w, bits[|bits| - 1]) as int
  }

  /** Whether the bits sum to zero in the field. */
  method AllBitsZero(cs: ConstraintSystem, bits: seq<nat>) returns (zero: nat)
    requires cs.Valid() && forall k :: 0 <= k < |bits| ==> bits[k] < cs.wires
    modifies cs
    ensures cs.Valid() && cs.wires >= old(cs.wires) && cs.unchecked == old(cs.unchecked) && zero < cs.wires
    ensures forall w {:trigger Satisfies(cs.constraints, w)} :: Satisfies(cs.constraints, w) ==>
      Satisfies(old(cs.constraints), w) && At(w, zero) == Bit(F(WireSum(bits, w)) == 0)
    ensures forall w {:trigger Honest(cs.hints, w)} :: Honest(cs.hints, w) ==>
      && Honest(old(cs.hints), w) && At(w, zero) == Bit(F(WireSum(bits, w)) == 0)
      && (Satisfies(old(cs.constraints), w) ==> Satisfies(cs.constraints, w))
  {
    hide Eval, Satisfies, Honest, At, F, WireSum, Bit;
    var sum: LC := ZERO;
    forall w ensures Eval(ZERO, w) == F(WireSum(bits[..0], w)) { SumStarts(bits, w); }
    for i := 0 to |bits|
      invariant cs.Valid() && Known(sum, cs.wires) && cs.constraints == old(cs.constraints) && cs.hints == old(cs.hints)
      invariant cs.wires == old(cs.wires) && cs.unchecked == old(cs.unchecked)
      invariant forall w {:trigger WireSum(bits[..i], w)} :: Eval(sum, w) == F(WireSum(bits[..i], w))
    {
      ghost var before := sum;
      sum := Sum(sum, Wire(bits[i]));
      forall w ensures Eval(sum, w) == F(WireSum(bits[..i + 1], w)) {
        SumStep(bits, i, before, w);
      }
    }
    assert bits[..|bits|] == bits;
    zero := EqZero(cs, sum);
    forall w ensures Eval(sum, w) == F(WireSum(bits, w)) {
      assert Eval(sum, w) == F(WireSum(bits[..|bits|], w));
    }
  }

  lemma SumStarts(bits: seq<nat>, w: Assignment)
    ensures Eval(ZERO, w) == F(WireSum(bits[..0], w))
  {
    hide F;
    EvalOne(w);
    FSelf(0);
  }

  lemma SumStep(bits: seq<nat>, i: nat, sum: LC, w: Assignment)
    requires i < |bits| && Eval(sum, w) == F(WireSum(bits[..i], w))
    ensures Eval(Sum(sum, Wire(bits[i])), w) == F(WireSum(bits[..i + 1], w))
  {
    hide F, Eval, At, Add;
    assert bits[..i + 1][..i] == bits[..i];
    EvalSum(sum, Wire(bits[i]), w);
    EvalWire(bits[i], w);
    FSelf(At(w, bits[i]));
    FAdd(WireSum(bits[..i], w), At(w, bits[i]));
  }

  /** The exponent that a bit vector spells. */
  function Exponent(bits: seq<nat>, w: Assignment): nat {
    Value(WireValues(bits, w))
  }

  lemma {:induction false} SumOfBits(bits: seq<nat>, w: Assignment)
    requires AllBits(WireValues(bits, w))
    ensures WireSum(bits, w) <= |bits|
    ensures WireSum(bits, w) == 0 ==> Exponent(bits, w) == 0
  {
    hide At;
    if |bits| > 0 {
      var n := |bits| - 1;
      assert WireValues(bits[..n], w) == WireValues(bits, w)[..n];
      SumOfBits(bits[..n], w);
      ZeroDigits(WireValues(bits, w), n);
    }
  }

  lemma {:induction false} ZeroDigits(s: seq<Elem>, n: nat)
    requires n < |s| && n + 1 == |s|
    ensures Value(s[..n]) == 0 && s[n] == 0 ==> Value(s) == 0
  {
    if n > 0 {
      assert s[..n][1..] == s[1..][..n - 1];
      ZeroDigits(s[1..], n - 1);
    }
  }

  /** A zero test of the sum picks the value one only where the power is one. */
  lemma ZeroMask(bits: seq<nat>, w: Assignment)
    requires AllBits(WireValues(bits, w)) && |bits| < P
    ensures F(WireSum(bits, w)) == 0 ==> Exponent(bits, w) == 0
  {
    hide F, At;
    SumOfBits(bits, w);
    FSelf(WireSum(bits, w));
  }

  /** For binary bits, res is x to the exponent they spell. */
  ghost predicate Powers(res: LC, x: LC, bits: seq<nat>, w: Assignment) {
    AllBits(WireValues(bits, w)) ==> Eval(res, w) == Arith.Exp(Eval(x, w), Exponent(bits, w))
  }

  lemma PowersOfNothing(x: LC, w: Assignment)
    ensures Powers(ONE, x, [], w)
  {
    hide Eval;
    SmallPowers(x, w);
  }

  /** Doubling the exponent and adding its low bit, with the zero case masked. */
  lemma PowerStep(x: Elem, rest: nat, bit: Elem, zero: Elem)
    requires IsBit(bit) && IsBit(zero) && (zero == 1 ==> rest == 0 && bit == 0)
    ensures var double := Mul(Arith.Exp(x, rest), Arith.Exp(x, rest));
      Selected(1, Selected(Mul(x, double), double, bit), zero) == Arith.Exp(x, bit as int + 2 * rest)
  {
    hide Mul, Selected;
    var double := Mul(Arith.Exp(x, rest), Arith.Exp(x, rest));
    Arith.ExpAdd(x, rest, rest);
    SelectedByBit(Mul(x, double), double, bit);
    SelectedByBit(1, Selected(Mul(x, double), double, bit), zero);
  }

  lemma PowersStep(res: LC, x: LC, bits: seq<nat>, rest: LC, zero: nat, w: Assignment)
    requires 0 < |bits| < P && Powers(rest, x, bits[1..], w)
    requires At(w, zero) == Bit(F(WireSum(bits, w)) == 0)
    requires var double := Mul(Eval(rest, w), Eval(rest, w));
      Eval(res, w) == Selected(1, Selected(Mul(Eval(x, w), double), double, At(w, bits[0])), At(w, zero))
    ensures Powers(res, x, bits, w)
  {
    hide F, Mul, Selected, Eval, At, WireSum, Arith.Exp, Value;
    var s := WireValues(bits, w);
    if AllBits(s) {
      assert WireValues(bits[1..], w) == s[1..] && s[0] == At(w, bits[0]);
      ZeroMask(bits, w);
      ValueUnfolds(s);
      PowerStep(Eval(x, w), Exponent(bits[1..], w), s[0], At(w, zero));
    }
  }

  lemma ValueUnfolds(s: seq<Elem>)
    requires |s| > 0
    ensures Value(s) == s[0] as int + 2 * Value(s[1..])
  {
  }

  /** exp_private_impl: base and exponent private. */
  method ExpPrivateImpl(cs: ConstraintSystem, x: LC, bits: seq<nat>) returns (res: LC)
    requires cs.Valid() && Known(x, cs.wires) && (forall k :: 0 <= k < |bits| ==> bits[k] < cs.wires) && |bits| < P
    modifies cs
    ensures cs.Valid() && cs.wires >= old(cs.wires) && cs.unchecked == old(cs.unchecked) && Known(res, cs.wires)
    ensures forall w {:trigger Satisfies(cs.constraints, w)} :: Satisfies(cs.constraints, w) ==>
      Satisfies(old(cs.constraints), w) && Powers(res, x, bits, w)
    ensures forall w {:trigger Honest(cs.hints, w)} :: Honest(cs.hints, w) ==>
      && Honest(old(cs.hints), w) && Powers(res, x, bits, w)
      && (Satisfies(old(cs.constraints), w) ==> Satisfies(cs.constraints, w))
    decreases |bits|
  {
    hide Eval, Satisfies, Honest, At, Mul, Selected, F, WireSum, Powers, Bit;
    if bits == [] {
      res := ONE;
      forall w ensures Powers(ONE, x, [], w) { PowersOfNothing(x, w); }
      return;
    }
    var zero := AllBitsZero(cs, bits);
    KnownMore(x, old(cs.wires), cs.wires);
    var rest := ExpPrivateImpl(cs, x, bits[1..]);
    var _, _, double := Multiply(cs, rest, rest);
    KnownMore(x, old(cs.wires), cs.wires);
    var _, _, plus := Multiply(cs, x, Wire(double));
    var selected := Select(cs, Wire(plus), Wire(double), Wire(bits[0]));
    res := Select(cs, ONE, selected, Wire(zero));
    forall w
      ensures Eval(Wire(double), w) == At(w, double) && Eval(Wire(plus), w) == At(w, plus)
      ensures Eval(Wire(bits[0]), w) == At(w, bits[0]) && Eval(Wire(zero), w) == At(w, zero) && Eval(ONE, w) == 1
    {
      EvalWire(double, w);
      EvalWire(plus, w);
      EvalWire(bits[0], w);
      EvalWire(zero, w);
      EvalOne(w);
    }
    forall w | Satisfies(cs.constraints, w) ensures Powers(res, x, bits, w) {
      PowersStep(res, x, bits, rest, zero, w);
    }
    forall w | Honest(cs.hints, w) ensures Powers(res, x, bits, w) {
      PowersStep(res, x, bits, rest, zero, w);
    }
  }

  /** exp_private_fixed_base_impl: the extra factor is a constant, so no multiplication gate is spent on it. */
  method ExpFixedBaseImpl(cs: ConstraintSystem, x: Elem, bits: seq<nat>) returns (res: LC)
    requires cs.Valid() && (forall k :: 0 <= k < |bits| ==> bits[k] < cs.wires) && |bits| < P
    modifies cs
    ensures cs.Valid() && cs.wires >= old(cs.wires) && cs.unchecked == old(cs.unchecked) && Known(res, cs.wires)
    ensures forall w {:trigger Satisfies(cs.constraints, w)} :: Satisfies(cs.constraints, w) ==>
      Satisfies(old(cs.constraints), w) && Powers(res, Const(x), bits, w)
    ensures forall w {:trigger Honest(cs.hints, w)} :: Honest(cs.hints, w) ==>
      && Honest(old(cs.hints), w) && Powers(res, Const(x), bits, w)
      && (Satisfies(old(cs.constraints), w) ==> Satisfies(cs.constraints, w))
    decreases |bits|
  {
    hide Eval, Satisfies, Honest, At, Mul, Selected, F, WireSum, Powers, Bit;
    if bits == [] {
      res := ONE;
      forall w ensures Powers(ONE, Const(x), [], w) { PowersOfNothing(Const(x), w); }
      return;
    }
    var zero := AllBitsZero(cs, bits);
    var rest := ExpFixedBaseImpl(cs, x, bits[1..]);
    var _, _, double := Multiply(cs, rest, rest);
    var plus := Scaled(x, Wire(double));
    var selected := Select(cs, plus, Wire(double), Wire(bits[0]));
    res := Select(cs, ONE, selected, Wire(zero));
    forall w
      ensures Eval(Wire(double), w) == At(w, double) && Eval(plus, w) == Mul(Eval(Const(x), w), At(w, double))
      ensures Eval(Wire(bits[0]), w) == At(w, bits[0]) && Eval(Wire(zero), w) == At(w, zero) && Eval(ONE, w) == 1
    {
      ScaledEval(x, double, w);
      EvalWire(double, w);
      EvalWire(bits[0], w);
      EvalWire(zero, w);
      EvalOne(w);
    }
    forall w | Satisfies(cs.constraints, w) ensures Powers(res, Const(x), bits, w) {
      PowersStep(res, Const(x), bits, rest, zero, w);
    }
    forall w | Honest(cs.hints, w) ensures Powers(res, Const(x), bits, w) {
      PowersStep(res, Const(x), bits, rest, zero, w);
    }
  }

  lemma ScaledEval(x: Elem, i: nat, w: Assignment)
    ensures Eval(Scaled(x, Wire(i)), w) == Mul(Eval(Const(x), w), At(w, i)) && Eval(Const(x), w) == x
  {
    hide Mul;
  }

  // ---- exponents from scalars ----------------------------------------------------------

  /** ToBitsGadget: d wires that, when binary, spell the value. */
  method ToBits(cs: ConstraintSystem, a: LC, d: nat) returns (bits: seq<nat>)
    requires cs.Valid() && Known(a, cs.wires) && d < SCALAR_MAX_BITS
    modifies cs
    ensures cs.Valid() && cs.wires >= old(cs.wires) && |bits| == d && (forall k :: 0 <= k < d ==> bits[k] < cs.wires)
    ensures forall w {:trigger Plausible(cs.unchecked, w)} :: Plausible(cs.unchecked, w) ==> Plausible(old(cs.unchecked), w)
    ensures forall w {:trigger Satisfies(cs.constraints, w)} :: Satisfies(cs.constraints, w) ==>
      && Satisfies(old(cs.constraints), w)
      && (Plausible(cs.unchecked, w) ==> Spells(bits, Eval(a, w), w))
    ensures forall w {:trigger Honest(cs.hints, w)} :: Honest(cs.hints, w) ==>
      && Honest(old(cs.hints), w)
      && (Satisfies(cs.constraints, w) <==> Satisfies(old(cs.constraints), w) && Eval(a, w) as int < Pow2(d))
      && (Eval(a, w) as int < Pow2(d) ==> Spells(bits, Eval(a, w), w))
  {
    hide Eval, Honest, At, BitAt, Satisfies, Plausible, Recompose, Pow2, Spells;
    bits := Decompose(cs, a, d);
    cs.Constrain(Diff(Recompose(bits), a));
    forall w ensures Eval(Diff(Recompose(bits), a), w) == 0 <==> Eval(Recompose(bits), w) == Eval(a, w) {
      EvalDiff(Recompose(bits), a, w);
    }
    forall w | Plausible(cs.unchecked, w) && Eval(Recompose(bits), w) == Eval(a, w) ensures Spells(bits, Eval(a, w), w) {
      BitsSpell(bits, Eval(a, w), w);
    }
    forall w | Honest(cs.hints, w)
      ensures Eval(Recompose(bits), w) == Eval(a, w) <==> Eval(a, w) as int < Pow2(d)
      ensures Eval(a, w) as int < Pow2(d) ==> Spells(bits, Eval(a, w), w)
    {
      HonestBits(Eval(a, w), bits, w);
      HonestlyBinary(Eval(a, w), bits, w);
      if Eval(a, w) as int < Pow2(d) {
        BitsSpell(bits, Eval(a, w), w);
      }
    }
  }

  /** The wires are binary and their digits are exactly those of x. */
  ghost predicate Spells(bits: seq<nat>, x: Elem, w: Assignment) {
    AllBits(WireValues(bits, w)) && Exponent(bits, w) == x as int && x as int < Pow2(|bits|)
  }

  lemma HonestlyBinary(x: Elem, bits: seq<nat>, w: Assignment)
    requires forall k :: 0 <= k < |bits| ==> At(w, bits[k]) == BitAt(x, k)
    ensures forall k :: 0 <= k < |bits| ==> IsBit(At(w, bits[k]))
  {
    hide At;
  }

  lemma BitsSpell(bits: seq<nat>, x: Elem, w: Assignment)
    requires |bits| < SCALAR_MAX_BITS && (forall k :: 0 <= k < |bits| ==> IsBit(At(w, bits[k])))
    requires Eval(Recompose(bits), w) == x
    ensures Spells(bits, x, w)
  {
    hide F, At, Recompose, Pow2;
    RecomposeValue(bits, w);
    ValueBound(WireValues(bits, w));
    PowerBelowModulus(|bits|);
    FSelf(Value(WireValues(bits, w)));
  }

  /** exp_private: x^alpha for an exponent of d bits. */
  method ExpPrivate(cs: ConstraintSystem, x: LC, alpha: LC, d: nat) returns (res: LC)
    requires cs.Valid() && Known(x, cs.wires) && Known(alpha, cs.wires) && d < SCALAR_MAX_BITS
    modifies cs
    ensures cs.Valid() && cs.wires >= old(cs.wires) && Known(res, cs.wires)
    ensures forall w {:trigger Plausible(cs.unchecked, w)} :: Plausible(cs.unchecked, w) ==> Plausible(old(cs.unchecked), w)
    ensures forall w {:trigger Satisfies(cs.constraints, w)} :: Satisfies(cs.constraints, w) ==>
      && Satisfies(old(cs.constraints), w)
      && (Plausible(cs.unchecked, w) ==>
          Eval(alpha, w) as int < Pow2(d) && Eval(res, w) == Arith.Exp(Eval(x, w), Eval(alpha, w)))
    ensures forall w {:trigger Honest(cs.hints, w)} :: Honest(cs.hints, w) ==>
      && Honest(old(cs.hints), w)
      && (Satisfies(cs.constraints, w) <==> Satisfies(old(cs.constraints), w) && Eval(alpha, w) as int < Pow2(d))
      && (Eval(alpha, w) as int < Pow2(d) ==> Eval(res, w) == Arith.Exp(Eval(x, w), Eval(alpha, w)))
  {
    hide Eval, Honest, At, Satisfies, Plausible, Pow2, Spells, Powers, Arith.Exp;
    var bits := ToBits(cs, alpha, d);
    KnownMore(x, old(cs.wires), cs.wires);
    res := ExpPrivateImpl(cs, x, bits);
    forall w | Spells(bits, Eval(alpha, w), w) && Powers(res, x, bits, w)
      ensures Eval(alpha, w) as int < Pow2(d) && Eval(res, w) == Arith.Exp(Eval(x, w), Eval(alpha, w))
    {
      SpelledPower(res, x, alpha, bits, w);
    }
  }

  lemma SpelledPower(res: LC, x: LC, alpha: LC, bits: seq<nat>, w: Assignment)
    requires Spells(bits, Eval(alpha, w), w) && Powers(res, x, bits, w)
    ensures Eval(alpha, w) as int < Pow2(|bits|) && Eval(res, w) == Arith.Exp(Eval(x, w), Eval(alpha, w))
  {
    hide Eval, Pow2, Arith.Exp;
  }

  /** exp_private_fixed_base: as above for a public base. */
  method ExpFixedBase(cs: ConstraintSystem, x: Elem, alpha: LC, d: nat) returns (res: LC)
    requires cs.Valid() && Known(alpha, cs.wires) && d < SCALAR_MAX_BITS
    modifies cs
    ensures cs.Valid() && cs.wires >= old(cs.wires) && Known(res, cs.wires)
    ensures forall w {:trigger Plausible(cs.unchecked, w)} :: Plausible(cs.unchecked, w) ==> Plausible(old(cs.unchecked), w)
    ensures forall w {:trigger Satisfies(cs.constraints, w)} :: Satisfies(cs.constraints, w) ==>
      && Satisfies(old(cs.constraints), w)
      && (Plausible(cs.unchecked, w) ==>
          Eval(alpha, w) as int < Pow2(d) && Eval(res, w) == Arith.Exp(x, Eval(alpha, w)))
    ensures forall w {:trigger Honest(cs.hints, w)} :: Honest(cs.hints, w) ==>
      && Honest(old(cs.hints), w)
      && (Satisfies(cs.constraints, w) <==> Satisfies(old(cs.constraints), w) && Eval(alpha, w) as int < Pow2(d))
      && (Eval(alpha, w) as int < Pow2(d) ==> Eval(res, w) == Arith.Exp(x, Eval(alpha, w)))
  {
    hide Eval, Honest, At, Satisfies, Plausible, Pow2, Spells, Powers, Arith.Exp;
    var bits := ToBits(cs, alpha, d);
    res := ExpFixedBaseImpl(cs, x, bits);
    forall w | Spells(bits, Eval(alpha, w), w) && Powers(res, Const(x), bits, w)
      ensures Eval(alpha, w) as int < Pow2(d) && Eval(res, w) == Arith.Exp(x, Eval(alpha, w))
    {
      SpelledPower(res, Const(x), alpha, bits, w);
      ScaledEval(x, 0, w);
    }
  }

  // ---- ElGamal -------------------------------------------------------------------------

  datatype Ciphertext = Ciphertext(secret: Elem, message: Elem)

  function Encrypted(g: Elem, r: nat, m: Elem, pk: Elem): Ciphertext {
    Ciphertext(Arith.Exp(g, r), Mul(Arith.Exp(pk, r), m))
  }

  /** ElGamalGadget::encrypt. */
  method Encrypt(cs: ConstraintSystem, g: Elem, r: LC, m: LC, pk: LC, d: nat) returns (c1: LC, c2: LC)
    requires cs.Valid() && Known(r, cs.wires) && Known(m, cs.wires) && Known(pk, cs.wires) && d < SCALAR_MAX_BITS
    modifies cs
    ensures cs.Valid() && cs.wires >= old(cs.wires) && Known(c1, cs.wires) && Known(c2, cs.wires)
    ensures forall w {:trigger Plausible(cs.unchecked, w)} :: Plausible(cs.unchecked, w) ==> Plausible(old(cs.unchecked), w)
    ensures forall w {:trigger Satisfies(cs.constraints, w)} :: Satisfies(cs.constraints, w) ==>
      && Satisfies(old(cs.constraints), w)
      && (Plausible(cs.unchecked, w) ==>
          && Eval(r, w) as int < Pow2(d)
          && Eval(c1, w) == Encrypted(g, Eval(r, w), Eval(m, w), Eval(pk, w)).secret
          && Eval(c2, w) == Encrypted(g, Eval(r, w), Eval(m, w), Eval(pk, w)).message)
    ensures forall w {:trigger Honest(cs.hints, w)} :: Honest(cs.hints, w) ==>
      && Honest(old(cs.hints), w)
      && (Satisfies(cs.constraints, w) <==> Satisfies(old(cs.constraints), w) && Eval(r, w) as int < Pow2(d))
  {
    hide Eval, Honest, At, Satisfies, Plausible, Pow2, Arith.Exp, Mul;
    ghost var n := cs.wires;
    c1 := ExpFixedBase(cs, g, r, d);
    KnownMore(r, n, cs.wires);
    KnownMore(pk, n, cs.wires);
    ghost var n1 := cs.wires;
    var shared := ExpPrivate(cs, pk, r, d);
    KnownMore(m, n, cs.wires);
    var _, _, blinded := Multiply(cs, shared, m);
    c2 := Wire(blinded);
    KnownMore(c1, n1, cs.wires);
    forall w ensures Eval(c2, w) == At(w, blinded) { EvalWire(blinded, w); }
  }

  lemma {:induction false} PowerNonZero(x: Elem, n: nat)
    requires x != 0
    ensures Arith.Exp(x, n) != 0
  {
    hide Mul;
    if n > 0 {
      PowerNonZero(x, n - 1);
      if Mul(x, Arith.Exp(x, n - 1)) == 0 {
        NoZeroDivisors(x, Arith.Exp(x, n - 1));
      }
    }
  }

  /** The holder of sk recovers every plaintext encrypted under g^sk. */
  lemma DecryptRecovers(g: Elem, sk: nat, r: nat, m: Elem)
    requires g != 0
    ensures var c := Encrypted(g, r, m, Arith.Exp(g, sk));
      Mul(c.message, Inv(Arith.Exp(c.secret, sk))) == m
  {
    hide Mul, Inv, Arith.Exp;
    var s := Arith.Exp(g, sk * r);
    Arith.ExpExp(g, sk, r);
    Arith.ExpExp(g, r, sk);
    assert sk * r == r * sk;
    PowerNonZero(g, sk * r);
    Inverts(s);
    MulCommutative(s, m);
    MulAssociative(m, s, Inv(s));
    MulOne(m);
  }
}
