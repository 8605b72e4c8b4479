/**
 The order crossing check of VALID MATCH MPC (circuits/src/zk_circuits/valid_match_mpc.rs). The multiprover and
 the single-prover form append the same constraints and differ only in how the prover fills the bit wires.
 */
module MatchCheck {
  import opened Numbers
  import opened ResidueField
  import opened ScalarField
  import opened MpcBits
  import opened ConstraintSystems
  import opened ZkGadgets
  import opened WalletUpdate
  import Engine = MatchEngine
  import Primality

  datatype TermsVar = TermsVar(quoteMint: nat, baseMint: nat, side: nat, price: nat, amount: nat)

  datatype ResultVar = ResultVar(
    quoteMint: nat, baseMint: nat, quoteAmount: nat, baseAmount: nat, direction: nat,
    executionPrice: nat, maxMinusMinAmount: nat, minAmountOrderIndex: nat)

  function TermsAt(o: TermsVar, w: Assignment): Engine.Order {
    Engine.Order(At(w, o.quoteMint), At(w, o.baseMint), At(w, o.side), At(w, o.price), At(w, o.amount))
  }

  function ResultAt(m: ResultVar, w: Assignment): Engine.MatchResult {
    Engine.MatchResult(At(w, m.quoteMint), At(w, m.baseMint), At(w, m.quoteAmount), At(w, m.baseAmount),
      At(w, m.direction), At(w, m.executionPrice), At(w, m.maxMinusMinAmount), At(w, m.minAmountOrderIndex))
  }

  ghost predicate TermsKnown(o: TermsVar, n: nat) {
    o.quoteMint < n && o.baseMint < n && o.side < n && o.price < n && o.amount < n
  }

  ghost predicate ResultKnown(m: ResultVar, n: nat) {
    && m.quoteMint < n && m.baseMint < n && m.quoteAmount < n && m.baseAmount < n && m.direction < n
    && m.executionPrice < n && m.maxMinusMinAmount < n && m.minAmountOrderIndex < n
  }

  // ---- what the constraints say in the field -------------------------------------------

  ghost predicate PairChecked(o1: Engine.Order, o2: Engine.Order, m: Engine.MatchResult) {
    && o1.quoteMint == m.quoteMint && o1.baseMint == m.baseMint
    && o2.quoteMint == m.quoteMint && o2.baseMint == m.baseMint
    && m.direction == o1.side && Add(o1.side, o2.side) == 1
  }

  ghost predicate PricesChecked(p1: Elem, p2: Elem, direction: Elem, price: Elem) {
    && Sub(Selected(p2, p1, direction), Selected(p1, p2, direction)) as int < Pow2(64)
    && Mul(price, 2) == Add(p1, p2)
  }

  ghost predicate AmountsChecked(a1: Elem, a2: Elem, index: Elem, maxMinusMin: Elem, base: Elem) {
    && IsBit(index)
    && Selected(Sub(a1, a2), Sub(a2, a1), index) == maxMinusMin
    && maxMinusMin as int < Pow2(32)
    && Mul(2, base) == Sub(Add(a1, a2), maxMinusMin)
  }

  ghost predicate QuoteChecked(price: Elem, base: Elem, quote: Elem) {
    Mul(price, base) == Mul(0x1_0000_0000, quote)
  }

  ghost predicate CoverageChecked(m: Engine.MatchResult, b1: Balance, b2: Balance) {
    && Selected(m.baseMint, m.quoteMint, m.direction) == b1.mint
    && Selected(m.quoteMint, m.baseMint, m.direction) == b2.mint
    && Sub(b1.amount, Selected(m.baseAmount, m.quoteAmount, m.direction)) as int < Pow2(64)
    && Sub(b2.amount, Selected(m.quoteAmount, m.baseAmount, m.direction)) as int < Pow2(64)
  }

  ghost predicate Checked(o1: Engine.Order, o2: Engine.Order, b1: Balance, b2: Balance, m: Engine.MatchResult) {
    && PairChecked(o1, o2, m)
    && PricesChecked(o1.price, o2.price, m.direction, m.executionPrice)
    && AmountsChecked(o1.amount, o2.amount, m.minAmountOrderIndex, m.maxMinusMinAmount, m.baseAmount)
    && QuoteChecked(m.executionPrice, m.baseAmount, m.quoteAmount)
    && CoverageChecked(m, b1, b2)
  }

  // ---- the circuit ---------------------------------------------------------------------

  method ConstrainPair(cs: ConstraintSystem, o1: TermsVar, o2: TermsVar, m: ResultVar)
    requires cs.Valid()
    modifies cs
    ensures cs.Valid() && cs.wires == old(cs.wires) && cs.hints == old(cs.hints) && cs.unchecked == old(cs.unchecked)
    ensures forall w {:trigger Satisfies(cs.constraints, w)} :: Satisfies(cs.constraints, w) <==>
      Satisfies(old(cs.constraints), w) && PairChecked(TermsAt(o1, w), TermsAt(o2, w), ResultAt(m, w))
  {
    hide Satisfies, At, Eval, Add;
    ConstrainEqual(cs, Wire(o1.quoteMint), Wire(m.quoteMint));
    ConstrainEqual(cs, Wire(o1.baseMint), Wire(m.baseMint));
    ConstrainEqual(cs, Wire(o2.quoteMint), Wire(m.quoteMint));
    ConstrainEqual(cs, Wire(o2.baseMint), Wire(m.baseMint));
    ConstrainEqual(cs, Wire(m.direction), Wire(o1.side));
    ConstrainEqual(cs, Sum(Wire(o1.side), Wire(o2.side)), ONE);
    forall w
      ensures Eval(Wire(o1.quoteMint), w) == At(w, o1.quoteMint) && Eval(Wire(o1.baseMint), w) == At(w, o1.baseMint)
      ensures Eval(Wire(o2.quoteMint), w) == At(w, o2.quoteMint) && Eval(Wire(o2.baseMint), w) == At(w, o2.baseMint)
      ensures Eval(Wire(m.quoteMint), w) == At(w, m.quoteMint) && Eval(Wire(m.baseMint), w) == At(w, m.baseMint)
      ensures Eval(Wire(m.direction), w) == At(w, m.direction) && Eval(Wire(o1.side), w) == At(w, o1.side)
      ensures Eval(Sum(Wire(o1.side), Wire(o2.side)), w) == Add(At(w, o1.side), At(w, o2.side)) && Eval(ONE, w) == 1
    {
      TermWires(o1, w);
      TermWires(o2, w);
      ResultWires(m, w);
      EvalSum(Wire(o1.side), Wire(o2.side), w);
      EvalOne(w);
    }
  }

  lemma TermWires(o: TermsVar, w: Assignment)
    ensures Eval(Wire(o.quoteMint), w) == At(w, o.quoteMint) && Eval(Wire(o.baseMint), w) == At(w, o.baseMint)
    ensures Eval(Wire(o.side), w) == At(w, o.side) && Eval(Wire(o.price), w) == At(w, o.price)
    ensures Eval(Wire(o.amount), w) == At(w, o.amount)
  {
  }

  lemma ResultWires(m: ResultVar, w: Assignment)
    ensures Eval(Wire(m.quoteMint), w) == At(w, m.quoteMint) && Eval(Wire(m.baseMint), w) == At(w, m.baseMint)
    ensures Eval(Wire(m.quoteAmount), w) == At(w, m.quoteAmount) && Eval(Wire(m.baseAmount), w) == At(w, m.baseAmount)
    ensures Eval(Wire(m.direction), w) == At(w, m.direction)
    ensures Eval(Wire(m.executionPrice), w) == At(w, m.executionPrice)
    ensures Eval(Wire(m.maxMinusMinAmount), w) == At(w, m.maxMinusMinAmount)
    ensures Eval(Wire(m.minAmountOrderIndex), w) == At(w, m.minAmountOrderIndex)
  {
  }

  /** a - b fits 64 bits. */
  method ConstrainGreaterThanEq(cs: ConstraintSystem, a: LC, b: LC)
    requires cs.Valid() && Known(a, cs.wires) && Known(b, cs.wires)
    modifies cs
    ensures cs.Valid() && cs.wires >= old(cs.wires)
    ensures forall w {:trigger Plausible(cs.unchecked, w)} :: Plausible(cs.unchecked, w) ==> Plausible(old(cs.unchecked), w)
    ensures forall w {:trigger Satisfies(cs.constraints, w)} :: Satisfies(cs.constraints, w) ==>
      && Satisfies(old(cs.constraints), w)
      && (Plausible(cs.unchecked, w) ==> Sub(Eval(a, w), Eval(b, w)) as int < Pow2(64))
    ensures forall w {:trigger Honest(cs.hints, w)} :: Honest(cs.hints, w) ==>
      && Honest(old(cs.hints), w)
      && (Satisfies(cs.constraints, w) <==> Satisfies(old(cs.constraints), w) && Sub(Eval(a, w), Eval(b, w)) as int < Pow2(64))
  {
    hide Eval, Satisfies, Honest, Plausible, Sub, Pow2;
    var _ := ConstrainRange(cs, Diff(a, b), 64);
    forall w ensures Eval(Diff(a, b), w) == Sub(Eval(a, w), Eval(b, w)) { EvalDiff(a, b, w); }
  }

  method ConstrainPrices(cs: ConstraintSystem, p1: nat, p2: nat, direction: nat, price: nat)
    requires cs.Valid() && p1 < cs.wires && p2 < cs.wires && direction < cs.wires && price < cs.wires
    modifies cs
    ensures cs.Valid() && cs.wires >= old(cs.wires)
    ensures forall w {:trigger Plausible(cs.unchecked, w)} :: Plausible(cs.unchecked, w) ==> Plausible(old(cs.unchecked), w)
    ensures forall w {:trigger Satisfies(cs.constraints, w)} :: Satisfies(cs.constraints, w) ==>
      && Satisfies(old(cs.constraints), w)
      && (Plausible(cs.unchecked, w) ==> PricesChecked(At(w, p1), At(w, p2), At(w, direction), At(w, price)))
    ensures forall w {:trigger Honest(cs.hints, w)} :: Honest(cs.hints, w) ==>
      && Honest(old(cs.hints), w)
      && (Satisfies(cs.constraints, w) <==>
          Satisfies(old(cs.constraints), w) && PricesChecked(At(w, p1), At(w, p2), At(w, direction), At(w, price)))
  {
    hide Eval, Satisfies, Honest, Plausible, At, Sub, Add, Mul, Selected, Pow2;
    var prices := SelectVec(cs, [Wire(p2), Wire(p1)], [Wire(p1), Wire(p2)], Wire(direction));
    ConstrainGreaterThanEq(cs, prices[0], prices[1]);
    var _, _, double := Multiply(cs, Wire(price), Const(2));
    ConstrainEqual(cs, Wire(double), Sum(Wire(p1), Wire(p2)));
    forall w
      ensures Eval(Wire(p1), w) == At(w, p1) && Eval(Wire(p2), w) == At(w, p2)
      ensures Eval(Wire(direction), w) == At(w, direction)
      ensures Eval(Wire(price), w) == At(w, price) && Eval(Wire(double), w) == At(w, double)
      ensures Eval(Sum(Wire(p1), Wire(p2)), w) == Add(At(w, p1), At(w, p2)) && Eval(Const(2), w) == 2
    {
      EvalWire(p1, w);
      EvalWire(p2, w);
      EvalWire(direction, w);
      EvalWire(price, w);
      EvalWire(double, w);
      EvalSum(Wire(p1), Wire(p2), w);
      EvalConst(2, w);
    }
  }

  method ConstrainAmounts(cs: ConstraintSystem, a1: nat, a2: nat, index: nat, maxMinusMin: nat, base: nat)
    requires cs.Valid() && a1 < cs.wires && a2 < cs.wires && index < cs.wires && maxMinusMin < cs.wires && base < cs.wires
    modifies cs
    ensures cs.Valid() && cs.wires >= old(cs.wires)
    ensures forall w {:trigger Plausible(cs.unchecked, w)} :: Plausible(cs.unchecked, w) ==> Plausible(old(cs.unchecked), w)
    ensures forall w {:trigger Satisfies(cs.constraints, w)} :: Satisfies(cs.constraints, w) ==>
      && Satisfies(old(cs.constraints), w)
      && (Plausible(cs.unchecked, w) ==>
          AmountsChecked(At(w, a1), At(w, a2), At(w, index), At(w, maxMinusMin), At(w, base)))
    ensures forall w {:trigger Honest(cs.hints, w)} :: Honest(cs.hints, w) ==>
      && Honest(old(cs.hints), w)
      && (Satisfies(cs.constraints, w) <==>
          (Satisfies(old(cs.constraints), w) &&
           AmountsChecked(At(w, a1), At(w, a2), At(w, index), At(w, maxMinusMin), At(w, base))))
  {
    hide Eval, Satisfies, Honest, Plausible, At, Sub, Add, Mul, Selected, Pow2, IsBit;
    ConstrainBinary(cs, index);
    var expected := Select(cs, Diff(Wire(a1), Wire(a2)), Diff(Wire(a2), Wire(a1)), Wire(index));
    ConstrainEqual(cs, expected, Wire(maxMinusMin));
    var _ := ConstrainRange(cs, Wire(maxMinusMin), 32);
    ConstrainEqual(cs, Scaled(2, Wire(base)), Diff(Sum(Wire(a1), Wire(a2)), Wire(maxMinusMin)));
    forall w
      ensures Eval(Diff(Wire(a1), Wire(a2)), w) == Sub(At(w, a1), At(w, a2))
      ensures Eval(Diff(Wire(a2), Wire(a1)), w) == Sub(At(w, a2), At(w, a1))
      ensures Eval(Wire(index), w) == At(w, index) && Eval(Wire(maxMinusMin), w) == At(w, maxMinusMin)
      ensures Eval(Scaled(2, Wire(base)), w) == Mul(2, At(w, base))
      ensures Eval(Diff(Sum(Wire(a1), Wire(a2)), Wire(maxMinusMin)), w)
           == Sub(Add(At(w, a1), At(w, a2)), At(w, maxMinusMin))
    {
      AmountTerms(a1, a2, index, maxMinusMin, base, w);
    }
  }

  lemma AmountTerms(a1: nat, a2: nat, index: nat, maxMinusMin: nat, base: nat, w: Assignment)
    ensures Eval(Diff(Wire(a1), Wire(a2)), w) == Sub(At(w, a1), At(w, a2))
    ensures Eval(Diff(Wire(a2), Wire(a1)), w) == Sub(At(w, a2), At(w, a1))
    ensures Eval(Wire(index), w) == At(w, index) && Eval(Wire(maxMinusMin), w) == At(w, maxMinusMin)
    ensures Eval(Scaled(2, Wire(base)), w) == Mul(2, At(w, base))
    ensures Eval(Diff(Sum(Wire(a1), Wire(a2)), Wire(maxMinusMin)), w)
         == Sub(Add(At(w, a1), At(w, a2)), At(w, maxMinusMin))
  {
    hide Sub, Add, Mul, At;
    EvalDiff(Wire(a1), Wire(a2), w);
    EvalDiff(Wire(a2), Wire(a1), w);
    EvalDiff(Sum(Wire(a1), Wire(a2)), Wire(maxMinusMin), w);
  }

  method ConstrainQuote(cs: ConstraintSystem, price: nat, base: nat, quote: nat)
    requires cs.Valid() && price < cs.wires && base < cs.wires && quote < cs.wires
    modifies cs
    ensures cs.Valid() && cs.wires >= old(cs.wires) && cs.unchecked == old(cs.unchecked)
    ensures forall w {:trigger Satisfies(cs.constraints, w)} :: Satisfies(cs.constraints, w) ==>
      Satisfies(old(cs.constraints), w) && QuoteChecked(At(w, price), At(w, base), At(w, quote))
    ensures forall w {:trigger Honest(cs.hints, w)} :: Honest(cs.hints, w) ==>
      && Honest(old(cs.hints), w)
      && (Satisfies(cs.constraints, w) <==>
          Satisfies(old(cs.constraints), w) && QuoteChecked(At(w, price), At(w, base), At(w, quote)))
  {
    hide Eval, Satisfies, Honest, At, Mul;
    var _, _, product := Multiply(cs, Wire(price), Wire(base));
    var shifted := Scaled(0x1_0000_0000, Wire(quote));
    ConstrainEqual(cs, Wire(product), shifted);
    forall w
      ensures Eval(Wire(price), w) == At(w, price) && Eval(Wire(base), w) == At(w, base)
      ensures Eval(Wire(product), w) == At(w, product) && Eval(shifted, w) == Mul(0x1_0000_0000, At(w, quote))
    {
      EvalWire(price, w);
      EvalWire(base, w);
      EvalWire(product, w);
      ShiftedEval(quote, w);
    }
  }

  lemma ShiftedEval(quote: nat, w: Assignment)
    ensures Eval(Scaled(0x1_0000_0000, Wire(quote)), w) == Mul(0x1_0000_0000, At(w, quote))
  {
    hide Mul;
  }

  method ConstrainCoverage(cs: ConstraintSystem, m: ResultVar, b1: BalanceVar, b2: BalanceVar)
    requires cs.Valid() && ResultKnown(m, cs.wires) && b1.amount < cs.wires && b2.amount < cs.wires
    modifies cs
    ensures cs.Valid() && cs.wires >= old(cs.wires)
    ensures forall w {:trigger Plausible(cs.unchecked, w)} :: Plausible(cs.unchecked, w) ==> Plausible(old(cs.unchecked), w)
    ensures forall w {:trigger Satisfies(cs.constraints, w)} :: Satisfies(cs.constraints, w) ==>
      && Satisfies(old(cs.constraints), w)
      && (Plausible(cs.unchecked, w) ==> CoverageChecked(ResultAt(m, w), BalanceAt(b1, w), BalanceAt(b2, w)))
    ensures forall w {:trigger Honest(cs.hints, w)} :: Honest(cs.hints, w) ==>
      && Honest(old(cs.hints), w)
      && (Satisfies(cs.constraints, w) <==>
          Satisfies(old(cs.constraints), w) && CoverageChecked(ResultAt(m, w), BalanceAt(b1, w), BalanceAt(b2, w)))
  {
    hide Eval, Satisfies, Honest, Plausible, At, Sub, Selected, Pow2;
    var selected := SelectVec(cs,
      [Wire(m.baseMint), Wire(m.baseAmount), Wire(m.quoteMint), Wire(m.quoteAmount)],
      [Wire(m.quoteMint), Wire(m.quoteAmount), Wire(m.baseMint), Wire(m.baseAmount)], Wire(m.direction));
    ConstrainEqual(cs, selected[0], Wire(b1.mint));
    ConstrainEqual(cs, selected[2], Wire(b2.mint));
    ghost var n := cs.wires;
    ConstrainGreaterThanEq(cs, Wire(b1.amount), selected[1]);
    KnownMore(selected[3], n, cs.wires);
    ConstrainGreaterThanEq(cs, Wire(b2.amount), selected[3]);
    forall w
      ensures Eval(Wire(m.baseMint), w) == At(w, m.baseMint) && Eval(Wire(m.quoteMint), w) == At(w, m.quoteMint)
      ensures Eval(Wire(m.baseAmount), w) == At(w, m.baseAmount) && Eval(Wire(m.quoteAmount), w) == At(w, m.quoteAmount)
      ensures Eval(Wire(m.direction), w) == At(w, m.direction)
      ensures Eval(Wire(b1.mint), w) == At(w, b1.mint) && Eval(Wire(b2.mint), w) == At(w, b2.mint)
      ensures Eval(Wire(b1.amount), w) == At(w, b1.amount) && Eval(Wire(b2.amount), w) == At(w, b2.amount)
    {
      ResultWires(m, w);
      EvalWire(b1.mint, w);
      EvalWire(b2.mint, w);
      EvalWire(b1.amount, w);
      EvalWire(b2.amount, w);
    }
  }

  /** matching_engine_check: it accepts exactly the assignments that pass Checked. */
  method MatchingEngineCheck(cs: ConstraintSystem, o1: TermsVar, o2: TermsVar, b1: BalanceVar, b2: BalanceVar, m: ResultVar)
    requires cs.Valid() && TermsKnown(o1, cs.wires) && TermsKnown(o2, cs.wires) && ResultKnown(m, cs.wires)
    requires b1.amount < cs.wires && b2.amount < cs.wires
    modifies cs
    ensures cs.Valid() && cs.wires >= old(cs.wires)
    ensures forall w {:trigger Plausible(cs.unchecked, w)} :: Plausible(cs.unchecked, w) ==> Plausible(old(cs.unchecked), w)
    ensures forall w {:trigger Satisfies(cs.constraints, w)} :: Satisfies(cs.constraints, w) ==>
      && Satisfies(old(cs.constraints), w)
      && (Plausible(cs.unchecked, w) ==>
          Checked(TermsAt(o1, w), TermsAt(o2, w), BalanceAt(b1, w), BalanceAt(b2, w), ResultAt(m, w)))
    ensures forall w {:trigger Honest(cs.hints, w)} :: Honest(cs.hints, w) ==>
      && Honest(old(cs.hints), w)
      && (Satisfies(cs.constraints, w) <==>
          (Satisfies(old(cs.constraints), w) &&
           Checked(TermsAt(o1, w), TermsAt(o2, w), BalanceAt(b1, w), BalanceAt(b2, w), ResultAt(m, w))))
  {
    hide Satisfies, Honest, Plausible, At, PairChecked, PricesChecked, AmountsChecked, QuoteChecked, CoverageChecked, Pow2;
    ConstrainPair(cs, o1, o2, m);
    ConstrainPrices(cs, o1.price, o2.price, m.direction, m.executionPrice);
    ConstrainAmounts(cs, o1.amount, o2.amount, m.minAmountOrderIndex, m.maxMinusMinAmount, m.baseAmount);
    ConstrainQuote(cs, m.executionPrice, m.baseAmount, m.quoteAmount);
    ConstrainCoverage(cs, m, b1, b2);
  }

  // ---- what the check means over the integers ------------------------------------------

  /** 64-bit amounts, prices with 64 integer and 32 fraction bits, a binary side. */
  ghost predicate TermsInRange(o: Engine.Order) {
    IsBit(o.side) && o.price as int < Pow2(96) && o.amount as int < Pow2(64)
  }

  function BuyPrice(o1: Engine.Order, o2: Engine.Order): Elem {
    if o1.side == 1 then o2.price else o1.price
  }

  function SellPrice(o1: Engine.Order, o2: Engine.Order): Elem {
    if o1.side == 1 then o1.price else o2.price
  }

  function MinOf(a: Elem, b: Elem): Elem {
    if a < b then a else b
  }

  /** The sides differ, the prices cross, the smaller amount trades, the quote is exact and both sides can pay. */
  ghost predicate PlainChecked(o1: Engine.Order, o2: Engine.Order, b1: Balance, b2: Balance, m: Engine.MatchResult) {
    && o1.quoteMint == m.quoteMint == o2.quoteMint && o1.baseMint == m.baseMint == o2.baseMint
    && m.direction == o1.side != o2.side
    && SellPrice(o1, o2) as int <= BuyPrice(o1, o2) as int < SellPrice(o1, o2) + Pow2(64)
    && m.executionPrice as int == Engine.HalfMod(o1.price + o2.price)
    && ArgminCorrect(o1.amount, o2.amount, m.minAmountOrderIndex, m.maxMinusMinAmount, m.baseAmount)
    && m.quoteAmount as int * Pow2(33) == m.baseAmount * (o1.price + o2.price)
    && (if o1.side == 1
        then b1 == Balance(m.baseMint, b1.amount) && b2 == Balance(m.quoteMint, b2.amount)
             && m.baseAmount <= b1.amount && m.quoteAmount <= b2.amount
        else b1 == Balance(m.quoteMint, b1.amount) && b2 == Balance(m.baseMint, b2.amount)
             && m.quoteAmount <= b1.amount && m.baseAmount <= b2.amount)
  }

  /** The index names an order with the smaller amount, and the difference has 32 bits. */
  ghost predicate ArgminCorrect(a1: Elem, a2: Elem, index: Elem, maxMinusMin: Elem, base: Elem) {
    && base == MinOf(a1, a2)
    && ((index == 0 && a1 <= a2 && maxMinusMin == a2 - a1) || (index == 1 && a2 <= a1 && maxMinusMin == a1 - a2))
    && maxMinusMin as int < Pow2(32)
  }

  lemma SubIsDifference(a: Elem, b: Elem)
    ensures Sub(a, b) as int == if b <= a then a - b else a - b + P
  {
    hide F;
    FIsShift(a - b);
    if b <= a {
      FSelf(a - b);
    } else {
      DivModUnique(a - b, -1, a - b + P, P);
    }
  }

  /** Counting up from b, around the modulus if need be, a is reached in less than 2^n steps. */
  predicate Within(a: Elem, b: Elem, n: nat) {
    b as int <= a as int < b + Pow2(n) || a + P < b + Pow2(n)
  }

  /** What the greater-or-equal gadget checks, for all field elements. */
  lemma SubWithinIff(a: Elem, b: Elem, n: nat)
    ensures Sub(a, b) as int < Pow2(n) <==> Within(a, b, n)
  {
    hide Sub, Pow2;
    SubIsDifference(a, b);
  }

  /** The gadget means b <= a for every a exactly when b is at most P - 2^n. */
  lemma CoverBoundExact(b: Elem, n: nat)
    requires n < SCALAR_MAX_BITS
    ensures (forall a: Elem :: Sub(a, b) as int < Pow2(n) ==> b <= a) <==> b as int <= P - Pow2(n)
  {
    hide Sub, Pow2;
    PowerBelowModulus(n);
    forall a: Elem ensures Sub(a, b) as int < Pow2(n) <==> Within(a, b, n) {
      SubWithinIff(a, b, n);
    }
    if b as int > P - Pow2(n) {
      assert Within(0, b, n);
      assert Sub(0, b) as int < Pow2(n);
    }
  }

  /** Far below the modulus, a difference is small exactly when it does not wrap. */
  lemma SubFits(a: Elem, b: Elem, n: nat, m: nat)
    requires a as int < Pow2(n) && b as int < Pow2(n) && n <= 250 && m <= 250
    ensures Sub(a, b) as int < Pow2(m) <==> b as int <= a as int < b + Pow2(m)
  {
    hide Sub, Pow2;
    SubIsDifference(a, b);
    Pow2Monotone(n, 250);
    Pow2Monotone(m, 250);
    Pow2Literals();
  }

  lemma SidesOppose(s1: Elem, s2: Elem)
    requires IsBit(s1) && IsBit(s2)
    ensures Add(s1, s2) == 1 <==> s1 != s2
  {
    hide F, Add;
    var sum: int := s1 + s2;
    FSelf(s1);
    FSelf(s2);
    FAdd(s1, s2);
    FSelf(sum);
  }

  lemma HalfModFits(n: nat)
    requires n < P
    ensures Engine.HalfMod(n) < P
  {
  }

  lemma MidpointIff(sum: Elem, price: Elem)
    ensures Mul(price, 2) == sum <==> price as int == Engine.HalfMod(sum)
  {
    hide F, Mul, Engine.HalfMod;
    HalfModFits(sum);
    var h: Elem := Engine.HalfMod(sum);
    Engine.HalfModDoubles(sum);
    FMul(2, h);
    FSelf(2);
    FSelf(h);
    FSelf(sum);
    MulCommutative(price, 2);
    assert Mul(2, h) == sum;
    if Mul(2, price) == Mul(2, h) {
      MulCancels(2, price, h);
    }
  }

  lemma SmallSum(p1: Elem, p2: Elem)
    requires p1 as int < Pow2(96) && p2 as int < Pow2(96)
    ensures Add(p1, p2) as int == p1 + p2
  {
    hide F, Pow2;
    Pow2Monotone(96, 250);
    Pow2Literals();
    ModulusSize();
    FSelf(p1 + p2);
  }

  lemma PricesIff(p1: Elem, p2: Elem, d: Elem, price: Elem)
    requires IsBit(d) && p1 as int < Pow2(96) && p2 as int < Pow2(96)
    ensures PricesChecked(p1, p2, d, price) <==>
      (var (buy, sell) := if d == 1 then (p2, p1) else (p1, p2);
       sell as int <= buy as int < sell + Pow2(64) && price as int == Engine.HalfMod(p1 + p2))
  {
    hide Mul, Add, Sub, Selected, Engine.HalfMod, Pow2;
    SelectedByBit(p2, p1, d);
    SelectedByBit(p1, p2, d);
    SubFits(p2, p1, 96, 64);
    SubFits(p1, p2, 96, 64);
    SmallSum(p1, p2);
    MidpointIff(p1 + p2, price);
  }

  /** 2 base == a1 + a2 - (hi - lo) in the field says that lo trades, whichever of the two amounts lo is. */
  lemma MinIff(lo: Elem, hi: Elem, a1: Elem, a2: Elem, base: Elem)
    requires (a1 == lo && a2 == hi) || (a1 == hi && a2 == lo)
    ensures Mul(2, base) == Sub(Add(a1, a2), Sub(hi, lo)) <==> base == lo
  {
    hide F, Mul, Add, Sub;
    FSelf(a1);
    FSelf(a2);
    FSub(hi, lo);
    FAdd(a1, a2);
    FSub(a1 + a2, hi - lo);
    FSelf(2);
    FSelf(lo);
    FMul(2, lo);
    if Mul(2, base) == Mul(2, lo) {
      MulCancels(2, base, lo);
    }
  }

  lemma AmountsIff(a1: Elem, a2: Elem, index: Elem, maxMinusMin: Elem, base: Elem)
    requires a1 as int < Pow2(64) && a2 as int < Pow2(64)
    ensures AmountsChecked(a1, a2, index, maxMinusMin, base) <==> ArgminCorrect(a1, a2, index, maxMinusMin, base)
  {
    hide Mul, Add, Sub, Selected, Pow2;
    if IsBit(index) {
      var (hi, lo) := if index == 1 then (a1, a2) else (a2, a1);
      SelectedByBit(Sub(a1, a2), Sub(a2, a1), index);
      SubFits(hi, lo, 64, 32);
      SubIsDifference(hi, lo);
      MinIff(lo, hi, a1, a2, base);
    }
  }

  /** With the midpoint price, the quote constraint is 2^33 quote == base * (p1 + p2) modulo P. */
  lemma QuoteModIff(sum: nat, price: Elem, base: Elem, quote: Elem)
    requires sum < P && price as int == Engine.HalfMod(sum)
    ensures QuoteChecked(price, base, quote) <==> F(base * sum) == F(Pow2(33) * quote)
  {
    hide F, Mul, Engine.HalfMod, Pow2;
    var x, y := Mul(price, base), Mul(0x1_0000_0000, quote);
    Engine.HalfModDoubles(sum);
    FSelf(price);
    FSelf(base);
    FSelf(quote);
    FSelf(2);
    FSelf(0x1_0000_0000);
    FMul(price, base);
    FMul(2, price * base);
    FMul(2 * price, base);
    FMul(sum, base);
    MulCommutes(base, sum);
    FMul(0x1_0000_0000, quote);
    FMul(2, 0x1_0000_0000 * quote);
    Pow2Literals();
    assert 2 * (price * base) == 2 * price * base;
    assert 2 * (0x1_0000_0000 * quote) == Pow2(33) * quote;
    assert Mul(2, x) == F(base * sum) && Mul(2, y) == F(Pow2(33) * quote);
    if Mul(2, x) == Mul(2, y) {
      MulCancels(2, x, y);
    }
  }

  /** Two small integers that agree modulo P are equal. */
  lemma CloseAndCongruent(x: int, y: int)
    requires F(x) == F(y) && -1 * Pow2(250) < x < Pow2(250) && -1 * Pow2(250) < y < Pow2(250)
    ensures x == y
  {
    hide F, Pow2;
    Pow2Literals();
    if x != y {
      FarApart(x, y);
    }
  }

  lemma ProductBelow(x: int, y: int, a: nat, b: nat)
    requires 0 <= x < Pow2(a) && 0 <= y <= Pow2(b)
    ensures 0 <= x * y <= Pow2(a + b)
  {
    hide Pow2;
    Pow2Add(a, b);
    Primality.MulMonotone(x, y, Pow2(a), Pow2(b));
  }

  lemma QuoteIff(sum: nat, price: Elem, base: Elem, quote: Elem, balance: Elem)
    requires sum <= Pow2(97) && price as int == Engine.HalfMod(sum)
    requires base as int < Pow2(64) && balance as int < Pow2(64)
    ensures QuoteChecked(price, base, quote) && Sub(balance, quote) as int < Pow2(64) <==>
      (quote as int * Pow2(33) == base * sum && quote <= balance)
  {
    hide F, Mul, Sub, Engine.HalfMod, Pow2, QuoteChecked;
    Pow2Monotone(97, 250);
    Pow2Literals();
    QuoteModIff(sum, price, base, quote);
    SubIsDifference(balance, quote);
    MulCommutes(quote, Pow2(33));
    if QuoteChecked(price, base, quote) && Sub(balance, quote) as int < Pow2(64) {
      var t: int := if quote <= balance then quote else quote - P;
      assert -1 * Pow2(64) < t < Pow2(64);
      QuoteNotNegative(t, quote, base, sum);
    }
  }

  /** A covered quote is never the residue of a negative amount. */
  lemma QuoteNotNegative(t: int, quote: Elem, base: Elem, sum: nat)
    requires t == quote as int || t == quote - P
    requires -1 * Pow2(64) < t < Pow2(64) && base as int < Pow2(64) && sum <= Pow2(97)
    requires F(base * sum) == F(Pow2(33) * quote)
    ensures t == quote as int && base * sum == Pow2(33) * quote
  {
    hide F, Pow2;
    var n := Pow2(33);
    FSelf(quote);
    FMul(n, quote);
    FMul(n, t);
    assert F(t) == quote by { FCongruent(quote, t, if t == quote as int then 0 else 1); }
    assert F(n * t) == F(n * quote);
    ProductBelow(base, sum, 64, 97);
    ProductBelow(if t < 0 then -t else t, n, 64, 33);
    MulNegates(t, n);
    MulCommutes(t, n);
    Pow2Monotone(161, 249);
    Pow2Monotone(97, 249);
    assert Pow2(249) < Pow2(250) by { Pow2Add(1, 249); Pow2Literals(); }
    CloseAndCongruent(base * sum, n * t);
    assert t >= 0 by { ProductSign(n, t); }
  }

  lemma ProductSign(n: int, t: int)
    requires n > 0 && n * t >= 0
    ensures t >= 0
  {
  }

  lemma CoverageIff(m: Engine.MatchResult, b1: Balance, b2: Balance)
    requires IsBit(m.direction)
    ensures CoverageChecked(m, b1, b2) <==>
      (if m.direction == 1
       then b1.mint == m.baseMint && b2.mint == m.quoteMint
            && Sub(b1.amount, m.baseAmount) as int < Pow2(64) && Sub(b2.amount, m.quoteAmount) as int < Pow2(64)
       else b1.mint == m.quoteMint && b2.mint == m.baseMint
            && Sub(b1.amount, m.quoteAmount) as int < Pow2(64) && Sub(b2.amount, m.baseAmount) as int < Pow2(64))
  {
    hide Sub, Selected, Pow2;
    SelectedByBit(m.baseMint, m.quoteMint, m.direction);
    SelectedByBit(m.quoteMint, m.baseMint, m.direction);
    SelectedByBit(m.baseAmount, m.quoteAmount, m.direction);
    SelectedByBit(m.quoteAmount, m.baseAmount, m.direction);
  }

  lemma CheckedInRange(o1: Engine.Order, o2: Engine.Order, b1: Balance, b2: Balance, m: Engine.MatchResult)
    requires TermsInRange(o1) && TermsInRange(o2) && b1.amount as int < Pow2(64) && b2.amount as int < Pow2(64)
    ensures Checked(o1, o2, b1, b2, m) <==> PlainChecked(o1, o2, b1, b2, m)
  {
    hide Add, Sub, Mul, PricesChecked, AmountsChecked, QuoteChecked, CoverageChecked, Engine.HalfMod, Pow2;
    SidesOppose(o1.side, o2.side);
    if m.direction == o1.side {
      var sum := o1.price + o2.price;
      PricesIff(o1.price, o2.price, m.direction, m.executionPrice);
      AmountsIff(o1.amount, o2.amount, m.minAmountOrderIndex, m.maxMinusMinAmount, m.baseAmount);
      CoverageIff(m, b1, b2);
      Pow2Add(1, 96);
      Pow2Literals();
      if m.executionPrice as int == Engine.HalfMod(sum) && m.baseAmount == MinOf(o1.amount, o2.amount) {
        QuoteIff(sum, m.executionPrice, m.baseAmount, m.quoteAmount, if m.direction == 1 then b2.amount else b1.amount);
        SubFits(if m.direction == 1 then b1.amount else b2.amount, m.baseAmount, 64, 64);
      }
    }
  }

  /**
   What the check says of all field elements. Every comparison is taken around the modulus: the order that the index
   names trades its whole amount, the midpoint and the quote hold modulo P.
   */
  ghost predicate WrappedChecked(o1: Engine.Order, o2: Engine.Order, b1: Balance, b2: Balance, m: Engine.MatchResult) {
    var d, sum := m.direction, Add(o1.price, o2.price);
    var (hi, lo) := if m.minAmountOrderIndex == 1 then (o1.amount, o2.amount) else (o2.amount, o1.amount);
    && o1.quoteMint == m.quoteMint == o2.quoteMint && o1.baseMint == m.baseMint == o2.baseMint
    && d == o1.side && (o1.side + o2.side == 1 || o1.side + o2.side == P + 1)
    && Within(Selected(o2.price, o1.price, d), Selected(o1.price, o2.price, d), 64)
    && m.executionPrice as int == Engine.HalfMod(sum)
    && IsBit(m.minAmountOrderIndex) && m.maxMinusMinAmount == Sub(hi, lo) && Within(hi, lo, 32) && m.baseAmount == lo
    && F(m.baseAmount * sum) == F(Pow2(33) * m.quoteAmount)
    && b1.mint == Selected(m.baseMint, m.quoteMint, d) && b2.mint == Selected(m.quoteMint, m.baseMint, d)
    && Within(b1.amount, Selected(m.baseAmount, m.quoteAmount, d), 64)
    && Within(b2.amount, Selected(m.quoteAmount, m.baseAmount, d), 64)
  }

  lemma AmountsWrapIff(a1: Elem, a2: Elem, index: Elem, maxMinusMin: Elem, base: Elem)
    ensures var (hi, lo) := if index == 1 then (a1, a2) else (a2, a1);
      AmountsChecked(a1, a2, index, maxMinusMin, base) <==>
      IsBit(index) && maxMinusMin == Sub(hi, lo) && Within(hi, lo, 32) && base == lo
  {
    hide Mul, Add, Sub, Selected, Pow2;
    var (hi, lo) := if index == 1 then (a1, a2) else (a2, a1);
    if IsBit(index) {
      SelectedByBit(Sub(a1, a2), Sub(a2, a1), index);
      SubWithinIff(hi, lo, 32);
      MinIff(lo, hi, a1, a2, base);
    }
  }

  lemma SidesSum(s1: Elem, s2: Elem)
    ensures Add(s1, s2) == 1 <==> s1 + s2 == 1 || s1 + s2 == P + 1
  {
    hide F;
    if s1 + s2 < P {
      FSelf(s1 + s2);
    } else {
      DivModUnique(s1 + s2, 1, s1 + s2 - P, P);
      FIsShift(s1 + s2);
    }
  }

  /** For all orders, balances and results; in range these are the integer conditions. */
  lemma CheckedIff(o1: Engine.Order, o2: Engine.Order, b1: Balance, b2: Balance, m: Engine.MatchResult)
    ensures Checked(o1, o2, b1, b2, m) <==> WrappedChecked(o1, o2, b1, b2, m)
    ensures TermsInRange(o1) && TermsInRange(o2) && b1.amount as int < Pow2(64) && b2.amount as int < Pow2(64) ==>
      (Checked(o1, o2, b1, b2, m) <==> PlainChecked(o1, o2, b1, b2, m))
  {
    hide Checked, WrappedChecked, PlainChecked, Pow2;
    CheckedWrapped(o1, o2, b1, b2, m);
    if TermsInRange(o1) && TermsInRange(o2) && b1.amount as int < Pow2(64) && b2.amount as int < Pow2(64) {
      CheckedInRange(o1, o2, b1, b2, m);
    }
  }

  lemma CheckedWrapped(o1: Engine.Order, o2: Engine.Order, b1: Balance, b2: Balance, m: Engine.MatchResult)
    ensures Checked(o1, o2, b1, b2, m) <==> WrappedChecked(o1, o2, b1, b2, m)
  {
    hide F, Add, Sub, Mul, Selected, AmountsChecked, QuoteChecked, Within, Engine.HalfMod, Pow2;
    var d, sum := m.direction, Add(o1.price, o2.price);
    SidesSum(o1.side, o2.side);
    SubWithinIff(Selected(o2.price, o1.price, d), Selected(o1.price, o2.price, d), 64);
    MidpointIff(sum, m.executionPrice);
    AmountsWrapIff(o1.amount, o2.amount, m.minAmountOrderIndex, m.maxMinusMinAmount, m.baseAmount);
    if m.executionPrice as int == Engine.HalfMod(sum) {
      QuoteModIff(sum, m.executionPrice, m.baseAmount, m.quoteAmount);
    }
    SubWithinIff(b1.amount, Selected(m.baseAmount, m.quoteAmount, d), 64);
    SubWithinIff(b2.amount, Selected(m.quoteAmount, m.baseAmount, d), 64);
  }

  // ---- price limits, and the engine against its check ----------------------------------

  /** The midpoint of crossing prices respects both limits exactly when the price sum is even. */
  lemma MidpointWithinLimits(sell: nat, buy: nat)
    requires sell <= buy < Pow2(96)
    ensures sell <= Engine.HalfMod(sell + buy) <= buy <==> (sell + buy) % 2 == 0
    ensures (sell + buy) % 2 == 0 ==> 2 * Engine.HalfMod(sell + buy) == sell + buy
    ensures (sell + buy) % 2 == 1 ==> Engine.HalfMod(sell + buy) >= Pow2(251)
  {
    hide Pow2;
    Pow2Monotone(96, 250);
    Pow2Add(1, 250);
    Pow2Literals();
  }

  /** The engine's quote is the floor of the exact midpoint volume exactly when the doubled volume is even. */
  lemma QuoteFloorIff(o1: Engine.PlainOrder, o2: Engine.PlainOrder)
    requires Engine.InRange(o1) && Engine.InRange(o2)
    ensures var d := Engine.DoubleQuote(o1, o2);
      Engine.HalfMod(d) / Pow2(32) == d / Pow2(33) <==> d % 2 == 0
  {
    hide Pow2, Engine.DoubleQuote;
    var d := Engine.DoubleQuote(o1, o2);
    Pow2Literals();
    DoubleQuoteFits(o1, o2);
    if d % 2 == 0 {
      DivTwice(d, Pow2(32));
    } else {
      assert Engine.HalfMod(d) >= Pow2(250);
      DivisionGap(Engine.HalfMod(d), d);
    }
  }

  lemma DivTwice(d: nat, m: nat)
    requires m > 0 && d % 2 == 0
    ensures d / 2 / m == d / (2 * m)
  {
    var h := d / 2;
    DivModUnique(d, h / m, 2 * (h % m), 2 * m);
  }

  lemma DivisionGap(h: nat, d: nat)
    requires h >= Pow2(250) && d <= Pow2(161)
    ensures h / Pow2(32) > d / Pow2(33)
  {
    hide Pow2;
    Pow2Literals();
    Pow2Monotone(161, 249);
    Pow2Add(1, 249);
  }

  /** The engine's crossing test is symmetric in the orders except at equal prices, where order 1 must sell. */
  lemma CrossesSymmetry(o1: Engine.PlainOrder, o2: Engine.PlainOrder)
    requires Engine.InRange(o1) && Engine.InRange(o2)
    ensures o1.price != o2.price ==> (Engine.Crosses(o1, o2) <==> Engine.Crosses(o2, o1))
    ensures o1.price == o2.price ==> (Engine.Crosses(o1, o2) ==> o1.side == 1 && !Engine.Crosses(o2, o1))
  {
    hide Pow2;
    SameMintSymmetric(o1.baseMint, o2.baseMint);
    SameMintSymmetric(o1.quoteMint, o2.quoteMint);
  }

  lemma SameMintSymmetric(x: nat, y: nat)
    ensures Engine.SameMint(x, y) <==> Engine.SameMint(y, x)
  {
    hide Pow2;
    ModEqualsIff(x, y, Pow2(64));
    ModEqualsIff(y, x, Pow2(64));
  }

  /** Prices, amounts, exact quote and balances that make an engine result provable. */
  ghost predicate Provable(o1: Engine.PlainOrder, o2: Engine.PlainOrder, b1: Balance, b2: Balance) {
    var base, quote := Engine.MinAmount(o1, o2), Engine.DoubleQuote(o1, o2) / Pow2(33);
    && o1.quoteMint == o2.quoteMint && o1.baseMint == o2.baseMint
    && -1 * Pow2(64) < o1.price - o2.price < Pow2(64)
    && Engine.MaxAmount(o1, o2) - base < Pow2(32)
    && Engine.DoubleQuote(o1, o2) % Pow2(33) == 0
    && (if o1.side == 1
        then b1.mint as int == o1.baseMint && b2.mint as int == o1.quoteMint && base <= b1.amount && quote <= b2.amount
        else b1.mint as int == o1.quoteMint && b2.mint as int == o1.baseMint && quote <= b1.amount && base <= b2.amount)
  }

  ghost predicate Representable(o: Engine.PlainOrder) {
    Engine.InRange(o) && o.baseMint < P && o.quoteMint < P
  }

  lemma SharedIsSelf(o: Engine.PlainOrder)
    requires Representable(o)
    ensures var s := Engine.Shared(o);
      && s.quoteMint as int == o.quoteMint && s.baseMint as int == o.baseMint && s.side as int == o.side
      && s.price as int == o.price && s.amount as int == o.amount && TermsInRange(s)
  {
    hide F, Pow2;
    Pow2Monotone(96, 250);
    Pow2Literals();
    FSelf(o.quoteMint);
    FSelf(o.baseMint);
    FSelf(o.side);
    FSelf(o.price);
    FSelf(o.amount);
  }

  /** The amounts of a crossing match, as integers. */
  lemma PlainAmounts(o1: Engine.PlainOrder, o2: Engine.PlainOrder)
    requires Engine.InRange(o1) && Engine.InRange(o2) && Engine.Crosses(o1, o2)
    ensures var m := Engine.PlainMatch(o1, o2);
      && m.direction as int == o1.side
      && m.baseAmount as int == Engine.MinAmount(o1, o2)
      && m.maxMinusMinAmount as int == Engine.MaxAmount(o1, o2) - Engine.MinAmount(o1, o2)
      && m.executionPrice as int == Engine.HalfMod(o1.price + o2.price)
      && m.quoteAmount as int == Engine.HalfMod(Engine.DoubleQuote(o1, o2)) / Pow2(32)
      && m.minAmountOrderIndex == if o1.amount < o2.amount then 0 else 1
  {
    hide F, Pow2, Engine.HalfMod, Engine.SameMint, Engine.DoubleQuote;
    var d := Engine.DoubleQuote(o1, o2);
    DoubleQuoteFits(o1, o2);
    Pow2Monotone(96, 249);
    Pow2Add(1, 249);
    Pow2Literals();
    HalfModFits(d);
    HalfModFits(o1.price + o2.price);
    QuotientFits(Engine.HalfMod(d), Pow2(32));
    FSelf(Engine.HalfMod(d) / Pow2(32));
    FSelf(Engine.HalfMod(o1.price + o2.price));
    FSelf(Engine.MinAmount(o1, o2));
    FSelf(Engine.MaxAmount(o1, o2) - Engine.MinAmount(o1, o2));
    FSelf(o1.side);
  }

  /** The fields of a crossing match, as integers. */
  lemma PlainResult(o1: Engine.PlainOrder, o2: Engine.PlainOrder)
    requires Representable(o1) && Representable(o2) && Engine.Crosses(o1, o2)
    ensures var m := Engine.PlainMatch(o1, o2);
      && m.quoteMint as int == o1.quoteMint && m.baseMint as int == o1.baseMint && m.direction as int == o1.side
      && m.baseAmount as int == Engine.MinAmount(o1, o2)
      && m.maxMinusMinAmount as int == Engine.MaxAmount(o1, o2) - Engine.MinAmount(o1, o2)
      && m.executionPrice as int == Engine.HalfMod(o1.price + o2.price)
      && m.quoteAmount as int == Engine.HalfMod(Engine.DoubleQuote(o1, o2)) / Pow2(32)
      && m.minAmountOrderIndex == if o1.amount < o2.amount then 0 else 1
  {
    hide F, Pow2, Engine.HalfMod, Engine.SameMint, Engine.DoubleQuote;
    PlainAmounts(o1, o2);
    FSelf(o1.quoteMint);
    FSelf(o1.baseMint);
  }

  lemma QuotientFits(h: nat, m: nat)
    requires m > 0
    ensures 0 <= h / m <= h
  {
    Quotient(h, m);
  }

  lemma DoubleQuoteFits(o1: Engine.PlainOrder, o2: Engine.PlainOrder)
    requires Engine.InRange(o1) && Engine.InRange(o2)
    ensures Engine.DoubleQuote(o1, o2) <= Pow2(161) < P
  {
    hide Pow2;
    Pow2Add(1, 96);
    Pow2Literals();
    ProductBelow(Engine.MinAmount(o1, o2), o1.price + o2.price, 64, 97);
    Pow2Monotone(161, 250);
  }

  lemma QuoteExactIff(d: nat, quote: nat)
    requires quote == Engine.HalfMod(d) / Pow2(32)
    ensures quote * Pow2(33) == d <==> d % Pow2(33) == 0
    ensures d % Pow2(33) == 0 ==> quote == d / Pow2(33)
  {
    hide Pow2, Engine.HalfMod;
    Pow2Literals();
    var n := Pow2(33);
    if d % n == 0 {
      EvenMultiple(d, Pow2(32));
      DivModUnique(d, d / n, 0, n);
      MulCommutes(d / n, n);
    }
    if quote * n == d {
      DivModUnique(d, quote, 0, n);
    }
  }

  lemma EvenMultiple(d: nat, m: nat)
    requires m > 0 && d % (2 * m) == 0
    ensures Engine.HalfMod(d) / m == d / (2 * m)
  {
    var k := d / (2 * m);
    assert d == 2 * m * k;
    MulRotates(2, m, k);
    DivModUnique(d, m * k, 0, 2);
    MulCommutes(m, k);
    DivModUnique(m * k, k, 0, m);
  }

  /** A crossing result of the engine passes the check iff it is Provable: the check is the stricter of the two. */
  lemma EngineResultChecked(o1: Engine.PlainOrder, o2: Engine.PlainOrder, t: Engine.MatchTape, b1: Balance, b2: Balance)
    requires Representable(o1) && Representable(o2) && Engine.MatchTapeExact(o1, o2, t) && Engine.Crosses(o1, o2)
    requires b1.amount as int < Pow2(64) && b2.amount as int < Pow2(64)
    ensures Checked(Engine.Shared(o1), Engine.Shared(o2), b1, b2, Engine.ComputeMatch(Engine.Shared(o1), Engine.Shared(o2), t))
      <==> Provable(o1, o2, b1, b2)
  {
    hide Checked, Engine.ComputeMatch, Engine.MatchTapeExact, Engine.HalfMod, Engine.SameMint, F, Pow2;
    Engine.ComputeMatchIsPlainMatch(o1, o2, t);
    SharedIsSelf(o1);
    SharedIsSelf(o2);
    var m := Engine.PlainMatch(o1, o2);
    CheckedIff(Engine.Shared(o1), Engine.Shared(o2), b1, b2, m);
    PlainResult(o1, o2);
    QuoteExactIff(Engine.DoubleQuote(o1, o2), m.quoteAmount);
  }

  // ---- the two prover forms ------------------------------------------------------------

  /**
   The multiprover form fills the bit wires by an MPC decomposition, the single-prover form from the scalar itself.
   For every signed difference and exact blinding, both pass the recomposition test exactly when it has d bits.
   */
  lemma ProverFormsAgree(d: nat, x: int, blind: Blind)
    requires 0 < d < SCALAR_MAX_BITS && |blind.low| == d && AllBits(blind.low)
    requires Pow2(d) - P <= x < P && KeepsLowBits(BitsOpening(d, x, blind), d)
    ensures FromBits(ToBitsLe(d, F(x), false, blind)) == F(x) <==> 0 <= x < Pow2(d)
    ensures F(x) as int < Pow2(d) <==> 0 <= x < Pow2(d)
    ensures 0 <= x < Pow2(d) ==> ToBitsLe(d, F(x), false, blind) == BitsOf(x, d)
  {
    hide F, ToBitsLe, KeepsLowBits, BitsOpening, Pow2, BitsOf, FromBits;
    ExactBits(d, x, blind);
    SignedFits(d, x);
    RemainderFits(d, x);
    if 0 <= x < Pow2(d) {
      DivModUnique(x, 0, x, Pow2(d));
    }
  }

  lemma ExactBits(d: nat, x: int, blind: Blind)
    requires 0 < d < SCALAR_MAX_BITS && |blind.low| == d && AllBits(blind.low) && KeepsLowBits(BitsOpening(d, x, blind), d)
    ensures ToBitsLe(d, F(x), false, blind) == BitsOf(x % Pow2(d), d)
    ensures FromBits(BitsOf(x % Pow2(d), d)) == F(x % Pow2(d))
  {
    hide F, ToBitsLe, KeepsLowBits, BitsOpening, Pow2, Value, Wraps, AllBits;
    ToBitsLeExact(d, x, blind);
    BelowModulus(x % Pow2(d), Pow2(d));
  }

  lemma BelowModulus(x: nat, m: nat)
    requires x < m
    ensures x % m == x
  {
    DivModUnique(x, 0, x, m);
  }

  lemma RemainderFits(d: nat, x: int)
    requires Pow2(d) - P <= x < P
    ensures F(x % Pow2(d)) == F(x) <==> 0 <= x < Pow2(d)
  {
    hide F, Pow2;
    var v := x % Pow2(d);
    if F(v) == F(x) && v != x {
      FarApart(v, x);
    }
    if 0 <= x < Pow2(d) {
      BelowModulus(x, Pow2(d));
    }
  }

  lemma SignedFits(d: nat, x: int)
    requires Pow2(d) - P <= x < P
    ensures F(x) as int < Pow2(d) <==> 0 <= x < Pow2(d)
  {
    hide F, Pow2;
    if x >= 0 {
      FSelf(x);
    } else {
      DivModUnique(x, -1, x + P, P);
      ReducesTo(x, x + P);
    }
  }

  lemma ReducesTo(x: int, r: int)
    requires x % P == r
    ensures F(x) as int == r
  {
  }
}
