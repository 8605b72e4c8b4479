/**
 The matching engine (circuits/src/mpc_circuits/match.rs), as a composition of the MPC gadgets, and the
 plain integer matcher it computes.
 */
module MatchEngine {
  import opened Numbers
  import opened ResidueField
  import opened ScalarField
  import opened MpcBits
  import opened MpcModulo
  import opened MpcArithmetic
  import opened MpcComparators

  /** The fixed-point fraction bits of prices (circuits/src/zk_gadgets/fixed_point.rs). */
  const DEFAULT_PRECISION: nat := 32

  /** An order; side 0 buys the base asset, side 1 sells it, the price is fixed-point. */
  datatype Order = Order(quoteMint: Elem, baseMint: Elem, side: Elem, price: Elem, amount: Elem)

  datatype MatchResult = MatchResult(
    quoteMint: Elem, baseMint: Elem, quoteAmount: Elem, baseAmount: Elem, direction: Elem,
    executionPrice: Elem, maxMinusMinAmount: Elem, minAmountOrderIndex: Elem)

  /** The randomness consumed by one match. */
  datatype MatchTape = MatchTape(
    baseEq: EqTape, quoteEq: EqTape, priceCmp: CmpTape, priceEq: EqTape, sideEq: EqTape,
    checks: InversePairs, amountCmp: CmpTape, quoteShift: Blind)

  predicate MatchTapeFits(t: MatchTape) {
    && EqTapeFits(64, t.baseEq) && EqTapeFits(64, t.quoteEq) && EqTapeFits(64, t.sideEq)
    && CmpTapeFits(t.priceCmp) && EqTapeFits(1, t.priceEq) && CmpTapeFits(t.amountCmp)
    && |t.checks.b| == |t.checks.inv| == 5
    && |t.quoteShift.low| == DEFAULT_PRECISION
  }

  function PriceOverlap(o1: Order, o2: Order, t: MatchTape): Elem
    requires MatchTapeFits(t)
  {
    Eq(1, o1.side, LessThanEqual(o1.price, o2.price, t.priceCmp), t.priceEq)
  }

  /** (price1 + price2) * 0.5 on fixed-point representations. */
  function ExecutionPrice(p1: Elem, p2: Elem): Elem {
    Mul(Inv(F(Pow2(32))), Mul(Add(p1, p2), F(Pow2(31))))
  }

  function ComputeMatch(o1: Order, o2: Order, t: MatchTape): MatchResult
    requires MatchTapeFits(t)
  {
    var checks := [
      Eq(64, o1.baseMint, o2.baseMint, t.baseEq),
      Eq(64, o1.quoteMint, o2.quoteMint, t.quoteEq),
      PriceOverlap(o1, o2, t),
      Ne(64, o1.side, o2.side, t.sideEq)];
    var aggregate := Product(checks, t.checks);
    var (minIndex, minBase) := Min(o1.amount, o2.amount, t.amountCmp);
    var maxMinusMin := Sub(Add(o1.amount, o2.amount), Mul(2, minBase));
    var price := ExecutionPrice(o1.price, o2.price);
    var quote := ShiftRight(DEFAULT_PRECISION, Mul(minBase, price), t.quoteShift);
    var r := CondSelectAll(aggregate,
      [o1.quoteMint, o1.baseMint, quote, minBase, o1.side, price, maxMinusMin, minIndex],
      [0, 0, 0, 0, 0, 0, 0, 0]);
    MatchResult(r[0], r[1], r[2], r[3], r[4], r[5], r[6], r[7])
  }

  // ---- the plain matcher ---------------------------------------------------------------

  /** An order over the integers. */
  datatype PlainOrder = PlainOrder(quoteMint: nat, baseMint: nat, side: nat, price: nat, amount: nat)

  function Shared(o: PlainOrder): Order {
    Order(F(o.quoteMint), F(o.baseMint), F(o.side), F(o.price), F(o.amount))
  }

  /** Amounts are 64-bit, prices are 64-bit integers with 32 fraction bits, mints are arbitrary. */
  predicate InRange(o: PlainOrder) {
    o.side <= 1 && o.amount < Pow2(64) && o.price < Pow2(96)
  }

  predicate SameMint(m1: nat, m2: nat) {
    (m1 as int - m2 as int) % Pow2(64) == 0
  }

  /** Mints agree in their 64 low bits, the sides differ, and the prices cross as coded. */
  predicate Crosses(o1: PlainOrder, o2: PlainOrder) {
    && SameMint(o1.baseMint, o2.baseMint) && SameMint(o1.quoteMint, o2.quoteMint)
    && o1.side != o2.side
    && (o1.side == 1 <==> o1.price <= o2.price)
  }

  /** The least non-negative integer h with 2 h == n modulo P. */
  function HalfMod(n: nat): nat {
    if n % 2 == 0 then n / 2 else (n + P) / 2
  }

  function MinAmount(o1: PlainOrder, o2: PlainOrder): nat {
    if o1.amount < o2.amount then o1.amount else o2.amount
  }

  function MaxAmount(o1: PlainOrder, o2: PlainOrder): nat {
    if o1.amount < o2.amount then o2.amount else o1.amount
  }

  /** Twice the quote volume, in fixed point. */
  function DoubleQuote(o1: PlainOrder, o2: PlainOrder): nat {
    MinAmount(o1, o2) * (o1.price + o2.price)
  }

  /** The integer matcher. */
  function PlainMatch(o1: PlainOrder, o2: PlainOrder): MatchResult {
    if Crosses(o1, o2) then
      MatchResult(F(o1.quoteMint), F(o1.baseMint),
        F(HalfMod(DoubleQuote(o1, o2)) / Pow2(32)), F(MinAmount(o1, o2)), F(o1.side),
        F(HalfMod(o1.price + o2.price)), F(MaxAmount(o1, o2) - MinAmount(o1, o2)),
        if o1.amount < o2.amount then 0 else 1)
    else MatchResult(0, 0, 0, 0, 0, 0, 0, 0)
  }

  /** No opening of this match loses low bits and no product keeps a residue. */
  ghost predicate MatchTapeExact(o1: PlainOrder, o2: PlainOrder, t: MatchTape) {
    && MatchTapeFits(t)
    && EqTapeExact(64, o1.baseMint - o2.baseMint, t.baseEq)
    && EqTapeExact(64, o1.quoteMint - o2.quoteMint, t.quoteEq)
    && EqTapeExact(64, o1.side - o2.side, t.sideEq)
    && CmpTapeExact(o2.price - o1.price, t.priceCmp)
    && EqTapeExact(1, o1.side - (if o1.price <= o2.price then 1 else 0), t.priceEq)
    && ValidPairs(t.checks, 4) && t.checks.b[3] == t.checks.b[4]
    && CmpTapeExact(o1.amount - o2.amount, t.amountCmp)
    && AllBits(t.quoteShift.low)
    && KeepsLowBits(ModOpening(32, HalfMod(DoubleQuote(o1, o2)), t.quoteShift), 32)
  }

  // ---- proofs --------------------------------------------------------------------------

  lemma MintsDecide(m1: nat, m2: nat, t: EqTape)
    requires EqTapeExact(64, m1 - m2, t)
    ensures Eq(64, F(m1), F(m2), t) == Bit(SameMint(m1, m2))
  {
    hide F, Eq, EqTapeExact, Pow2;
    EqDecides(64, m1, m2, t);
  }

  lemma SidesDecide(s1: nat, s2: nat, t: EqTape)
    requires s1 <= 1 && s2 <= 1 && EqTapeExact(64, s1 - s2, t)
    ensures Ne(64, F(s1), F(s2), t) == Bit(s1 != s2)
  {
    hide F, Ne, EqTapeExact, Pow2;
    EqDecides(64, s1, s2, t);
    Pow2Literals();
    BitDistance(s1 - s2, Pow2(64));
  }

  lemma BitDistance(d: int, m: nat)
    requires -1 <= d <= 1 < m
    ensures d % m == 0 <==> d == 0
  {
    if d >= 0 {
      DivModUnique(d, 0, d, m);
    } else {
      DivModUnique(d, -1, m + d, m);
    }
  }

  /** Distances between in-range values stay far from the sign test's limits. */
  lemma SmallDistance(a: nat, b: nat, bits: nat)
    requires a < Pow2(bits) && b < Pow2(bits) && bits <= 250
    ensures -1 * Pow2(250) < a - b < Pow2(250)
  {
    hide Pow2;
    Pow2Monotone(bits, 250);
  }

  lemma PricesDecide(p1: nat, p2: nat, t: CmpTape)
    requires p1 < Pow2(96) && p2 < Pow2(96) && CmpTapeExact(p2 - p1, t)
    ensures LessThanEqual(F(p1), F(p2), t) == F(if p1 <= p2 then 1 else 0)
  {
    hide F, LessThanEqual, CmpTapeExact, Pow2;
    SmallDistance(p1, p2, 96);
    OrderDecides(p1, p2, t);
    FSelf(0);
    FSelf(1);
  }

  lemma ParityDecides(s: nat, le: nat, t: EqTape)
    requires s <= 1 && le <= 1 && EqTapeExact(1, s - le, t)
    ensures Eq(1, F(s), F(le), t) == Bit(s == le)
  {
    hide F, Eq, EqTapeExact, Pow2;
    EqDecides(1, s, le, t);
    Pow2Literals();
    BitDistance(s - le, Pow2(1));
  }

  lemma OverlapDecides(o1: PlainOrder, o2: PlainOrder, t: MatchTape)
    requires InRange(o1) && InRange(o2) && MatchTapeExact(o1, o2, t)
    ensures PriceOverlap(Shared(o1), Shared(o2), t) == Bit(o1.side == 1 <==> o1.price <= o2.price)
  {
    hide F, Eq, LessThanEqual, CmpTapeExact, EqTapeExact, KeepsLowBits, ValidPairs, Pow2;
    PricesDecide(o1.price, o2.price, t.priceCmp);
    ParityDecides(o1.side, if o1.price <= o2.price then 1 else 0, t.priceEq);
  }

  lemma AmountsDecide(a: nat, b: nat, t: CmpTape)
    requires a < Pow2(64) && b < Pow2(64) && CmpTapeExact(a - b, t)
    ensures Min(F(a), F(b), t) == if a < b then (0, F(a)) else (1, F(b))
  {
    hide F, Min, CmpTapeExact, Pow2;
    SmallDistance(a, b, 64);
    MinDecides(a, b, t);
  }

  lemma ProductOfFour(a: bool, b: bool, c: bool, d: bool, pairs: InversePairs)
    requires ValidPairs(pairs, 4) && pairs.b[3] == pairs.b[4]
    ensures Product([Bit(a), Bit(b), Bit(c), Bit(d)], pairs) == Bit(a && b && c && d)
  {
    hide Mul, Bit;
    var s := [Bit(a), Bit(b), Bit(c), Bit(d)];
    PrefixProductIff(s, pairs, 3);
    assert s[..4] == s && s[..3] == [Bit(a), Bit(b), Bit(c)] && s[..3][..2] == [Bit(a), Bit(b)];
    assert [Bit(a), Bit(b)][..1] == [Bit(a)] && [Bit(a)][..0] == [];
    assert ProductOf([]) == 1;
    assert ProductOf([Bit(a)]) == Mul(1, Bit(a));
    BitAnd(true, a);
    BitAnd(a, b);
    BitAnd(a && b, c);
    BitAnd(a && b && c, d);
    assert ProductOf([Bit(a), Bit(b)]) == Mul(ProductOf([Bit(a)]), Bit(b));
    assert ProductOf([Bit(a), Bit(b), Bit(c)]) == Mul(ProductOf([Bit(a), Bit(b)]), Bit(c));
  }

  lemma BitAnd(a: bool, b: bool)
    ensures Mul(Bit(a), Bit(b)) == Bit(a && b) && Bit(true) == 1
  {
    hide Mul;
    MulOne(Bit(b));
  }

  lemma HalfModDoubles(n: nat)
    ensures F(2 * HalfMod(n)) == F(n)
  {
    hide F;
    ModulusIsOdd();
    if n % 2 == 1 {
      assert 2 * HalfMod(n) == n + P;
      FCongruent(2 * HalfMod(n), n, 1);
    }
  }

  /** Halving in the field: multiplying by 2^31 and then by the inverse of 2^32. */
  lemma ExecutionPriceIsHalf(p1: nat, p2: nat)
    ensures ExecutionPrice(F(p1), F(p2)) == F(HalfMod(p1 + p2))
  {
    hide F, Mul, Add, Inv, HalfMod, Pow2;
    var h := HalfMod(p1 + p2);
    FAdd(p1, p2);
    HalfModDoubles(p1 + p2);
    FMul(2 * h, Pow2(31));
    Pow2Literals();
    FMul(Pow2(32), h);
    Scalar2ToMIsPower(32);
    MulAssociative(Inv(F(Pow2(32))), F(Pow2(32)), F(h));
    MulCommutative(Inv(F(Pow2(32))), F(Pow2(32)));
    MulOne(F(h));
  }

  lemma HalfOfMultiple(m: nat, n: nat)
    ensures F(m * HalfMod(n)) == F(HalfMod(m * n))
  {
    hide F, Mul, HalfMod;
    var a, b := m * HalfMod(n), HalfMod(m * n);
    HalfModDoubles(n);
    HalfModDoubles(m * n);
    FMul(m, 2 * HalfMod(n));
    FMul(m, n);
    assert m * (2 * HalfMod(n)) == 2 * a;
    FMul(2, a);
    FMul(2, b);
    FSelf(2);
    MulCancels(2, F(a), F(b));
  }

  lemma QuoteIsFloor(o1: PlainOrder, o2: PlainOrder, t: Blind)
    requires |t.low| == 32 && AllBits(t.low)
    requires KeepsLowBits(ModOpening(32, HalfMod(DoubleQuote(o1, o2)), t), 32)
    ensures ShiftRight(32, Mul(F(MinAmount(o1, o2)), F(HalfMod(o1.price + o2.price))), t)
         == F(HalfMod(DoubleQuote(o1, o2)) / Pow2(32))
  {
    hide F, Mul, HalfMod, Truncate, KeepsLowBits;
    var m, s := MinAmount(o1, o2), o1.price + o2.price;
    FMul(m, HalfMod(s));
    HalfOfMultiple(m, s);
    TruncateExact(32, HalfMod(m * s), t);
  }

  lemma MaxMinusMin(a: nat, b: nat)
    ensures Sub(Add(F(a), F(b)), Mul(2, F(if a < b then a else b))) == F(if a < b then b - a else a - b)
  {
    hide F, Add, Sub, Mul;
    var m := if a < b then a else b;
    FAdd(a, b);
    FSelf(2);
    FMul(2, m);
    FSub(a + b, 2 * m);
  }

  /**
   The engine computes the plain matcher: for all orders in range and all randomness that keeps
   low bits, every field of the result.
   */
  lemma ComputeMatchIsPlainMatch(o1: PlainOrder, o2: PlainOrder, t: MatchTape)
    requires InRange(o1) && InRange(o2) && MatchTapeExact(o1, o2, t)
    ensures ComputeMatch(Shared(o1), Shared(o2), t) == PlainMatch(o1, o2)
  {
    hide F, Add, Sub, Mul, Inv, Eq, Ne, PriceOverlap, Product, Min, ShiftRight, Selected, HalfMod, EqTapeExact,
      CmpTapeExact, KeepsLowBits, ExecutionPrice, SameMint, Bit, Pow2, ValidPairs, DoubleQuote, AllBits;
    MintsDecide(o1.baseMint, o2.baseMint, t.baseEq);
    MintsDecide(o1.quoteMint, o2.quoteMint, t.quoteEq);
    OverlapDecides(o1, o2, t);
    SidesDecide(o1.side, o2.side, t.sideEq);
    ProductOfFour(SameMint(o1.baseMint, o2.baseMint), SameMint(o1.quoteMint, o2.quoteMint),
      o1.side == 1 <==> o1.price <= o2.price, o1.side != o2.side, t.checks);
    AmountsDecide(o1.amount, o2.amount, t.amountCmp);
    MaxMinusMin(o1.amount, o2.amount);
    ExecutionPriceIsHalf(o1.price, o2.price);
    QuoteIsFloor(o1, o2, t.quoteShift);
    SelectBit(Crosses(o1, o2));
  }

  lemma SelectBit(b: bool)
    ensures forall x: Elem :: Selected(x, 0, Bit(b)) == if b then x else 0
  {
    forall x: Elem ensures Selected(x, 0, Bit(b)) == if b then x else 0 {
      SelectedByBit(x, 0, Bit(b));
    }
  }
}
