/** What the matching engine returns, in integers, and how it agrees with the crossing check of its proof. */
module MatchOutcome {
  import opened Numbers
  import opened ResidueField
  import opened ScalarField
  import opened MpcBits
  import opened MatchEngine
  import opened MatchCheck
  import WalletUpdate

  /** Orders on different pairs, on one side, or whose prices do not cross give nothing. */
  lemma NoMatchIsZero(o1: PlainOrder, o2: PlainOrder, t: MatchTape)
    requires InRange(o1) && InRange(o2) && MatchTapeExact(o1, o2, t)
    requires
      || (o1.baseMint - o2.baseMint) % 0x1_0000_0000_0000_0000 != 0
      || (o1.quoteMint - o2.quoteMint) % 0x1_0000_0000_0000_0000 != 0
      || o1.side == o2.side
      || (o1.side == 1) != (o1.price <= o2.price)
    ensures ComputeMatch(Shared(o1), Shared(o2), t) == MatchResult(0, 0, 0, 0, 0, 0, 0, 0)
  {
    hide ComputeMatch, MatchTapeExact, Pow2;
    ComputeMatchIsPlainMatch(o1, o2, t);
    Pow2Literals();
  }

  /** All other orders trade the smaller amount, at half the price sum in the field. */
  lemma MatchIsMinimum(o1: PlainOrder, o2: PlainOrder, t: MatchTape)
    requires InRange(o1) && InRange(o2) && MatchTapeExact(o1, o2, t)
    requires (o1.baseMint - o2.baseMint) % 0x1_0000_0000_0000_0000 == 0
    requires (o1.quoteMint - o2.quoteMint) % 0x1_0000_0000_0000_0000 == 0
    requires o1.side != o2.side && (o1.side == 1 <==> o1.price <= o2.price)
    ensures var r := ComputeMatch(Shared(o1), Shared(o2), t);
      var base, sum := if o1.amount < o2.amount then o1.amount else o2.amount, o1.price + o2.price;
      && r.quoteMint as int == o1.quoteMint % P && r.baseMint as int == o1.baseMint % P
      && r.direction as int == o1.side && r.baseAmount as int == base
      && r.minAmountOrderIndex == (if o1.amount < o2.amount then 0 else 1)
      && r.maxMinusMinAmount as int == (if o1.amount < o2.amount then o2.amount - o1.amount else o1.amount - o2.amount)
      && F(2 * r.executionPrice as int) == F(sum)
      && (sum % 2 == 0 ==> 2 * r.executionPrice as int == sum)
      && (base * sum % 2 == 0 ==> r.quoteAmount as int == base * sum / 0x2_0000_0000)
  {
    hide ComputeMatch, MatchTapeExact, Pow2, HalfMod, DoubleQuote, F;
    ComputeMatchIsPlainMatch(o1, o2, t);
    Pow2Literals();
    assert Crosses(o1, o2);
    PlainAmounts(o1, o2);
    HalfModDoubles(o1.price + o2.price);
    EvenHalf(o1.price + o2.price);
    QuoteFloorIff(o1, o2);
    assert DoubleQuote(o1, o2) == MinAmount(o1, o2) * (o1.price + o2.price) by { DoubleQuoteIs(o1, o2); }
    FIsMod(o1.quoteMint);
    FIsMod(o1.baseMint);
  }

  lemma EvenHalf(n: nat)
    ensures n % 2 == 0 ==> 2 * HalfMod(n) == n
  {
  }

  lemma DoubleQuoteIs(o1: PlainOrder, o2: PlainOrder)
    ensures DoubleQuote(o1, o2) == MinAmount(o1, o2) * (o1.price + o2.price)
  {
  }

  lemma FIsMod(x: nat)
    ensures F(x) as int == x % P
  {
  }

  /** If any result at all passes the crossing check for two orders, the engine matches them, unless the prices agree. */
  lemma CheckedIsMatched(o1: PlainOrder, o2: PlainOrder, t: MatchTape,
      b1: WalletUpdate.Balance, b2: WalletUpdate.Balance, m: MatchResult)
    requires Representable(o1) && Representable(o2) && MatchTapeExact(o1, o2, t) && o1.price != o2.price
    requires Checked(Shared(o1), Shared(o2), b1, b2, m)
    ensures ComputeMatch(Shared(o1), Shared(o2), t) != MatchResult(0, 0, 0, 0, 0, 0, 0, 0)
  {
    hide ComputeMatch, MatchTapeExact, Checked, F, Pow2;
    SharedIsSelf(o1);
    SharedIsSelf(o2);
    CheckedCrosses(Shared(o1), Shared(o2), b1, b2, m);
    CrossedIsMatched(o1, o2, t);
  }

  lemma CrossedIsMatched(o1: PlainOrder, o2: PlainOrder, t: MatchTape)
    requires InRange(o1) && InRange(o2) && MatchTapeExact(o1, o2, t) && o1.price != o2.price
    requires o1.baseMint == o2.baseMint && o1.quoteMint == o2.quoteMint && o1.side != o2.side
    requires o1.side == 1 <==> o1.price <= o2.price
    ensures ComputeMatch(Shared(o1), Shared(o2), t) != MatchResult(0, 0, 0, 0, 0, 0, 0, 0)
  {
    hide ComputeMatch, MatchTapeExact, F, Pow2, Shared;
    SameModulo(o1.baseMint);
    SameModulo(o1.quoteMint);
    MatchIsMinimum(o1, o2, t);
    SmallPrices(o1.price, o2.price);
    FSelf(0);
    FSelf(o1.price + o2.price);
  }

  lemma SameModulo(x: nat)
    ensures (x - x) % 0x1_0000_0000_0000_0000 == 0
  {
  }

  lemma SmallPrices(p1: nat, p2: nat)
    requires p1 < Pow2(96) && p2 < Pow2(96)
    ensures p1 + p2 < P
  {
    hide Pow2;
    Pow2Monotone(96, 250);
    Pow2Literals();
    ModulusSize();
  }

  /** What the check says of pair, sides and prices, whatever the balances. */
  lemma CheckedCrosses(o1: Order, o2: Order, b1: WalletUpdate.Balance, b2: WalletUpdate.Balance, m: MatchResult)
    requires Checked(o1, o2, b1, b2, m) && TermsInRange(o1) && TermsInRange(o2)
    ensures o1.baseMint == o2.baseMint == m.baseMint && o1.quoteMint == o2.quoteMint == m.quoteMint
    ensures o1.side != o2.side && (o1.side == 1 ==> o1.price <= o2.price) && (o1.side == 0 ==> o2.price <= o1.price)
  {
    hide Sub, Mul, Selected, AmountsChecked, QuoteChecked, CoverageChecked, HalfMod, Pow2;
    SidesOppose(o1.side, o2.side);
    PricesIff(o1.price, o2.price, m.direction, m.executionPrice);
  }

  /** A match of orders whose mints have 64 bits is on one pair, between opposite sides, at crossing prices. */
  lemma MatchedIsCrossed(o1: PlainOrder, o2: PlainOrder, t: MatchTape)
    requires InRange(o1) && InRange(o2) && MatchTapeExact(o1, o2, t)
    requires o1.baseMint < 0x1_0000_0000_0000_0000 && o2.baseMint < 0x1_0000_0000_0000_0000
    requires o1.quoteMint < 0x1_0000_0000_0000_0000 && o2.quoteMint < 0x1_0000_0000_0000_0000
    requires ComputeMatch(Shared(o1), Shared(o2), t) != MatchResult(0, 0, 0, 0, 0, 0, 0, 0)
    ensures o1.baseMint == o2.baseMint && o1.quoteMint == o2.quoteMint && o1.side != o2.side
    ensures if o1.side == 1 then o1.price <= o2.price else o2.price < o1.price
  {
    hide ComputeMatch, MatchTapeExact, Pow2;
    if o1.baseMint != o2.baseMint { Apart(o1.baseMint, o2.baseMint); }
    if o1.quoteMint != o2.quoteMint { Apart(o1.quoteMint, o2.quoteMint); }
    if
      || (o1.baseMint - o2.baseMint) % 0x1_0000_0000_0000_0000 != 0
      || (o1.quoteMint - o2.quoteMint) % 0x1_0000_0000_0000_0000 != 0
      || o1.side == o2.side
      || (o1.side == 1) != (o1.price <= o2.price)
    {
      NoMatchIsZero(o1, o2, t);
    }
  }

  lemma Apart(x: nat, y: nat)
    requires x < 0x1_0000_0000_0000_0000 && y < 0x1_0000_0000_0000_0000 && x != y
    ensures (x - y) % 0x1_0000_0000_0000_0000 != 0
  {
    if x < y {
      DivModUnique(x - y, -1, x - y + 0x1_0000_0000_0000_0000, 0x1_0000_0000_0000_0000);
    } else {
      DivModUnique(x - y, 0, x - y, 0x1_0000_0000_0000_0000);
    }
  }

  /** For orders in range, a checked execution price lies between the limits if the price sum is even. */
  lemma CheckedPriceWithinLimits(o1: Order, o2: Order, b1: WalletUpdate.Balance, b2: WalletUpdate.Balance, m: MatchResult)
    requires Checked(o1, o2, b1, b2, m) && TermsInRange(o1) && TermsInRange(o2)
    ensures (o1.price + o2.price) % 2 == 0 <==>
      (if o1.side == 1 then o1.price <= m.executionPrice <= o2.price else o2.price <= m.executionPrice <= o1.price)
    ensures (o1.price + o2.price) % 2 == 0 ==> 2 * m.executionPrice as int == o1.price + o2.price
  {
    hide Sub, Mul, Selected, AmountsChecked, QuoteChecked, CoverageChecked, HalfMod, Pow2;
    CheckedCrosses(o1, o2, b1, b2, m);
    PricesIff(o1.price, o2.price, m.direction, m.executionPrice);
    if o1.side == 1 {
      MidpointWithinLimits(o1.price, o2.price);
    } else {
      MidpointWithinLimits(o2.price, o1.price);
    }
  }

  /** The whole check, spelled out for values in range. */
  lemma CheckedInIntegers(o1: Order, o2: Order, b1: WalletUpdate.Balance, b2: WalletUpdate.Balance, m: MatchResult)
    requires o1.side <= 1 && o2.side <= 1
    requires o1.price < 0x1_0000_0000_0000_0000_0000_0000 && o2.price < 0x1_0000_0000_0000_0000_0000_0000
    requires o1.amount < 0x1_0000_0000_0000_0000 && o2.amount < 0x1_0000_0000_0000_0000
    requires b1.amount < 0x1_0000_0000_0000_0000 && b2.amount < 0x1_0000_0000_0000_0000
    ensures Checked(o1, o2, b1, b2, m) <==>
      var sum := o1.price + o2.price;
      var (sell, buy) := if o1.side == 1 then (o1.price, o2.price) else (o2.price, o1.price);
      && o1.baseMint == o2.baseMint == m.baseMint && o1.quoteMint == o2.quoteMint == m.quoteMint
      && o1.side != o2.side && m.direction == o1.side
      && sell as int <= buy as int < sell as int + 0x1_0000_0000_0000_0000
      && (2 * m.executionPrice as int == sum || 2 * m.executionPrice as int == sum + P)
      && (|| (m.minAmountOrderIndex == 0 && m.baseAmount == o1.amount && o2.amount as int == o1.amount + m.maxMinusMinAmount)
          || (m.minAmountOrderIndex == 1 && m.baseAmount == o2.amount && o1.amount as int == o2.amount + m.maxMinusMinAmount))
      && m.maxMinusMinAmount < 0x1_0000_0000
      && m.quoteAmount as int * 0x2_0000_0000 == m.baseAmount as int * sum
      && (if o1.side == 1
          then b1.mint == m.baseMint && m.baseAmount <= b1.amount && b2.mint == m.quoteMint && m.quoteAmount <= b2.amount
          else b1.mint == m.quoteMint && m.quoteAmount <= b1.amount && b2.mint == m.baseMint && m.baseAmount <= b2.amount)
  {
    hide Checked, HalfMod, Pow2;
    Pow2Literals();
    Pow2Add(64, 32);
    CheckedInRange(o1, o2, b1, b2, m);
    SmallPrices(o1.price, o2.price);
    HalfModIff(o1.price + o2.price, m.executionPrice);
  }

  lemma HalfModIff(n: nat, p: Elem)
    requires n < P
    ensures p as int == HalfMod(n) <==> 2 * p as int == n || 2 * p as int == n + P
  {
    ModulusIsOdd();
  }
}
