/**
 Preprocessing randomness under which every gadget of a match is exact exists for all orders: the hypothesis
 of the matching theorem is never empty.
 */
module ExactTapes {
  import opened Numbers
  import opened ResidueField
  import opened ScalarField
  import opened MpcBits
  import opened MpcModulo
  import opened MpcArithmetic
  import opened MpcComparators
  import opened MatchEngine

  /** Adding a multiple of 2^m P to a value below the modulus keeps its m low bits. */
  lemma ShiftKeepsLowBits(r: int, k: int, m: nat)
    requires 0 <= r < P
    ensures KeepsLowBits(r + Pow2(m) * k * P, m)
  {
    hide Pow2;
    var n := Pow2(m) * k;
    DivModUnique(r + n * P, n, r, P);
    MulCommutes(Pow2(m), k);
    ModShift(0, k, Pow2(m));
    DivModUnique(0, 0, 0, Pow2(m));
  }

  /** An upper part equal to q modulo P moves the opening by q 2^m and a multiple of 2^m P. */
  lemma HighPart(m: int, q: int)
    ensures m * F(q) as int == m * q - m * Wraps(q) * P
  {
    hide F, Wraps;
    FIsShift(q);
    Expand(m, q, Wraps(q), P);
  }

  lemma Expand(m: int, q: int, w: int, p: int)
    ensures m * (q - w * p) == m * q - m * w * p
  {
    MulDistributesOver(m, q, -(w * p));
  }

  lemma ExactModBlind(m: nat, x: int) returns (blind: Blind)
    requires m < SCALAR_MAX_BITS
    ensures |blind.low| == m && AllBits(blind.low) && KeepsLowBits(ModOpening(m, x, blind), m)
  {
    hide F, Wraps, Pow2, KeepsLowBits, AllBits, BitsOf;
    var q := x / Pow2(m);
    blind := Blind(BitsOf(0, m), F(-q));
    ZeroBits(m);
    HighPart(Pow2(m), -q);
    PowerBelowModulus(m);
    ShiftKeepsLowBits(x % Pow2(m), -Wraps(-q), m);
    Regroup(x, Pow2(m), q, x % Pow2(m), Wraps(-q), P);
  }

  lemma Regroup(x: int, m: int, q: int, r: int, w: int, p: int)
    requires x == m * q + r
    ensures x + (m * -q - m * w * p) == r + m * -w * p
    ensures x - (m * q - m * w * p) == r + m * w * p
  {
    assert m * -q == -(m * q);
    assert m * -w == -(m * w);
    MulNegates(m * w, p);
  }

  lemma ExactBitsBlind(d: nat, x: int) returns (blind: Blind)
    requires d < SCALAR_MAX_BITS
    ensures |blind.low| == d && AllBits(blind.low) && KeepsLowBits(BitsOpening(d, x, blind), d)
  {
    hide F, Wraps, Pow2, KeepsLowBits, AllBits, BitsOf;
    var y := x + if d + 1 < SCALAR_MAX_BITS then Pow2(d + 1) else 0;
    var q := y / Pow2(d);
    blind := Blind(BitsOf(0, d), F(q));
    ZeroBits(d);
    HighPart(Pow2(d), q);
    PowerBelowModulus(d);
    ShiftKeepsLowBits(y % Pow2(d), Wraps(q), d);
    Regroup(y, Pow2(d), q, y % Pow2(d), Wraps(q), P);
  }

  function Units(n: nat): (pairs: InversePairs)
    ensures |pairs.b| == |pairs.inv| == n
    ensures forall i :: 0 <= i < n ==> pairs.b[i] == pairs.inv[i] == 1
  {
    InversePairs(seq(n, i => 1), seq(n, i => 1))
  }

  lemma UnitsValid(n: nat)
    ensures ValidPairs(Units(n + 1), n)
  {
    hide Mul, Units;
    MulOne(1);
  }

  lemma CountBitsSmall(d: nat)
    requires 0 < d < SCALAR_MAX_BITS
    ensures 0 < CountBits(d) < SCALAR_MAX_BITS
  {
    hide CountBits, Pow2;
    Pow2Literals();
    if CountBits(d) > 252 {
      Pow2Monotone(252, CountBits(d) - 1);
    }
  }

  lemma ExactEqTape(d: nat, x: int) returns (t: EqTape)
    requires 0 < d < SCALAR_MAX_BITS
    ensures EqTapeExact(d, x, t)
  {
    hide KeepsLowBits, AllBits, BitsOf, Ones, CountBits, ValidPairs, Units, Pow2;
    var m := CountBits(d);
    CountBitsSmall(d);
    UnitsValid(m);
    var bits := ExactBitsBlind(d, x);
    var or := ExactModBlind(m, Ones(BitsOf(x % Pow2(d), d)));
    t := EqTape(bits, or, Units(m + 1));
  }

  lemma ExactCmpTape(x: int) returns (t: CmpTape)
    ensures CmpTapeExact(x, t)
  {
    hide KeepsLowBits, AllBits, EqTapeExact, Pow2;
    var trunc := ExactModBlind(250, x);
    var eq := ExactEqTape(2, x / Pow2(250));
    t := CmpTape(trunc, eq);
    EqFits(2, x / Pow2(250), eq);
  }

  /** For all orders there is randomness under which every gadget of the match is exact. */
  lemma ExactMatchTape(o1: PlainOrder, o2: PlainOrder) returns (t: MatchTape)
    ensures MatchTapeExact(o1, o2, t)
  {
    hide KeepsLowBits, AllBits, EqTapeExact, CmpTapeExact, ValidPairs, Units, HalfMod, DoubleQuote, Pow2;
    var baseEq := ExactEqTape(64, o1.baseMint - o2.baseMint);
    var quoteEq := ExactEqTape(64, o1.quoteMint - o2.quoteMint);
    var sideEq := ExactEqTape(64, o1.side - o2.side);
    var priceCmp := ExactCmpTape(o2.price - o1.price);
    var priceEq := ExactEqTape(1, o1.side - if o1.price <= o2.price then 1 else 0);
    var amountCmp := ExactCmpTape(o1.amount - o2.amount);
    var shift := ExactModBlind(32, HalfMod(DoubleQuote(o1, o2)));
    UnitsValid(4);
    t := MatchTape(baseEq, quoteEq, priceCmp, priceEq, sideEq, Units(5), amountCmp, shift);
    EqFits(64, o1.baseMint - o2.baseMint, baseEq);
    EqFits(64, o1.quoteMint - o2.quoteMint, quoteEq);
    EqFits(64, o1.side - o2.side, sideEq);
    EqFits(1, o1.side - if o1.price <= o2.price then 1 else 0, priceEq);
    CmpFits(o2.price - o1.price, priceCmp);
    CmpFits(o1.amount - o2.amount, amountCmp);
  }

  lemma EqFits(d: nat, x: int, t: EqTape)
    requires EqTapeExact(d, x, t)
    ensures EqTapeFits(d, t)
  {
    hide KeepsLowBits, AllBits, CountBits, Ones, BitsOf, Pow2;
  }

  lemma CmpFits(x: int, t: CmpTape)
    requires CmpTapeExact(x, t)
    ensures CmpTapeFits(t)
  {
    hide KeepsLowBits, AllBits, EqTapeExact, Pow2;
  }
}
