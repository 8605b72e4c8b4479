/**
 The note constraints of VALID MATCH ENCRYPTION (circuits/src/zk_circuits/valid_match_encryption.rs): five
 notes that settle a match between two parties, their relayers and the protocol.
 */
module MatchNotes {
  import opened Numbers
  import opened ResidueField
  import opened ScalarField
  import opened MpcBits
  import opened ConstraintSystems
  import opened ZkGadgets
  import opened WalletUpdate
  import opened Settle

  /** The part of a match result that the notes depend on. */
  datatype Match = Match(quoteMint: Elem, baseMint: Elem, quoteAmount: Elem, baseAmount: Elem, direction: Elem)

  datatype MatchVar = MatchVar(quoteMint: nat, baseMint: nat, quoteAmount: nat, baseAmount: nat, direction: nat)

  /** A relayer's fee: a flat gas amount and a fixed-point percentage. */
  datatype Fee = Fee(gasAddr: Elem, gasAmount: Elem, percentage: Elem)

  datatype FeeVar = FeeVar(gasAddr: nat, gasAmount: nat, percentage: nat)

  function MatchAt(m: MatchVar, w: Assignment): Match {
    Match(At(w, m.quoteMint), At(w, m.baseMint), At(w, m.quoteAmount), At(w, m.baseAmount), At(w, m.direction))
  }

  function FeeAt(f: FeeVar, w: Assignment): Fee {
    Fee(At(w, f.gasAddr), At(w, f.gasAmount), At(w, f.percentage))
  }

  ghost predicate MatchKnown(m: MatchVar, n: nat) {
    m.quoteMint < n && m.baseMint < n && m.quoteAmount < n && m.baseAmount < n && m.direction < n
  }

  ghost predicate FeeKnown(f: FeeVar, n: nat) {
    f.gasAddr < n && f.gasAmount < n && f.percentage < n
  }

  // ---- what the constraints mean -------------------------------------------------------

  /** The fixed-point one. */
  const UNIT: Elem := 0x1_0000_0000

  /** floor(fraction * amount), the fraction in fixed point. */
  function Share(fraction: Elem, amount: Elem): Elem {
    FloorDiv(Mul(fraction, amount), UNIT)
  }

  /** What is left after the relayer's and the protocol's percentage. */
  function NetFraction(fee: Elem, protocolFee: Elem): Elem {
    Sub(Sub(UNIT, fee), protocolFee)
  }

  /** The volumes when `buyer` takes the base and `seller` takes the quote. */
  ghost predicate VolumesMatch(m: Match, protocolFee: Elem,
      buyer: Note, buyerFee: Elem, buyerRelayer: Note, seller: Note, sellerFee: Elem, sellerRelayer: Note)
  {
    && buyer.volume1 == Share(NetFraction(buyerFee, protocolFee), m.baseAmount)
    && buyer.volume2 == m.quoteAmount
    && seller.volume1 == m.baseAmount
    && seller.volume2 == Share(NetFraction(sellerFee, protocolFee), m.quoteAmount)
    && buyerRelayer.volume1 == Share(buyerFee, m.baseAmount)
    && buyerRelayer.volume2 == 0
    && sellerRelayer.volume1 == 0
    && sellerRelayer.volume2 == Share(sellerFee, m.quoteAmount)
  }

  /** The quotient and remainder that a prover chooses for a share. */
  datatype Claim = Claim(q: Elem, r: Elem)

  /** What the division constraints say of a claim; `tested` when the bits of its remainder test are the prover's. */
  ghost predicate ClaimOk(c: Claim, fraction: Elem, amount: Elem, tested: bool) {
    && Mul(fraction, amount) == Add(Mul(UNIT, c.q), c.r)
    && (tested ==> DivisionPasses(Mul(fraction, amount), UNIT, c.q, c.r, 32))
  }

  /** The remainder is below one and the division does not wrap. */
  ghost predicate Exact(c: Claim) {
    NoWrap(UNIT, c.q, c.r)
  }

  /** The four percentage shares of one direction. */
  datatype SideClaims = SideClaims(buyerBase: Claim, sellerQuote: Claim, relayerBase: Claim, relayerQuote: Claim)

  ghost predicate SidesOk(c: SideClaims, m: Match, protocolFee: Elem, buyerFee: Elem, sellerFee: Elem, tested: bool) {
    && ClaimOk(c.buyerBase, NetFraction(buyerFee, protocolFee), m.baseAmount, tested)
    && ClaimOk(c.sellerQuote, NetFraction(sellerFee, protocolFee), m.quoteAmount, tested)
    && ClaimOk(c.relayerBase, buyerFee, m.baseAmount, tested)
    && ClaimOk(c.relayerQuote, sellerFee, m.quoteAmount, tested)
  }

  ghost predicate SidesExact(c: SideClaims) {
    Exact(c.buyerBase) && Exact(c.sellerQuote) && Exact(c.relayerBase) && Exact(c.relayerQuote)
  }

  /** The volumes are the claimed ones. */
  ghost predicate VolumesClaimed(m: Match, c: SideClaims, buyer: Note, buyerRelayer: Note, seller: Note, sellerRelayer: Note) {
    && buyer.volume1 == c.buyerBase.q && buyer.volume2 == m.quoteAmount
    && seller.volume1 == m.baseAmount && seller.volume2 == c.sellerQuote.q
    && buyerRelayer.volume1 == c.relayerBase.q && buyerRelayer.volume2 == 0
    && sellerRelayer.volume1 == 0 && sellerRelayer.volume2 == c.relayerQuote.q
  }

  /** Everything in a note but its volumes. */
  ghost predicate Frame(n: Note, m: Match, dir1: Elem, dir2: Elem, feeMint: Elem, feeVolume: Elem, feeDir: Elem,
      type_: Elem, randomness: Elem)
  {
    && n.mint1 == m.baseMint && n.mint2 == m.quoteMint
    && n.direction1 == dir1 && n.direction2 == dir2
    && n.feeMint == feeMint && n.feeVolume == feeVolume && n.feeDirection == feeDir
    && n.type_ == type_ && n.randomness == randomness
  }

  /** The five notes of a match. */
  datatype Notes = Notes(party0: Note, party1: Note, relayer0: Note, relayer1: Note, protocol: Note)

  ghost predicate FramesValid(ns: Notes, m: Match, fee0: Fee, fee1: Fee, r0: Elem, r1: Elem) {
    && Frame(ns.party0, m, m.direction, Sub(1, m.direction), fee0.gasAddr, fee0.gasAmount, 1, 1, r0)
    && Frame(ns.party1, m, Sub(1, m.direction), m.direction, fee1.gasAddr, fee1.gasAmount, 1, 1, r1)
    && Frame(ns.relayer0, m, 0, 0, fee0.gasAddr, fee0.gasAmount, 0, 0, Add(r0, 1))
    && Frame(ns.relayer1, m, 0, 0, fee1.gasAddr, fee1.gasAmount, 0, 0, Add(r1, 1))
    && Frame(ns.protocol, m, 0, 0, 0, 0, 0, 0, Add(r0, r1))
  }

  ghost predicate NotesValid(ns: Notes, m: Match, fee0: Fee, fee1: Fee, protocolFee: Elem, r0: Elem, r1: Elem) {
    && Selected(
         Bit(VolumesMatch(m, protocolFee, ns.party1, fee1.percentage, ns.relayer1, ns.party0, fee0.percentage, ns.relayer0)),
         Bit(VolumesMatch(m, protocolFee, ns.party0, fee0.percentage, ns.relayer0, ns.party1, fee1.percentage, ns.relayer1)),
         m.direction) == 1
    && ns.protocol.volume1 == Share(protocolFee, m.baseAmount)
    && ns.protocol.volume2 == Share(protocolFee, m.quoteAmount)
    && FramesValid(ns, m, fee0, fee1, r0, r1)
  }

  /** The claims for both directions and for the protocol's two shares. */
  datatype NoteClaims = NoteClaims(buying: SideClaims, selling: SideClaims, base: Claim, quote: Claim)

  /** What the constraints say of the notes: they carry claimed shares. */
  ghost predicate NotesAccepted(ns: Notes, m: Match, fee0: Fee, fee1: Fee, protocolFee: Elem, r0: Elem, r1: Elem,
      c: NoteClaims, tested: bool)
  {
    && SidesOk(c.buying, m, protocolFee, fee0.percentage, fee1.percentage, tested)
    && SidesOk(c.selling, m, protocolFee, fee1.percentage, fee0.percentage, tested)
    && ClaimOk(c.base, protocolFee, m.baseAmount, tested) && ClaimOk(c.quote, protocolFee, m.quoteAmount, tested)
    && Selected(
         Bit(VolumesClaimed(m, c.selling, ns.party1, ns.relayer1, ns.party0, ns.relayer0)),
         Bit(VolumesClaimed(m, c.buying, ns.party0, ns.relayer0, ns.party1, ns.relayer1)), m.direction) == 1
    && ns.protocol.volume1 == c.base.q && ns.protocol.volume2 == c.quote.q
    && FramesValid(ns, m, fee0, fee1, r0, r1)
  }

  /** The claims that the notes of a direction carry are exact. */
  ghost predicate ClaimsExact(c: NoteClaims, direction: Elem) {
    SidesExact(if direction == 1 then c.selling else c.buying) && Exact(c.base) && Exact(c.quote)
  }

  lemma ShareIff(c: Claim, fraction: Elem, amount: Elem)
    requires ClaimOk(c, fraction, amount, false)
    ensures c.q == Share(fraction, amount) <==> Exact(c)
  {
    hide Mul, Add, FloorDiv, NoWrap;
    QuotientIff(Mul(fraction, amount), UNIT, c.q, c.r);
  }

  lemma SidesIff(m: Match, protocolFee: Elem, c: SideClaims,
      buyer: Note, buyerFee: Elem, buyerRelayer: Note, seller: Note, sellerFee: Elem, sellerRelayer: Note)
    requires SidesOk(c, m, protocolFee, buyerFee, sellerFee, false)
    requires VolumesClaimed(m, c, buyer, buyerRelayer, seller, sellerRelayer)
    ensures VolumesMatch(m, protocolFee, buyer, buyerFee, buyerRelayer, seller, sellerFee, sellerRelayer) <==> SidesExact(c)
  {
    hide Share, NetFraction, Exact, ClaimOk;
    ShareIff(c.buyerBase, NetFraction(buyerFee, protocolFee), m.baseAmount);
    ShareIff(c.sellerQuote, NetFraction(sellerFee, protocolFee), m.quoteAmount);
    ShareIff(c.relayerBase, buyerFee, m.baseAmount);
    ShareIff(c.relayerQuote, sellerFee, m.quoteAmount);
  }

  /** Accepted notes are the notes of the match exactly when the claims they carry are exact. */
  lemma AcceptedNotesIff(ns: Notes, m: Match, fee0: Fee, fee1: Fee, protocolFee: Elem, r0: Elem, r1: Elem, c: NoteClaims)
    requires IsBit(m.direction) && NotesAccepted(ns, m, fee0, fee1, protocolFee, r0, r1, c, false)
    ensures NotesValid(ns, m, fee0, fee1, protocolFee, r0, r1) <==> ClaimsExact(c, m.direction)
  {
    hide Share, NetFraction, Exact, ClaimOk, Selected, VolumesMatch, VolumesClaimed, FramesValid, SidesOk, SidesExact;
    var (p0, f0, q0) := (ns.party0, fee0.percentage, ns.relayer0);
    var (p1, f1, q1) := (ns.party1, fee1.percentage, ns.relayer1);
    SelectedByBit(Bit(VolumesClaimed(m, c.selling, p1, q1, p0, q0)), Bit(VolumesClaimed(m, c.buying, p0, q0, p1, q1)), m.direction);
    SelectedByBit(Bit(VolumesMatch(m, protocolFee, p1, f1, q1, p0, f0, q0)),
      Bit(VolumesMatch(m, protocolFee, p0, f0, q0, p1, f1, q1)), m.direction);
    if m.direction == 1 {
      SidesIff(m, protocolFee, c.selling, p1, f1, q1, p0, f0, q0);
    } else {
      SidesIff(m, protocolFee, c.buying, p0, f0, q0, p1, f1, q1);
    }
    ShareIff(c.base, protocolFee, m.baseAmount);
    ShareIff(c.quote, protocolFee, m.quoteAmount);
  }

  // ---- the honest prover's claims ------------------------------------------------------

  function FloorClaim(fraction: Elem, amount: Elem): Claim {
    Claim(FloorDiv(Mul(fraction, amount), UNIT), FloorRem(Mul(fraction, amount), UNIT))
  }

  function FloorSides(m: Match, protocolFee: Elem, buyerFee: Elem, sellerFee: Elem): SideClaims {
    SideClaims(FloorClaim(NetFraction(buyerFee, protocolFee), m.baseAmount),
      FloorClaim(NetFraction(sellerFee, protocolFee), m.quoteAmount),
      FloorClaim(buyerFee, m.baseAmount), FloorClaim(sellerFee, m.quoteAmount))
  }

  function FloorClaims(m: Match, fee0: Fee, fee1: Fee, protocolFee: Elem): NoteClaims {
    NoteClaims(FloorSides(m, protocolFee, fee0.percentage, fee1.percentage),
      FloorSides(m, protocolFee, fee1.percentage, fee0.percentage),
      FloorClaim(protocolFee, m.baseAmount), FloorClaim(protocolFee, m.quoteAmount))
  }

  lemma FloorClaimOk(fraction: Elem, amount: Elem)
    ensures ClaimOk(FloorClaim(fraction, amount), fraction, amount, true)
    ensures FloorClaim(fraction, amount).q == Share(fraction, amount)
  {
    hide Mul, Add, Sub, FloorDiv, FloorRem, Pow2;
    UnitIsPower();
    FloorPasses(Mul(fraction, amount), UNIT, 32);
  }

  /** With the honest quotients the constraints accept exactly the notes of the match, in any direction value. */
  lemma HonestNotesIff(ns: Notes, m: Match, fee0: Fee, fee1: Fee, protocolFee: Elem, r0: Elem, r1: Elem)
    ensures NotesAccepted(ns, m, fee0, fee1, protocolFee, r0, r1, FloorClaims(m, fee0, fee1, protocolFee), true) <==>
      NotesValid(ns, m, fee0, fee1, protocolFee, r0, r1)
  {
    hide Share, NetFraction, ClaimOk, FloorClaim, Selected, FramesValid;
    var f0, f1, b, q := fee0.percentage, fee1.percentage, m.baseAmount, m.quoteAmount;
    FloorClaimOk(NetFraction(f0, protocolFee), b);
    FloorClaimOk(NetFraction(f1, protocolFee), b);
    FloorClaimOk(NetFraction(f0, protocolFee), q);
    FloorClaimOk(NetFraction(f1, protocolFee), q);
    FloorClaimOk(f0, b);
    FloorClaimOk(f1, b);
    FloorClaimOk(f0, q);
    FloorClaimOk(f1, q);
    FloorClaimOk(protocolFee, b);
    FloorClaimOk(protocolFee, q);
  }

  // ---- the circuit ---------------------------------------------------------------------

  /** The wires of a claim. */
  datatype ClaimVar = ClaimVar(q: nat, r: nat)

  function ClaimAt(c: ClaimVar, w: Assignment): Claim {
    Claim(At(w, c.q), At(w, c.r))
  }

  /** The prover chooses the claim. */
  ghost predicate ClaimFree(c: ClaimVar, hints: seq<Hint>) {
    Chosen(c.q, AsQuotient) in hints && Chosen(c.r, AsRemainder) in hints
  }

  ghost predicate SidesFree(s: SideVars, hints: seq<Hint>) {
    && ClaimFree(s.buyerBase, hints) && ClaimFree(s.sellerQuote, hints)
    && ClaimFree(s.relayerBase, hints) && ClaimFree(s.relayerQuote, hints)
  }

  ghost predicate ClaimsFree(c: NoteClaimVars, hints: seq<Hint>) {
    && SidesFree(c.buying, hints) && SidesFree(c.selling, hints) && ClaimFree(c.base, hints) && ClaimFree(c.quote, hints)
  }

  /** mul_integer then floor: a claimed quotient and remainder of the product by the fixed-point one. */
  method ConstrainShare(cs: ConstraintSystem, fraction: LC, amount: nat) returns (c: ClaimVar)
    requires cs.Valid() && Known(fraction, cs.wires) && amount < cs.wires
    modifies cs
    ensures cs.Valid() && cs.wires >= old(cs.wires) && c.q < cs.wires
    ensures Recorded(old(cs.hints), cs.hints) && ClaimFree(c, cs.hints)
    ensures forall w {:trigger Plausible(cs.unchecked, w)} :: Plausible(cs.unchecked, w) ==> Plausible(old(cs.unchecked), w)
    ensures forall w {:trigger Satisfies(cs.constraints, w)} :: Satisfies(cs.constraints, w) ==>
      Satisfies(old(cs.constraints), w) && ClaimOk(ClaimAt(c, w), Eval(fraction, w), At(w, amount), false)
    ensures forall w {:trigger Honest(cs.hints, w)} :: Honest(cs.hints, w) ==>
      && Honest(old(cs.hints), w)
      && (Satisfies(cs.constraints, w) <==>
          Satisfies(old(cs.constraints), w) && ClaimOk(ClaimAt(c, w), Eval(fraction, w), At(w, amount), true))
  {
    hide Eval, Honest, At, Satisfies, Plausible, Mul, Add, Sub, FloorDiv, NoWrap, BitsFollow, Pow2;
    var _, _, product := Multiply(cs, fraction, Wire(amount));
    var q, r, _ := DivRem(cs, Wire(product), Const(UNIT), 32);
    c := ClaimVar(q, r);
    forall w ensures Eval(Wire(product), w) == At(w, product) && Eval(Wire(amount), w) == At(w, amount)
        && Eval(Const(UNIT), w) == UNIT {
      EvalWire(product, w);
      EvalWire(amount, w);
      EvalConst(UNIT, w);
    }
  }

  lemma UnitIsPower()
    ensures UNIT as int == Pow2(32)
  {
    hide Pow2;
    Pow2Literals();
  }

  /** The sum of wires. */
  function Total(bits: seq<nat>): LC {
    if |bits| == 0 then ZERO else Sum(Total(bits[..|bits| - 1]), Wire(bits[|bits| - 1]))
  }

  lemma {:induction false} TotalKnown(bits: seq<nat>, n: nat)
    requires forall i :: 0 <= i < |bits| ==> bits[i] < n
    ensures Known(Total(bits), n)
  {
    if |bits| > 0 { TotalKnown(bits[..|bits| - 1], n); }
  }

  /** How many of the bits are set. */
  function TrueCount(ps: seq<bool>): (n: nat)
    ensures n <= |ps| && (n == |ps| <==> forall i :: 0 <= i < |ps| ==> ps[i])
  {
    if |ps| == 0 then 0
    else
      var k := |ps| - 1;
      assert ps == ps[..k] + [ps[k]];
      TrueCount(ps[..k]) + (if ps[k] then 1 else 0)
  }

  lemma {:induction false} TotalCounts(bits: seq<nat>, ps: seq<bool>, w: Assignment)
    requires |bits| == |ps| && forall i :: 0 <= i < |bits| ==> At(w, bits[i]) == Bit(ps[i])
    ensures Eval(Total(bits), w) == F(TrueCount(ps))
  {
    hide F, Add, At;
    FSelf(0);
    if |bits| > 0 {
      var k := |bits| - 1;
      TotalCounts(bits[..k], ps[..k], w);
      EvalSum(Total(bits[..k]), Wire(bits[k]), w);
      EvalWire(bits[k], w);
      FSelf(Bit(ps[k]));
      FAdd(TrueCount(ps[..k]), Bit(ps[k]));
    }
  }

  /** The sum of eight bits is eight iff all are set. */
  lemma EightBits(bits: seq<nat>, ps: seq<bool>, w: Assignment)
    requires |bits| == |ps| == 8 && forall i :: 0 <= i < 8 ==> At(w, bits[i]) == Bit(ps[i])
    ensures Eval(Total(bits), w) == Eval(Const(8), w) <==> forall i :: 0 <= i < 8 ==> ps[i]
  {
    hide F, At, Total;
    TotalCounts(bits, ps, w);
    FSelf(TrueCount(ps));
  }

  /** The conjunction of eight equality tests: their sum compared with eight. */
  method EightEqual(cs: ConstraintSystem, xs: seq<LC>, ys: seq<LC>) returns (all: nat)
    requires cs.Valid() && |xs| == |ys| == 8 && AllKnown(xs, cs.wires) && AllKnown(ys, cs.wires)
    modifies cs
    ensures cs.Valid() && cs.wires >= old(cs.wires) && cs.unchecked == old(cs.unchecked) && all < cs.wires
    ensures Recorded(old(cs.hints), cs.hints)
    ensures forall w {:trigger Satisfies(cs.constraints, w)} :: Satisfies(cs.constraints, w) ==>
      Satisfies(old(cs.constraints), w) && At(w, all) == Bit(Evals(xs, w) == Evals(ys, w))
    ensures forall w {:trigger Honest(cs.hints, w)} :: Honest(cs.hints, w) ==>
      && Honest(old(cs.hints), w) && At(w, all) == Bit(Evals(xs, w) == Evals(ys, w))
      && (Satisfies(old(cs.constraints), w) ==> Satisfies(cs.constraints, w))
  {
    hide Eval, Satisfies, Honest, At, Bit, Total, Known;
    var bits: seq<nat> := [];
    for i := 0 to 8
      invariant cs.Valid() && cs.wires >= old(cs.wires) && cs.unchecked == old(cs.unchecked)
      invariant AllKnown(xs, cs.wires) && AllKnown(ys, cs.wires) && Recorded(old(cs.hints), cs.hints)
      invariant |bits| == i && forall k :: 0 <= k < i ==> bits[k] < cs.wires
      invariant forall w {:trigger Satisfies(cs.constraints, w)} :: Satisfies(cs.constraints, w) ==>
        && Satisfies(old(cs.constraints), w)
        && forall k :: 0 <= k < i ==> At(w, bits[k]) == Bit(Eval(xs[k], w) == Eval(ys[k], w))
      invariant forall w {:trigger Honest(cs.hints, w)} :: Honest(cs.hints, w) ==>
        && Honest(old(cs.hints), w)
        && (forall k :: 0 <= k < i ==> At(w, bits[k]) == Bit(Eval(xs[k], w) == Eval(ys[k], w)))
        && (Satisfies(old(cs.constraints), w) ==> Satisfies(cs.constraints, w))
    {
      var n := cs.wires;
      var bit := Eq(cs, xs[i], ys[i]);
      AllKnownMore(xs, n, cs.wires);
      AllKnownMore(ys, n, cs.wires);
      bits := bits + [bit];
    }
    TotalKnown(bits, cs.wires);
    assert Known(Const(8), cs.wires) by { KnownConst(8, cs.wires); }
    all := Eq(cs, Total(bits), Const(8));
    forall w | forall k :: 0 <= k < 8 ==> At(w, bits[k]) == Bit(Eval(xs[k], w) == Eval(ys[k], w))
      ensures Eval(Total(bits), w) == Eval(Const(8), w) <==> Evals(xs, w) == Evals(ys, w)
    {
      AllSet(xs, ys, bits, w);
    }
  }

  lemma KnownConst(c: Elem, n: nat)
    ensures Known(Const(c), n)
  {
  }

  lemma AllSet(xs: seq<LC>, ys: seq<LC>, bits: seq<nat>, w: Assignment)
    requires |xs| == |ys| == |bits| == 8
    requires forall k :: 0 <= k < 8 ==> At(w, bits[k]) == Bit(Eval(xs[k], w) == Eval(ys[k], w))
    ensures Eval(Total(bits), w) == Eval(Const(8), w) <==> Evals(xs, w) == Evals(ys, w)
  {
    hide At, Eval, Total;
    var ps := seq(8, k requires 0 <= k < 8 => Eval(xs[k], w) == Eval(ys[k], w));
    EightBits(bits, ps, w);
    if forall k :: 0 <= k < 8 ==> ps[k] {
      forall k | 0 <= k < 8 ensures Evals(xs, w)[k] == Evals(ys, w)[k] { assert ps[k]; }
    }
    if Evals(xs, w) == Evals(ys, w) {
      forall k | 0 <= k < 8 ensures ps[k] { assert Evals(xs, w)[k] == Evals(ys, w)[k]; }
    }
  }

  /** The wires of the shares of one direction. */
  datatype SideVars = SideVars(buyerBase: ClaimVar, sellerQuote: ClaimVar, relayerBase: ClaimVar, relayerQuote: ClaimVar)

  function SidesAt(s: SideVars, w: Assignment): SideClaims {
    SideClaims(ClaimAt(s.buyerBase, w), ClaimAt(s.sellerQuote, w), ClaimAt(s.relayerBase, w), ClaimAt(s.relayerQuote, w))
  }

  function NetLC(fee: nat, protocolFee: nat): LC {
    Diff(Diff(Const(UNIT), Wire(fee)), Wire(protocolFee))
  }

  lemma EvalNet(fee: nat, protocolFee: nat, w: Assignment)
    ensures Eval(NetLC(fee, protocolFee), w) == NetFraction(At(w, fee), At(w, protocolFee))
  {
    hide Sub, At;
    EvalDiff(Diff(Const(UNIT), Wire(fee)), Wire(protocolFee), w);
    EvalDiff(Const(UNIT), Wire(fee), w);
  }

  lemma NetKnown(fee: nat, protocolFee: nat, n: nat)
    requires fee < n && protocolFee < n
    ensures Known(NetLC(fee, protocolFee), n)
  {
    var inner := Diff(Const(UNIT), Wire(fee));
    assert Known(inner.l, n) && Known(inner.r, n);
    assert Known(inner, n);
  }

  method ConstrainShares(cs: ConstraintSystem, m: MatchVar, protocolFee: nat, buyerFee: nat, sellerFee: nat) returns (s: SideVars)
    requires cs.Valid() && MatchKnown(m, cs.wires) && protocolFee < cs.wires && buyerFee < cs.wires && sellerFee < cs.wires
    modifies cs
    ensures cs.Valid() && cs.wires >= old(cs.wires)
    ensures Recorded(old(cs.hints), cs.hints) && SidesFree(s, cs.hints)
    ensures s.buyerBase.q < cs.wires && s.sellerQuote.q < cs.wires && s.relayerBase.q < cs.wires && s.relayerQuote.q < cs.wires
    ensures forall w {:trigger Plausible(cs.unchecked, w)} :: Plausible(cs.unchecked, w) ==> Plausible(old(cs.unchecked), w)
    ensures forall w {:trigger Satisfies(cs.constraints, w)} :: Satisfies(cs.constraints, w) ==>
      && Satisfies(old(cs.constraints), w)
      && SidesOk(SidesAt(s, w), MatchAt(m, w), At(w, protocolFee), At(w, buyerFee), At(w, sellerFee), false)
    ensures forall w {:trigger Honest(cs.hints, w)} :: Honest(cs.hints, w) ==>
      && Honest(old(cs.hints), w)
      && (Satisfies(cs.constraints, w) <==>
          (Satisfies(old(cs.constraints), w) &&
           SidesOk(SidesAt(s, w), MatchAt(m, w), At(w, protocolFee), At(w, buyerFee), At(w, sellerFee), true)))
  {
    hide Eval, Honest, At, Satisfies, Plausible, ClaimOk, ClaimAt, NetFraction;
    NetKnown(buyerFee, protocolFee, cs.wires);
    var a := ConstrainShare(cs, NetLC(buyerFee, protocolFee), m.baseAmount);
    NetKnown(sellerFee, protocolFee, cs.wires);
    var b := ConstrainShare(cs, NetLC(sellerFee, protocolFee), m.quoteAmount);
    var c := ConstrainShare(cs, Wire(buyerFee), m.baseAmount);
    var d := ConstrainShare(cs, Wire(sellerFee), m.quoteAmount);
    s := SideVars(a, b, c, d);
    forall w
      ensures Eval(NetLC(buyerFee, protocolFee), w) == NetFraction(At(w, buyerFee), At(w, protocolFee))
      ensures Eval(NetLC(sellerFee, protocolFee), w) == NetFraction(At(w, sellerFee), At(w, protocolFee))
      ensures Eval(Wire(buyerFee), w) == At(w, buyerFee) && Eval(Wire(sellerFee), w) == At(w, sellerFee)
    {
      EvalNet(buyerFee, protocolFee, w);
      EvalNet(sellerFee, protocolFee, w);
      EvalWire(buyerFee, w);
      EvalWire(sellerFee, w);
    }
  }

  function Claimed(buyer: NoteVar, buyerRelayer: NoteVar, seller: NoteVar, sellerRelayer: NoteVar): seq<LC> {
    [Wire(buyer.volume1), Wire(buyer.volume2), Wire(seller.volume1), Wire(seller.volume2),
     Wire(buyerRelayer.volume1), Wire(buyerRelayer.volume2), Wire(sellerRelayer.volume1), Wire(sellerRelayer.volume2)]
  }

  function Computed(m: MatchVar, s: SideVars): seq<LC> {
    [Wire(s.buyerBase.q), Wire(m.quoteAmount), Wire(m.baseAmount), Wire(s.sellerQuote.q),
     Wire(s.relayerBase.q), ZERO, ZERO, Wire(s.relayerQuote.q)]
  }

  lemma ClaimedIsComputed(m: MatchVar, s: SideVars, buyer: NoteVar, buyerRelayer: NoteVar,
      seller: NoteVar, sellerRelayer: NoteVar, w: Assignment)
    ensures Evals(Claimed(buyer, buyerRelayer, seller, sellerRelayer), w) == Evals(Computed(m, s), w) <==>
      VolumesClaimed(MatchAt(m, w), SidesAt(s, w), NoteAt(buyer, w), NoteAt(buyerRelayer, w),
        NoteAt(seller, w), NoteAt(sellerRelayer, w))
  {
    hide At;
    var x := Evals(Claimed(buyer, buyerRelayer, seller, sellerRelayer), w);
    var y := Evals(Computed(m, s), w);
    assert x == [At(w, buyer.volume1), At(w, buyer.volume2), At(w, seller.volume1), At(w, seller.volume2),
      At(w, buyerRelayer.volume1), At(w, buyerRelayer.volume2), At(w, sellerRelayer.volume1), At(w, sellerRelayer.volume2)];
    assert y == [At(w, s.buyerBase.q), At(w, m.quoteAmount), At(w, m.baseAmount), At(w, s.sellerQuote.q),
      At(w, s.relayerBase.q), 0, 0, At(w, s.relayerQuote.q)];
  }

  /**
   party0_buy_base_constraints_satisfied; with the parties exchanged, party1_buy_base_constraints_satisfied.
   */
  method VolumeConstraints(cs: ConstraintSystem, m: MatchVar, protocolFee: nat,
      buyer: NoteVar, buyerFee: nat, buyerRelayer: NoteVar, seller: NoteVar, sellerFee: nat, sellerRelayer: NoteVar)
    returns (ok: nat, s: SideVars)
    requires cs.Valid() && MatchKnown(m, cs.wires) && protocolFee < cs.wires && buyerFee < cs.wires && sellerFee < cs.wires
    requires NoteKnown(buyer, cs.wires) && NoteKnown(buyerRelayer, cs.wires)
    requires NoteKnown(seller, cs.wires) && NoteKnown(sellerRelayer, cs.wires)
    modifies cs
    ensures cs.Valid() && cs.wires >= old(cs.wires) && ok < cs.wires
    ensures Recorded(old(cs.hints), cs.hints) && SidesFree(s, cs.hints)
    ensures forall w {:trigger Plausible(cs.unchecked, w)} :: Plausible(cs.unchecked, w) ==> Plausible(old(cs.unchecked), w)
    ensures forall w {:trigger Satisfies(cs.constraints, w)} :: Satisfies(cs.constraints, w) ==>
      && Satisfies(old(cs.constraints), w)
      && SidesOk(SidesAt(s, w), MatchAt(m, w), At(w, protocolFee), At(w, buyerFee), At(w, sellerFee), false)
      && At(w, ok) == Bit(VolumesClaimed(MatchAt(m, w), SidesAt(s, w), NoteAt(buyer, w), NoteAt(buyerRelayer, w),
            NoteAt(seller, w), NoteAt(sellerRelayer, w)))
    ensures forall w {:trigger Honest(cs.hints, w)} :: Honest(cs.hints, w) ==>
      && Honest(old(cs.hints), w)
      && At(w, ok) == Bit(VolumesClaimed(MatchAt(m, w), SidesAt(s, w), NoteAt(buyer, w), NoteAt(buyerRelayer, w),
            NoteAt(seller, w), NoteAt(sellerRelayer, w)))
      && (Satisfies(cs.constraints, w) <==>
          (Satisfies(old(cs.constraints), w) &&
           SidesOk(SidesAt(s, w), MatchAt(m, w), At(w, protocolFee), At(w, buyerFee), At(w, sellerFee), true)))
  {
    hide Honest, At, Satisfies, Plausible, VolumesClaimed, SidesOk, SidesAt, Evals, Bit;
    s := ConstrainShares(cs, m, protocolFee, buyerFee, sellerFee);
    ok := EightEqual(cs, Claimed(buyer, buyerRelayer, seller, sellerRelayer), Computed(m, s));
    forall w
      ensures Evals(Claimed(buyer, buyerRelayer, seller, sellerRelayer), w) == Evals(Computed(m, s), w) <==>
        VolumesClaimed(MatchAt(m, w), SidesAt(s, w), NoteAt(buyer, w), NoteAt(buyerRelayer, w),
          NoteAt(seller, w), NoteAt(sellerRelayer, w))
    {
      ClaimedIsComputed(m, s, buyer, buyerRelayer, seller, sellerRelayer, w);
    }
  }

  /** The unconditional constraints on one note. */
  method ConstrainFrame(cs: ConstraintSystem, n: NoteVar, m: MatchVar, dir1: LC, dir2: LC, feeMint: LC, feeVolume: LC,
      feeDir: LC, type_: LC, randomness: LC)
    requires cs.Valid()
    modifies cs
    ensures cs.Valid() && cs.wires == old(cs.wires) && cs.hints == old(cs.hints) && cs.unchecked == old(cs.unchecked)
    ensures forall w {:trigger Satisfies(cs.constraints, w)} :: Satisfies(cs.constraints, w) <==>
      (Satisfies(old(cs.constraints), w) &&
       Frame(NoteAt(n, w), MatchAt(m, w), Eval(dir1, w), Eval(dir2, w), Eval(feeMint, w), Eval(feeVolume, w),
         Eval(feeDir, w), Eval(type_, w), Eval(randomness, w)))
  {
    hide Satisfies, At, Eval, Frame;
    ConstrainSides(cs, n, m, dir1, dir2, type_);
    ConstrainEqual(cs, Wire(n.feeMint), feeMint);
    ConstrainEqual(cs, Wire(n.feeVolume), feeVolume);
    ConstrainEqual(cs, Wire(n.feeDirection), feeDir);
    ConstrainEqual(cs, Wire(n.randomness), randomness);
    forall w
      ensures Eval(Wire(n.feeMint), w) == At(w, n.feeMint) && Eval(Wire(n.feeVolume), w) == At(w, n.feeVolume)
      ensures Eval(Wire(n.feeDirection), w) == At(w, n.feeDirection) && Eval(Wire(n.randomness), w) == At(w, n.randomness)
    {
      EvalWire(n.feeMint, w);
      EvalWire(n.feeVolume, w);
      EvalWire(n.feeDirection, w);
      EvalWire(n.randomness, w);
    }
    forall w ensures Frame(NoteAt(n, w), MatchAt(m, w), Eval(dir1, w), Eval(dir2, w), Eval(feeMint, w), Eval(feeVolume, w),
        Eval(feeDir, w), Eval(type_, w), Eval(randomness, w)) <==>
      (At(w, n.mint1) == At(w, m.baseMint) && At(w, n.mint2) == At(w, m.quoteMint) &&
       At(w, n.direction1) == Eval(dir1, w) && At(w, n.direction2) == Eval(dir2, w) && At(w, n.type_) == Eval(type_, w) &&
       At(w, n.feeMint) == Eval(feeMint, w) && At(w, n.feeVolume) == Eval(feeVolume, w) &&
       At(w, n.feeDirection) == Eval(feeDir, w) && At(w, n.randomness) == Eval(randomness, w))
    {
      FrameUnfolds(n, m, Eval(dir1, w), Eval(dir2, w), Eval(feeMint, w), Eval(feeVolume, w), Eval(feeDir, w),
        Eval(type_, w), Eval(randomness, w), w);
    }
  }

  lemma FrameUnfolds(n: NoteVar, m: MatchVar, dir1: Elem, dir2: Elem, feeMint: Elem, feeVolume: Elem, feeDir: Elem,
      type_: Elem, randomness: Elem, w: Assignment)
    ensures Frame(NoteAt(n, w), MatchAt(m, w), dir1, dir2, feeMint, feeVolume, feeDir, type_, randomness) <==>
      (At(w, n.mint1) == At(w, m.baseMint) && At(w, n.mint2) == At(w, m.quoteMint) &&
       At(w, n.direction1) == dir1 && At(w, n.direction2) == dir2 && At(w, n.type_) == type_ &&
       At(w, n.feeMint) == feeMint && At(w, n.feeVolume) == feeVolume &&
       At(w, n.feeDirection) == feeDir && At(w, n.randomness) == randomness)
  {
    hide At;
  }

  method ConstrainSides(cs: ConstraintSystem, n: NoteVar, m: MatchVar, dir1: LC, dir2: LC, type_: LC)
    requires cs.Valid()
    modifies cs
    ensures cs.Valid() && cs.wires == old(cs.wires) && cs.hints == old(cs.hints) && cs.unchecked == old(cs.unchecked)
    ensures forall w {:trigger Satisfies(cs.constraints, w)} :: Satisfies(cs.constraints, w) <==>
      (Satisfies(old(cs.constraints), w) &&
       At(w, n.mint1) == At(w, m.baseMint) && At(w, n.mint2) == At(w, m.quoteMint) &&
       At(w, n.direction1) == Eval(dir1, w) && At(w, n.direction2) == Eval(dir2, w) && At(w, n.type_) == Eval(type_, w))
  {
    hide Satisfies, At, Eval;
    ConstrainEqual(cs, Wire(m.baseMint), Wire(n.mint1));
    ConstrainEqual(cs, Wire(m.quoteMint), Wire(n.mint2));
    ConstrainEqual(cs, Wire(n.direction1), dir1);
    ConstrainEqual(cs, Wire(n.direction2), dir2);
    ConstrainEqual(cs, Wire(n.type_), type_);
    forall w
      ensures Eval(Wire(n.mint1), w) == At(w, n.mint1) && Eval(Wire(n.mint2), w) == At(w, n.mint2)
      ensures Eval(Wire(n.direction1), w) == At(w, n.direction1) && Eval(Wire(n.direction2), w) == At(w, n.direction2)
      ensures Eval(Wire(n.type_), w) == At(w, n.type_)
      ensures Eval(Wire(m.baseMint), w) == At(w, m.baseMint) && Eval(Wire(m.quoteMint), w) == At(w, m.quoteMint)
    {
      EvalWire(n.mint1, w);
      EvalWire(n.mint2, w);
      EvalWire(n.direction1, w);
      EvalWire(n.direction2, w);
      EvalWire(n.type_, w);
      EvalWire(m.baseMint, w);
      EvalWire(m.quoteMint, w);
    }
  }

  datatype NoteVars = NoteVars(party0: NoteVar, party1: NoteVar, relayer0: NoteVar, relayer1: NoteVar, protocol: NoteVar)

  function NotesAt(ns: NoteVars, w: Assignment): Notes {
    Notes(NoteAt(ns.party0, w), NoteAt(ns.party1, w), NoteAt(ns.relayer0, w), NoteAt(ns.relayer1, w), NoteAt(ns.protocol, w))
  }

  ghost predicate NotesKnown(ns: NoteVars, n: nat) {
    && NoteKnown(ns.party0, n) && NoteKnown(ns.party1, n) && NoteKnown(ns.relayer0, n)
    && NoteKnown(ns.relayer1, n) && NoteKnown(ns.protocol, n)
  }

  method ConstrainFrames(cs: ConstraintSystem, ns: NoteVars, m: MatchVar, fee0: FeeVar, fee1: FeeVar, r0: nat, r1: nat)
    requires cs.Valid()
    modifies cs
    ensures cs.Valid() && cs.wires == old(cs.wires) && cs.hints == old(cs.hints) && cs.unchecked == old(cs.unchecked)
    ensures forall w {:trigger Satisfies(cs.constraints, w)} :: Satisfies(cs.constraints, w) <==>
      (Satisfies(old(cs.constraints), w) &&
       FramesValid(NotesAt(ns, w), MatchAt(m, w), FeeAt(fee0, w), FeeAt(fee1, w), At(w, r0), At(w, r1)))
  {
    hide Satisfies, At, Eval, Frame, Sub, Add;
    var d, notD := Wire(m.direction), Diff(ONE, Wire(m.direction));
    ConstrainFrame(cs, ns.party0, m, d, notD, Wire(fee0.gasAddr), Wire(fee0.gasAmount), ONE, ONE, Wire(r0));
    ConstrainFrame(cs, ns.party1, m, notD, d, Wire(fee1.gasAddr), Wire(fee1.gasAmount), ONE, ONE, Wire(r1));
    ConstrainFrame(cs, ns.relayer0, m, ZERO, ZERO, Wire(fee0.gasAddr), Wire(fee0.gasAmount), ZERO, ZERO, Sum(Wire(r0), ONE));
    ConstrainFrame(cs, ns.relayer1, m, ZERO, ZERO, Wire(fee1.gasAddr), Wire(fee1.gasAmount), ZERO, ZERO, Sum(Wire(r1), ONE));
    ConstrainFrame(cs, ns.protocol, m, ZERO, ZERO, ZERO, ZERO, ZERO, ZERO, Sum(Wire(r0), Wire(r1)));
    forall i: nat, w ensures Eval(Wire(i), w) == At(w, i) { EvalWire(i, w); }
    forall w
      ensures Eval(ONE, w) == 1 && Eval(ZERO, w) == 0
      ensures Eval(notD, w) == Sub(1, At(w, m.direction))
      ensures Eval(Sum(Wire(r0), ONE), w) == Add(At(w, r0), 1) && Eval(Sum(Wire(r1), ONE), w) == Add(At(w, r1), 1)
      ensures Eval(Sum(Wire(r0), Wire(r1)), w) == Add(At(w, r0), At(w, r1))
    {
      EvalOne(w);
      EvalDiff(ONE, Wire(m.direction), w);
      EvalSum(Wire(r0), ONE, w);
      EvalSum(Wire(r1), ONE, w);
      EvalSum(Wire(r0), Wire(r1), w);
    }
  }

  datatype NoteClaimVars = NoteClaimVars(buying: SideVars, selling: SideVars, base: ClaimVar, quote: ClaimVar)

  function ClaimsAt(c: NoteClaimVars, w: Assignment): NoteClaims {
    NoteClaims(SidesAt(c.buying, w), SidesAt(c.selling, w), ClaimAt(c.base, w), ClaimAt(c.quote, w))
  }

  /** validate_notes. */
  method ValidateNotes(cs: ConstraintSystem, ns: NoteVars, m: MatchVar, fee0: FeeVar, fee1: FeeVar, protocolFee: nat,
      r0: nat, r1: nat) returns (c: NoteClaimVars)
    requires cs.Valid() && NotesKnown(ns, cs.wires) && MatchKnown(m, cs.wires)
    requires FeeKnown(fee0, cs.wires) && FeeKnown(fee1, cs.wires) && protocolFee < cs.wires
    modifies cs
    ensures cs.Valid()
    ensures ClaimsFree(c, cs.hints)
    ensures forall w {:trigger Satisfies(cs.constraints, w)} :: Satisfies(cs.constraints, w) ==>
      && Satisfies(old(cs.constraints), w)
      && NotesAccepted(NotesAt(ns, w), MatchAt(m, w), FeeAt(fee0, w), FeeAt(fee1, w), At(w, protocolFee), At(w, r0), At(w, r1),
           ClaimsAt(c, w), false)
    ensures forall w {:trigger Honest(cs.hints, w)} :: Honest(cs.hints, w) ==>
      && Honest(old(cs.hints), w)
      && (Satisfies(cs.constraints, w) <==>
            && Satisfies(old(cs.constraints), w)
            && NotesAccepted(NotesAt(ns, w), MatchAt(m, w), FeeAt(fee0, w), FeeAt(fee1, w), At(w, protocolFee), At(w, r0), At(w, r1),
                 ClaimsAt(c, w), true))
  {
    hide Satisfies, Honest, Plausible, At, Eval, VolumesClaimed, SidesOk, ClaimOk, SidesAt, ClaimAt, FramesValid, Selected, Bit,
      Recorded, SidesFree, ClaimFree;
    var buy, buying := VolumeConstraints(cs, m, protocolFee, ns.party0, fee0.percentage, ns.relayer0,
      ns.party1, fee1.percentage, ns.relayer1);
    ghost var h0 := cs.hints;
    var sell, selling := VolumeConstraints(cs, m, protocolFee, ns.party1, fee1.percentage, ns.relayer1,
      ns.party0, fee0.percentage, ns.relayer0);
    ghost var h1 := cs.hints;
    var selected := Select(cs, Wire(sell), Wire(buy), Wire(m.direction));
    cs.Constrain(Diff(ONE, selected));
    ghost var h2 := cs.hints;
    var v1 := ConstrainShare(cs, Wire(protocolFee), m.baseAmount);
    ghost var h3 := cs.hints;
    var v2 := ConstrainShare(cs, Wire(protocolFee), m.quoteAmount);
    ConstrainEqual(cs, Wire(v1.q), Wire(ns.protocol.volume1));
    ConstrainEqual(cs, Wire(v2.q), Wire(ns.protocol.volume2));
    ConstrainFrames(cs, ns, m, fee0, fee1, r0, r1);
    c := NoteClaimVars(buying, selling, v1, v2);
    StayFree(buying, selling, v1, h0, h1, h2, h3, cs.hints);
    forall i: nat, w ensures Eval(Wire(i), w) == At(w, i) { EvalWire(i, w); }
    forall w ensures Eval(Diff(ONE, selected), w) == 0 <==> Eval(selected, w) == 1 {
      EvalDiff(ONE, selected, w);
      EvalOne(w);
    }
    forall w ensures ClaimAt(v1, w).q == At(w, v1.q) && ClaimAt(v2, w).q == At(w, v2.q) { ClaimWires(v1, v2, w); }
  }

  lemma StayFree(s: SideVars, t: SideVars, c: ClaimVar, h0: seq<Hint>, h1: seq<Hint>, h2: seq<Hint>, h3: seq<Hint>, h4: seq<Hint>)
    requires SidesFree(s, h0) && SidesFree(t, h1) && ClaimFree(c, h3)
    requires Recorded(h0, h1) && Recorded(h1, h2) && Recorded(h2, h3) && Recorded(h3, h4)
    ensures SidesFree(s, h4) && SidesFree(t, h4) && ClaimFree(c, h4)
  {
  }

  lemma ClaimWires(c: ClaimVar, d: ClaimVar, w: Assignment)
    ensures ClaimAt(c, w).q == At(w, c.q) && ClaimAt(d, w).q == At(w, d.q)
  {
  }
}
