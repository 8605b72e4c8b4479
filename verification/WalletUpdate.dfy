/**
 The VALID WALLET UPDATE circuit (circuits/src/zk_circuits/valid_wallet_update.rs): transfers between two
 wallet states, and what they mean for the balances.
 */
module WalletUpdate {
  import opened Numbers
  import opened ResidueField
  import opened ScalarField
  import opened MpcBits
  import opened ConstraintSystems
  import opened ZkGadgets

  datatype Balance = Balance(mint: Elem, amount: Elem)

  /** The wires of a balance. */
  datatype BalanceVar = BalanceVar(mint: nat, amount: nat)

  /** An internal transfer moves volume out of the wallet into a note. */
  datatype Internal = Internal(mint: Elem, volume: Elem)

  datatype InternalVar = InternalVar(mint: nat, volume: nat)

  /** An external transfer is a deposit (direction 0) or a withdrawal (direction 1). */
  datatype External = External(mint: Elem, volume: Elem, direction: Elem)

  datatype ExternalVar = ExternalVar(mint: nat, volume: nat, direction: nat)

  function BalanceAt(b: BalanceVar, w: Assignment): Balance {
    Balance(At(w, b.mint), At(w, b.amount))
  }

  function BalancesAt(bs: seq<BalanceVar>, w: Assignment): (r: seq<Balance>)
    ensures |r| == |bs|
    ensures forall i :: 0 <= i < |bs| ==> r[i] == BalanceAt(bs[i], w)
  {
    seq(|bs|, i requires 0 <= i < |bs| => BalanceAt(bs[i], w))
  }

  function InternalAt(t: InternalVar, w: Assignment): Internal {
    Internal(At(w, t.mint), At(w, t.volume))
  }

  function ExternalAt(t: ExternalVar, w: Assignment): External {
    External(At(w, t.mint), At(w, t.volume), At(w, t.direction))
  }

  // ---- what the constraints mean -------------------------------------------------------

  /** The total amount held in a mint. */
  function BalanceOf(bs: seq<Balance>, mint: Elem): nat {
    if |bs| == 0 then 0
    else
      var last := bs[|bs| - 1];
      BalanceOf(bs[..|bs| - 1], mint) + (if last.mint == mint then last.amount as int else 0)
  }

  /** The number of slots of a mint. */
  function Slots(bs: seq<Balance>, mint: Elem): nat {
    if |bs| == 0 then 0
    else Slots(bs[..|bs| - 1], mint) + (if bs[|bs| - 1].mint == mint then 1 else 0)
  }

  /** Mints are pairwise distinct, except that zero may repeat. */
  ghost predicate UniqueMints(bs: seq<Balance>) {
    forall i, j :: 0 <= i < j < |bs| ==> bs[i].mint == 0 || bs[i].mint != bs[j].mint
  }

  function Masked(b: bool, x: Elem): Elem {
    if b then x else 0
  }

  /** The signed transfer volume as the circuit muxes it. */
  function ExternalTerm(t: External): Elem {
    Selected(Neg(t.volume), t.volume, t.direction)
  }

  function ExpectedAmount(old_: seq<Balance>, mint: Elem, internal: Internal, external: External): Elem {
    Sub(Add(F(BalanceOf(old_, mint)), Masked(mint == external.mint, ExternalTerm(external))),
        Masked(mint == internal.mint, internal.volume))
  }

  /** The equations that validate_transfers imposes, apart from the range of the new amounts. */
  ghost predicate TransfersApplied(new_: seq<Balance>, old_: seq<Balance>, internal: Internal, external: External) {
    && UniqueMints(new_)
    && (forall k :: 0 <= k < |new_| ==>
          new_[k].amount == ExpectedAmount(old_, new_[k].mint, internal, external))
    && (internal.mint == 0 || F(Slots(new_, internal.mint)) == 1)
    && (external.direction == 0 || F(Slots(new_, external.mint)) == 1)
  }

  ghost predicate AmountsBelow(bs: seq<Balance>, bound: nat) {
    forall k :: 0 <= k < |bs| ==> bs[k].amount as int < bound
  }

  // ---- the circuit ---------------------------------------------------------------------

  ghost predicate BalancesKnown(bs: seq<BalanceVar>, n: nat) {
    forall i :: 0 <= i < |bs| ==> bs[i].mint < n && bs[i].amount < n
  }

  lemma ProductZero(a: Elem, b: Elem)
    ensures Mul(a, b) == 0 <==> a == 0 || b == 0
  {
    hide Mul;
    MulOne(a);
    MulOne(b);
    if Mul(a, b) == 0 { NoZeroDivisors(a, b); }
  }

  /** One pair of constrain_unique_balance_mints: mint_i (1 - [mint_i != mint_j]) == 0. */
  method ConstrainDistinct(cs: ConstraintSystem, a: nat, b: nat)
    requires cs.Valid() && a < cs.wires && b < cs.wires
    modifies cs
    ensures cs.Valid() && cs.wires >= old(cs.wires) && cs.unchecked == old(cs.unchecked)
    ensures forall w {:trigger Satisfies(cs.constraints, w)} :: Satisfies(cs.constraints, w) ==>
      Satisfies(old(cs.constraints), w) && (At(w, a) == 0 || At(w, a) != At(w, b))
    ensures forall w {:trigger Honest(cs.hints, w)} :: Honest(cs.hints, w) ==>
      && Honest(old(cs.hints), w)
      && (Satisfies(cs.constraints, w) <==>
          Satisfies(old(cs.constraints), w) && (At(w, a) == 0 || At(w, a) != At(w, b)))
  {
    hide Eval, Satisfies, Honest, At, Mul;
    var unique := NotEqual(cs, Wire(a), Wire(b));
    var _, _, poly := Multiply(cs, Wire(a), Diff(ONE, unique));
    cs.Constrain(Wire(poly));
    forall w ensures Eval(Wire(poly), w) == At(w, poly) && Eval(Wire(a), w) == At(w, a) && Eval(Wire(b), w) == At(w, b) {
      EvalWire(poly, w);
      EvalWire(a, w);
      EvalWire(b, w);
    }
    forall w, p: bool | Eval(unique, w) == Bit(p)
      ensures Mul(At(w, a), Eval(Diff(ONE, unique), w)) == 0 <==> At(w, a) == 0 || p
    {
      EvalDiff(ONE, unique, w);
      EvalOne(w);
      OneMinusBit(Bit(p));
      ProductZero(At(w, a), Eval(Diff(ONE, unique), w));
    }
  }

  /** All pairs before (i, j) in the order of the nested loops. */
  ghost predicate UniqueUpTo(bs: seq<Balance>, i: nat, j: nat) {
    forall k, l :: 0 <= k < l < |bs| && (k < i || (k == i && l < j)) ==> bs[k].mint == 0 || bs[k].mint != bs[l].mint
  }

  method ConstrainUniqueMints(cs: ConstraintSystem, bs: seq<BalanceVar>)
    requires cs.Valid() && BalancesKnown(bs, cs.wires)
    modifies cs
    ensures cs.Valid() && cs.wires >= old(cs.wires) && cs.unchecked == old(cs.unchecked)
    ensures forall w {:trigger Satisfies(cs.constraints, w)} :: Satisfies(cs.constraints, w) ==>
      Satisfies(old(cs.constraints), w) && UniqueMints(BalancesAt(bs, w))
    ensures forall w {:trigger Honest(cs.hints, w)} :: Honest(cs.hints, w) ==>
      && Honest(old(cs.hints), w)
      && (Satisfies(cs.constraints, w) <==> Satisfies(old(cs.constraints), w) && UniqueMints(BalancesAt(bs, w)))
  {
    hide Satisfies, Honest, At;
    for i := 0 to |bs|
      invariant cs.Valid() && cs.wires >= old(cs.wires) && cs.unchecked == old(cs.unchecked)
      invariant forall w {:trigger Satisfies(cs.constraints, w)} :: Satisfies(cs.constraints, w) ==>
        Satisfies(old(cs.constraints), w) && UniqueUpTo(BalancesAt(bs, w), i, 0)
      invariant forall w {:trigger Honest(cs.hints, w)} :: Honest(cs.hints, w) ==>
        && Honest(old(cs.hints), w)
        && (Satisfies(cs.constraints, w) <==> Satisfies(old(cs.constraints), w) && UniqueUpTo(BalancesAt(bs, w), i, 0))
    {
      forall w ensures UniqueUpTo(BalancesAt(bs, w), i, i + 1) <==> UniqueUpTo(BalancesAt(bs, w), i, 0) {
        UniqueRowStart(BalancesAt(bs, w), i);
      }
      for j := i + 1 to |bs|
        invariant cs.Valid() && cs.wires >= old(cs.wires) && cs.unchecked == old(cs.unchecked)
        invariant forall w {:trigger Satisfies(cs.constraints, w)} :: Satisfies(cs.constraints, w) ==>
          Satisfies(old(cs.constraints), w) && UniqueUpTo(BalancesAt(bs, w), i, j)
        invariant forall w {:trigger Honest(cs.hints, w)} :: Honest(cs.hints, w) ==>
          && Honest(old(cs.hints), w)
          && (Satisfies(cs.constraints, w) <==> Satisfies(old(cs.constraints), w) && UniqueUpTo(BalancesAt(bs, w), i, j))
      {
        ConstrainDistinct(cs, bs[i].mint, bs[j].mint);
        forall w ensures UniqueUpTo(BalancesAt(bs, w), i, j + 1) <==>
            UniqueUpTo(BalancesAt(bs, w), i, j) &&
            (At(w, bs[i].mint) == 0 || At(w, bs[i].mint) != At(w, bs[j].mint)) {
          UniqueStep(BalancesAt(bs, w), i, j);
        }
      }
      forall w ensures UniqueUpTo(BalancesAt(bs, w), i, |bs|) <==> UniqueUpTo(BalancesAt(bs, w), i + 1, 0) {
        UniqueRowEnd(BalancesAt(bs, w), i);
      }
    }
    forall w ensures UniqueUpTo(BalancesAt(bs, w), |bs|, 0) <==> UniqueMints(BalancesAt(bs, w)) {
      UniqueAll(BalancesAt(bs, w));
    }
  }

  lemma UniqueRowStart(bs: seq<Balance>, i: nat)
    ensures UniqueUpTo(bs, i, i + 1) <==> UniqueUpTo(bs, i, 0)
  {
  }

  lemma UniqueStep(bs: seq<Balance>, i: nat, j: nat)
    requires i < j < |bs|
    ensures UniqueUpTo(bs, i, j + 1) <==>
      UniqueUpTo(bs, i, j) && (bs[i].mint == 0 || bs[i].mint != bs[j].mint)
  {
  }

  lemma UniqueRowEnd(bs: seq<Balance>, i: nat)
    requires i < |bs|
    ensures UniqueUpTo(bs, i, |bs|) <==> UniqueUpTo(bs, i + 1, 0)
  {
  }

  lemma UniqueAll(bs: seq<Balance>)
    ensures UniqueUpTo(bs, |bs|, 0) <==> UniqueMints(bs)
  {
  }

  lemma MaskedProduct(p: bool, x: Elem)
    ensures Mul(Bit(p), x) == Masked(p, x)
  {
    hide Mul;
    MulOne(x);
  }

  /** The masked copy of `value`, if the two mints agree; returns the equality wire too. */
  method MaskByMint(cs: ConstraintSystem, mint: nat, other: nat, value: LC) returns (eq: nat, masked: nat)
    requires cs.Valid() && mint < cs.wires && other < cs.wires && Known(value, cs.wires)
    modifies cs
    ensures cs.Valid() && cs.wires >= old(cs.wires) && cs.unchecked == old(cs.unchecked)
    ensures eq < cs.wires && masked < cs.wires
    ensures forall w {:trigger Satisfies(cs.constraints, w)} :: Satisfies(cs.constraints, w) ==>
      && Satisfies(old(cs.constraints), w)
      && At(w, eq) == Bit(At(w, mint) == At(w, other))
      && At(w, masked) == Masked(At(w, mint) == At(w, other), Eval(value, w))
    ensures forall w {:trigger Honest(cs.hints, w)} :: Honest(cs.hints, w) ==>
      && Honest(old(cs.hints), w)
      && At(w, eq) == Bit(At(w, mint) == At(w, other))
      && At(w, masked) == Masked(At(w, mint) == At(w, other), Eval(value, w))
      && (Satisfies(old(cs.constraints), w) ==> Satisfies(cs.constraints, w))
  {
    hide Eval, Satisfies, Honest, At, Mul, Masked, Bit;
    var n := cs.wires;
    eq := Eq(cs, Wire(mint), Wire(other));
    KnownMore(value, n, cs.wires);
    var _, _, out := Multiply(cs, Wire(eq), value);
    masked := out;
    forall w ensures Eval(Wire(eq), w) == At(w, eq) && Eval(Wire(mint), w) == At(w, mint)
        && Eval(Wire(other), w) == At(w, other) {
      EvalWire(eq, w);
      EvalWire(mint, w);
      EvalWire(other, w);
    }
    forall w, p: bool ensures Mul(Bit(p), Eval(value, w)) == Masked(p, Eval(value, w)) {
      MaskedProduct(p, Eval(value, w));
    }
  }

  /** The inner loop: sums the old amounts of one mint. */
  method MatchedAmount(cs: ConstraintSystem, mint: nat, olds: seq<BalanceVar>) returns (sum: LC)
    requires cs.Valid() && mint < cs.wires && BalancesKnown(olds, cs.wires)
    modifies cs
    ensures cs.Valid() && cs.wires >= old(cs.wires) && cs.unchecked == old(cs.unchecked) && Known(sum, cs.wires)
    ensures forall w {:trigger Satisfies(cs.constraints, w)} :: Satisfies(cs.constraints, w) ==>
      && Satisfies(old(cs.constraints), w)
      && Eval(sum, w) == F(BalanceOf(BalancesAt(olds, w), At(w, mint)))
    ensures forall w {:trigger Honest(cs.hints, w)} :: Honest(cs.hints, w) ==>
      && Honest(old(cs.hints), w)
      && Eval(sum, w) == F(BalanceOf(BalancesAt(olds, w), At(w, mint)))
      && (Satisfies(old(cs.constraints), w) ==> Satisfies(cs.constraints, w))
  {
    hide Eval, Satisfies, Honest, At, Masked, Bit, F, Add;
    sum := ZERO;
    forall w ensures Eval(sum, w) == F(BalanceOf(BalancesAt(olds, w)[..0], At(w, mint))) {
      EvalOne(w);
      FSelf(0);
    }
    for j := 0 to |olds|
      invariant cs.Valid() && cs.wires >= old(cs.wires) && cs.unchecked == old(cs.unchecked) && Known(sum, cs.wires)
      invariant forall w {:trigger Satisfies(cs.constraints, w)} :: Satisfies(cs.constraints, w) ==>
        && Satisfies(old(cs.constraints), w)
        && Eval(sum, w) == F(BalanceOf(BalancesAt(olds, w)[..j], At(w, mint)))
      invariant forall w {:trigger Honest(cs.hints, w)} :: Honest(cs.hints, w) ==>
        && Honest(old(cs.hints), w)
        && Eval(sum, w) == F(BalanceOf(BalancesAt(olds, w)[..j], At(w, mint)))
        && (Satisfies(old(cs.constraints), w) ==> Satisfies(cs.constraints, w))
    {
      var n := cs.wires;
      var _, masked := MaskByMint(cs, mint, olds[j].mint, Wire(olds[j].amount));
      KnownMore(sum, n, cs.wires);
      var more := Sum(sum, Wire(masked));
      forall w | Eval(sum, w) == F(BalanceOf(BalancesAt(olds, w)[..j], At(w, mint)))
          && At(w, masked) == Masked(At(w, mint) == At(w, olds[j].mint), Eval(Wire(olds[j].amount), w))
        ensures Eval(more, w) == F(BalanceOf(BalancesAt(olds, w)[..j + 1], At(w, mint)))
      {
        EvalSum(sum, Wire(masked), w);
        EvalWire(masked, w);
        EvalWire(olds[j].amount, w);
        BalanceStep(BalancesAt(olds, w), j, At(w, mint));
      }
      sum := more;
    }
    forall w ensures BalancesAt(olds, w)[..|olds|] == BalancesAt(olds, w) {}
  }

  lemma BalanceStep(bs: seq<Balance>, j: nat, mint: Elem)
    requires j < |bs|
    ensures Add(F(BalanceOf(bs[..j], mint)), Masked(mint == bs[j].mint, bs[j].amount))
         == F(BalanceOf(bs[..j + 1], mint))
  {
    hide F, Add;
    assert bs[..j + 1][..j] == bs[..j];
    var x := Masked(mint == bs[j].mint, bs[j].amount);
    FSelf(x);
    FAdd(BalanceOf(bs[..j], mint), x);
  }

  lemma SlotStep(bs: seq<Balance>, j: nat, mint: Elem)
    requires j < |bs|
    ensures Add(F(Slots(bs[..j], mint)), Bit(bs[j].mint == mint)) == F(Slots(bs[..j + 1], mint))
  {
    hide F, Add;
    assert bs[..j + 1][..j] == bs[..j];
    var x := Bit(bs[j].mint == mint);
    FSelf(x);
    FAdd(Slots(bs[..j], mint), x);
  }

  /** One iteration of the outer loop: the new amount of one slot, and the mint-present sums. */
  method ConstrainNewBalance(cs: ConstraintSystem, nb: BalanceVar, olds: seq<BalanceVar>,
      internal: InternalVar, external: ExternalVar, term: LC, extPresent: LC, intPresent: LC)
    returns (extPresent': LC, intPresent': LC)
    requires cs.Valid() && nb.mint < cs.wires && nb.amount < cs.wires && BalancesKnown(olds, cs.wires)
    requires internal.mint < cs.wires && internal.volume < cs.wires && external.mint < cs.wires
    requires Known(term, cs.wires) && Known(extPresent, cs.wires) && Known(intPresent, cs.wires)
    modifies cs
    ensures cs.Valid() && cs.wires >= old(cs.wires)
    ensures Known(extPresent', cs.wires) && Known(intPresent', cs.wires)
    ensures forall w {:trigger Plausible(cs.unchecked, w)} :: Plausible(cs.unchecked, w) ==> Plausible(old(cs.unchecked), w)
    ensures forall w {:trigger Satisfies(cs.constraints, w)} :: Satisfies(cs.constraints, w) ==>
      && Satisfies(old(cs.constraints), w)
      && Eval(extPresent', w) == Add(Eval(extPresent, w), Bit(At(w, nb.mint) == At(w, external.mint)))
      && Eval(intPresent', w) == Add(Eval(intPresent, w), Bit(At(w, nb.mint) == At(w, internal.mint)))
      && At(w, nb.amount) == NewAmount(olds, nb, internal, external, term, w)
      && (Plausible(cs.unchecked, w) ==> At(w, nb.amount) as int < Pow2(64))
    ensures forall w {:trigger Honest(cs.hints, w)} :: Honest(cs.hints, w) ==>
      && Honest(old(cs.hints), w)
      && Eval(extPresent', w) == Add(Eval(extPresent, w), Bit(At(w, nb.mint) == At(w, external.mint)))
      && Eval(intPresent', w) == Add(Eval(intPresent, w), Bit(At(w, nb.mint) == At(w, internal.mint)))
      && (Satisfies(cs.constraints, w) <==>
            && Satisfies(old(cs.constraints), w)
            && At(w, nb.amount) == NewAmount(olds, nb, internal, external, term, w)
            && At(w, nb.amount) as int < Pow2(64))
  {
    hide Eval, Satisfies, Honest, At, Masked, Bit, F, Add, Sub, Plausible, Pow2, BalanceOf;
    var n := cs.wires;
    var matched := MatchedAmount(cs, nb.mint, olds);
    KnownMore(term, n, cs.wires);
    var m := cs.wires;
    var eqExt, extMasked := MaskByMint(cs, nb.mint, external.mint, term);
    var eqInt, intMasked := MaskByMint(cs, nb.mint, internal.mint, Wire(internal.volume));
    KnownMore(matched, m, cs.wires);
    var expected := Diff(Sum(matched, Wire(extMasked)), Wire(intMasked));
    cs.Constrain(Diff(Wire(nb.amount), expected));
    var _ := ConstrainRange(cs, Wire(nb.amount), 64);
    KnownMore(extPresent, n, cs.wires);
    KnownMore(intPresent, n, cs.wires);
    extPresent' := Sum(extPresent, Wire(eqExt));
    intPresent' := Sum(intPresent, Wire(eqInt));
    forall w
      ensures Eval(expected, w) == Sub(Add(Eval(matched, w), At(w, extMasked)), At(w, intMasked))
      ensures Eval(Diff(Wire(nb.amount), expected), w) == 0 <==> At(w, nb.amount) == Eval(expected, w)
      ensures Eval(extPresent', w) == Add(Eval(extPresent, w), At(w, eqExt))
      ensures Eval(intPresent', w) == Add(Eval(intPresent, w), At(w, eqInt))
      ensures Eval(Wire(nb.amount), w) == At(w, nb.amount)
      ensures Eval(Wire(internal.volume), w) == At(w, internal.volume)
    {
      EvalDiff(Sum(matched, Wire(extMasked)), Wire(intMasked), w);
      EvalSum(matched, Wire(extMasked), w);
      EvalWire(extMasked, w);
      EvalWire(intMasked, w);
      EvalDiff(Wire(nb.amount), expected, w);
      EvalWire(nb.amount, w);
      EvalSum(extPresent, Wire(eqExt), w);
      EvalSum(intPresent, Wire(eqInt), w);
      EvalWire(eqExt, w);
      EvalWire(eqInt, w);
      EvalWire(internal.volume, w);
    }
  }

  /** The expected amount, with the transfer term still a combination of wires. */
  function NewAmount(olds: seq<BalanceVar>, nb: BalanceVar, internal: InternalVar, external: ExternalVar,
      term: LC, w: Assignment): Elem
  {
    Sub(Add(F(BalanceOf(BalancesAt(olds, w), At(w, nb.mint))),
            Masked(At(w, nb.mint) == At(w, external.mint), Eval(term, w))),
        Masked(At(w, nb.mint) == At(w, internal.mint), At(w, internal.volume)))
  }

  /** The closing checks: exempt, or the mint occurs exactly once. */
  method ConstrainPresence(cs: ConstraintSystem, exempt: nat, present: LC)
    requires cs.Valid() && exempt < cs.wires && Known(present, cs.wires)
    modifies cs
    ensures cs.Valid() && cs.wires >= old(cs.wires) && cs.unchecked == old(cs.unchecked)
    ensures forall w {:trigger Satisfies(cs.constraints, w)} :: Satisfies(cs.constraints, w) ==>
      Satisfies(old(cs.constraints), w) && (At(w, exempt) == 1 || Eval(present, w) == 1)
    ensures forall w {:trigger Honest(cs.hints, w)} :: Honest(cs.hints, w) ==>
      && Honest(old(cs.hints), w)
      && (Satisfies(cs.constraints, w) <==>
          Satisfies(old(cs.constraints), w) && (At(w, exempt) == 1 || Eval(present, w) == 1))
  {
    hide Eval, Satisfies, Honest, At;
    var or := Or(cs, Wire(exempt), present);
    cs.Constrain(Diff(ONE, or));
    forall w ensures (Eval(Diff(ONE, or), w) == 0 <==> Eval(or, w) == 1) && Eval(Wire(exempt), w) == At(w, exempt) {
      EvalDiff(ONE, or, w);
      EvalOne(w);
      EvalWire(exempt, w);
    }
  }

  ghost predicate TransfersKnown(internal: InternalVar, external: ExternalVar, n: nat) {
    internal.mint < n && internal.volume < n && external.mint < n && external.volume < n && external.direction < n
  }

  /** The first k slots of the new wallet are as expected. */
  ghost predicate AppliedUpTo(new_: seq<Balance>, old_: seq<Balance>, internal: Internal, external: External, k: nat) {
    forall i :: 0 <= i < |new_| && i < k ==>
      new_[i].amount == ExpectedAmount(old_, new_[i].mint, internal, external)
  }

  ghost predicate BelowUpTo(bs: seq<Balance>, bound: nat, k: nat) {
    forall i :: 0 <= i < |bs| && i < k ==> bs[i].amount as int < bound
  }

  lemma EvalExternalTerm(external: ExternalVar, term: LC, w: Assignment)
    requires Eval(term, w) == Selected(Eval(Diff(ZERO, Wire(external.volume)), w),
      Eval(Wire(external.volume), w), Eval(Wire(external.direction), w))
    ensures Eval(term, w) == ExternalTerm(ExternalAt(external, w))
  {
    hide Selected, Sub, F;
    EvalWire(external.volume, w);
    EvalWire(external.direction, w);
    EvalDiff(ZERO, Wire(external.volume), w);
    EvalOne(w);
    SubFromZero(At(w, external.volume));
  }

  lemma SubFromZero(a: Elem)
    ensures Sub(0, a) == Neg(a)
  {
  }

  /** validate_transfers. */
  method ValidateTransfers(cs: ConstraintSystem, news: seq<BalanceVar>, olds: seq<BalanceVar>,
      internal: InternalVar, external: ExternalVar)
    requires cs.Valid() && BalancesKnown(news, cs.wires) && BalancesKnown(olds, cs.wires)
    requires TransfersKnown(internal, external, cs.wires)
    modifies cs
    ensures cs.Valid() && cs.wires >= old(cs.wires)
    ensures forall w {:trigger Satisfies(cs.constraints, w)} :: Satisfies(cs.constraints, w) ==>
      && Satisfies(old(cs.constraints), w)
      && TransfersApplied(BalancesAt(news, w), BalancesAt(olds, w), InternalAt(internal, w), ExternalAt(external, w))
      && (Plausible(cs.unchecked, w) ==> AmountsBelow(BalancesAt(news, w), Pow2(64)))
    ensures forall w {:trigger Honest(cs.hints, w)} :: Honest(cs.hints, w) ==>
      && Honest(old(cs.hints), w)
      && (Satisfies(cs.constraints, w) <==>
            && Satisfies(old(cs.constraints), w)
            && TransfersApplied(BalancesAt(news, w), BalancesAt(olds, w), InternalAt(internal, w), ExternalAt(external, w))
            && AmountsBelow(BalancesAt(news, w), Pow2(64)))
  {
    hide Eval, Satisfies, Honest, At, Masked, Bit, F, Add, Sub, Neg, Selected, ExternalTerm, ExpectedAmount, NewAmount,
      Plausible, Pow2, Slots, UniqueMints;
    ConstrainUniqueMints(cs, news);
    var term := Select(cs, Diff(ZERO, Wire(external.volume)), Wire(external.volume), Wire(external.direction));
    forall w | Eval(term, w) == Selected(Eval(Diff(ZERO, Wire(external.volume)), w),
        Eval(Wire(external.volume), w), Eval(Wire(external.direction), w))
      ensures Eval(term, w) == ExternalTerm(ExternalAt(external, w)) { EvalExternalTerm(external, term, w); }
    var extPresent, intPresent := ZERO, ZERO;
    forall w, m ensures Eval(ZERO, w) == F(Slots(BalancesAt(news, w)[..0], m)) { EvalOne(w); NoSlots(m); }
    for i := 0 to |news|
      invariant cs.Valid() && cs.wires >= old(cs.wires)
      invariant Known(term, cs.wires) && Known(extPresent, cs.wires) && Known(intPresent, cs.wires)
      invariant forall w {:trigger Satisfies(cs.constraints, w)} :: Satisfies(cs.constraints, w) ==>
        && Satisfies(old(cs.constraints), w) && UniqueMints(BalancesAt(news, w))
        && Eval(term, w) == ExternalTerm(ExternalAt(external, w))
        && Eval(extPresent, w) == F(Slots(BalancesAt(news, w)[..i], At(w, external.mint)))
        && Eval(intPresent, w) == F(Slots(BalancesAt(news, w)[..i], At(w, internal.mint)))
        && AppliedUpTo(BalancesAt(news, w), BalancesAt(olds, w), InternalAt(internal, w), ExternalAt(external, w), i)
        && (Plausible(cs.unchecked, w) ==> BelowUpTo(BalancesAt(news, w), Pow2(64), i))
      invariant forall w {:trigger Honest(cs.hints, w)} :: Honest(cs.hints, w) ==>
        && Honest(old(cs.hints), w)
        && Eval(term, w) == ExternalTerm(ExternalAt(external, w))
        && Eval(extPresent, w) == F(Slots(BalancesAt(news, w)[..i], At(w, external.mint)))
        && Eval(intPresent, w) == F(Slots(BalancesAt(news, w)[..i], At(w, internal.mint)))
        && (Satisfies(cs.constraints, w) <==>
              && Satisfies(old(cs.constraints), w) && UniqueMints(BalancesAt(news, w))
              && AppliedUpTo(BalancesAt(news, w), BalancesAt(olds, w), InternalAt(internal, w), ExternalAt(external, w), i)
              && BelowUpTo(BalancesAt(news, w), Pow2(64), i))
    {
      var n := cs.wires;
      var ext, int_ := ConstrainNewBalance(cs, news[i], olds, internal, external, term, extPresent, intPresent);
      KnownMore(term, n, cs.wires);
      forall w | Eval(term, w) == ExternalTerm(ExternalAt(external, w))
        ensures NewAmount(olds, news[i], internal, external, term, w) ==
          ExpectedAmount(BalancesAt(olds, w), At(w, news[i].mint), InternalAt(internal, w), ExternalAt(external, w))
      { NewAmountIsExpected(olds, news[i], internal, external, term, w); }
      forall w, m
        ensures Add(F(Slots(BalancesAt(news, w)[..i], m)), Bit(At(w, news[i].mint) == m)) == F(Slots(BalancesAt(news, w)[..i + 1], m))
      { SlotStep(BalancesAt(news, w), i, m); }
      extPresent, intPresent := ext, int_;
    }
    ConstrainMintsPresent(cs, internal, external, intPresent, extPresent);
    forall w ensures BalancesAt(news, w)[..|news|] == BalancesAt(news, w) {}
  }

  /** The closing checks: outgoing mints must have a slot in the new wallet. */
  method ConstrainMintsPresent(cs: ConstraintSystem, internal: InternalVar, external: ExternalVar,
      intPresent: LC, extPresent: LC)
    requires cs.Valid() && TransfersKnown(internal, external, cs.wires)
    requires Known(intPresent, cs.wires) && Known(extPresent, cs.wires)
    modifies cs
    ensures cs.Valid() && cs.wires >= old(cs.wires) && cs.unchecked == old(cs.unchecked)
    ensures forall w {:trigger Satisfies(cs.constraints, w)} :: Satisfies(cs.constraints, w) ==>
      && Satisfies(old(cs.constraints), w)
      && (At(w, internal.mint) == 0 || Eval(intPresent, w) == 1)
      && (At(w, external.direction) == 0 || Eval(extPresent, w) == 1)
    ensures forall w {:trigger Honest(cs.hints, w)} :: Honest(cs.hints, w) ==>
      && Honest(old(cs.hints), w)
      && (Satisfies(cs.constraints, w) <==>
            && Satisfies(old(cs.constraints), w)
            && (At(w, internal.mint) == 0 || Eval(intPresent, w) == 1)
            && (At(w, external.direction) == 0 || Eval(extPresent, w) == 1))
  {
    hide Eval, Satisfies, Honest, At, Bit;
    var m := cs.wires;
    var noInternal := EqZero(cs, Wire(internal.mint));
    KnownMore(intPresent, m, cs.wires);
    ConstrainPresence(cs, noInternal, intPresent);
    var isDeposit := Eq(cs, Wire(external.direction), ZERO);
    KnownMore(extPresent, m, cs.wires);
    ConstrainPresence(cs, isDeposit, extPresent);
    forall w
      ensures Eval(Wire(internal.mint), w) == At(w, internal.mint)
      ensures Eval(Wire(external.direction), w) == At(w, external.direction) && Eval(ZERO, w) == 0
    {
      EvalWire(internal.mint, w);
      EvalWire(external.direction, w);
      EvalOne(w);
    }
    forall p: bool ensures Bit(p) == 1 <==> p { BitOne(p); }
  }

  lemma BitOne(p: bool)
    ensures Bit(p) == 1 <==> p
  {
  }

  lemma NoSlots(mint: Elem)
    ensures F(Slots([], mint)) == 0
  {
    FSelf(0);
  }

  lemma NewAmountIsExpected(olds: seq<BalanceVar>, nb: BalanceVar, internal: InternalVar, external: ExternalVar,
      term: LC, w: Assignment)
    requires Eval(term, w) == ExternalTerm(ExternalAt(external, w))
    ensures NewAmount(olds, nb, internal, external, term, w) ==
      ExpectedAmount(BalancesAt(olds, w), At(w, nb.mint), InternalAt(internal, w), ExternalAt(external, w))
  {
    hide Sub, Add, F, Eval, ExternalTerm, BalanceOf, At;
  }

  // ---- orders --------------------------------------------------------------------------

  datatype Order = Order(quoteMint: Elem, baseMint: Elem, side: Elem, amount: Elem, price: Elem, timestamp: Elem)

  datatype OrderVar = OrderVar(quoteMint: nat, baseMint: nat, side: nat, amount: nat, price: nat, timestamp: nat)

  function OrderAt(o: OrderVar, w: Assignment): Order {
    Order(At(w, o.quoteMint), At(w, o.baseMint), At(w, o.side), At(w, o.amount), At(w, o.price), At(w, o.timestamp))
  }

  function OrdersAt(os: seq<OrderVar>, w: Assignment): (r: seq<Order>)
    ensures |r| == |os|
    ensures forall i :: 0 <= i < |os| ==> r[i] == OrderAt(os[i], w)
  {
    seq(|os|, i requires 0 <= i < |os| => OrderAt(os[i], w))
  }

  ghost predicate OrderKnown(o: OrderVar, n: nat) {
    o.quoteMint < n && o.baseMint < n && o.side < n && o.amount < n && o.price < n && o.timestamp < n
  }

  ghost predicate OrdersKnown(os: seq<OrderVar>, n: nat) {
    forall i :: 0 <= i < |os| ==> OrderKnown(os[i], n)
  }

  function Fields(o: OrderVar): seq<LC> {
    [Wire(o.quoteMint), Wire(o.baseMint), Wire(o.side), Wire(o.amount), Wire(o.price)]
  }

  const EMPTY_FIELDS := [ZERO, ZERO, ZERO, ZERO, ZERO]

  /** The order with its timestamp erased. */
  function Untimed(o: Order): Order {
    o.(timestamp := 0)
  }

  const EMPTY_ORDER := Order(0, 0, 0, 0, 0, 0)

  lemma FieldsEqual(a: OrderVar, b: OrderVar, w: Assignment)
    ensures Evals(Fields(a), w) == Evals(Fields(b), w) <==> Untimed(OrderAt(a, w)) == Untimed(OrderAt(b, w))
    ensures Evals(Fields(a), w) == Evals(EMPTY_FIELDS, w) <==> Untimed(OrderAt(a, w)) == EMPTY_ORDER
  {
    hide At;
    var x, y, z := Evals(Fields(a), w), Evals(Fields(b), w), Evals(EMPTY_FIELDS, w);
    assert x == [At(w, a.quoteMint), At(w, a.baseMint), At(w, a.side), At(w, a.amount), At(w, a.price)];
    assert y == [At(w, b.quoteMint), At(w, b.baseMint), At(w, b.side), At(w, b.amount), At(w, b.price)];
    assert z == [0, 0, 0, 0, 0];
  }

  /** The order's timestamp stays if nothing else changed and becomes `now` if something did. */
  ghost predicate TimestampRule(new_: Order, old_: Order, now: Elem) {
    if Untimed(new_) == Untimed(old_) then new_.timestamp == old_.timestamp else new_.timestamp == now
  }

  /** One iteration of constrain_updated_order_timestamps. */
  method ConstrainTimestamp(cs: ConstraintSystem, order: OrderVar, oldOrder: OrderVar, now: nat)
    requires cs.Valid() && OrderKnown(order, cs.wires) && OrderKnown(oldOrder, cs.wires) && now < cs.wires
    modifies cs
    ensures cs.Valid() && cs.wires >= old(cs.wires) && cs.unchecked == old(cs.unchecked)
    ensures forall w {:trigger Satisfies(cs.constraints, w)} :: Satisfies(cs.constraints, w) ==>
      Satisfies(old(cs.constraints), w) && TimestampRule(OrderAt(order, w), OrderAt(oldOrder, w), At(w, now))
    ensures forall w {:trigger Honest(cs.hints, w)} :: Honest(cs.hints, w) ==>
      && Honest(old(cs.hints), w)
      && (Satisfies(cs.constraints, w) <==>
          Satisfies(old(cs.constraints), w) && TimestampRule(OrderAt(order, w), OrderAt(oldOrder, w), At(w, now)))
  {
    hide Eval, Satisfies, Honest, At, Bit, Mul, Evals;
    var same := EqVec(cs, Fields(order), Fields(oldOrder));
    var kept := Eq(cs, Wire(order.timestamp), Wire(oldOrder.timestamp));
    var updated := Eq(cs, Wire(order.timestamp), Wire(now));
    var _, _, sameAndKept := Multiply(cs, Wire(same), Wire(kept));
    var _, _, changedAndUpdated := Multiply(cs, Diff(ONE, Wire(same)), Wire(updated));
    var or := Or(cs, Wire(changedAndUpdated), Wire(sameAndKept));
    cs.Constrain(Diff(ONE, or));
    forall w
      ensures Eval(Wire(order.timestamp), w) == At(w, order.timestamp)
      ensures Eval(Wire(oldOrder.timestamp), w) == At(w, oldOrder.timestamp)
      ensures Eval(Wire(now), w) == At(w, now) && Eval(Wire(same), w) == At(w, same)
      ensures Eval(Wire(kept), w) == At(w, kept) && Eval(Wire(updated), w) == At(w, updated)
      ensures Eval(Wire(changedAndUpdated), w) == At(w, changedAndUpdated)
      ensures Eval(Wire(sameAndKept), w) == At(w, sameAndKept)
      ensures Eval(Diff(ONE, or), w) == 0 <==> Eval(or, w) == 1
      ensures Evals(Fields(order), w) == Evals(Fields(oldOrder), w) <==>
        Untimed(OrderAt(order, w)) == Untimed(OrderAt(oldOrder, w))
    {
      EvalWire(order.timestamp, w);
      EvalWire(oldOrder.timestamp, w);
      EvalWire(now, w);
      EvalWire(same, w);
      EvalWire(kept, w);
      EvalWire(updated, w);
      EvalWire(changedAndUpdated, w);
      EvalWire(sameAndKept, w);
      EvalDiff(ONE, or, w);
      EvalOne(w);
      FieldsEqual(order, oldOrder, w);
    }
    forall w | Satisfies(cs.constraints, w) || Honest(cs.hints, w)
      ensures Eval(or, w) == 1 <==> TimestampRule(OrderAt(order, w), OrderAt(oldOrder, w), At(w, now))
    {
      var same', kept', updated' := Untimed(OrderAt(order, w)) == Untimed(OrderAt(oldOrder, w)),
        At(w, order.timestamp) == At(w, oldOrder.timestamp), At(w, order.timestamp) == At(w, now);
      assert At(w, same) == Bit(same');
      ComplementEval(same, same', w);
      BitProduct(same', kept');
      BitProduct(!same', updated');
    }
  }

  lemma BitProduct(p: bool, q: bool)
    ensures Mul(Bit(p), Bit(q)) == 1 <==> p && q
  {
    hide Mul;
    MulOne(Bit(q));
  }

  /** The rule for the first k orders. */
  ghost predicate TimestampsUpTo(news: seq<Order>, olds: seq<Order>, now: Elem, k: nat)
    requires k <= |news| <= |olds|
  {
    forall i :: 0 <= i < k ==> TimestampRule(news[i], olds[i], now)
  }

  method ConstrainTimestamps(cs: ConstraintSystem, news: seq<OrderVar>, olds: seq<OrderVar>, now: nat)
    requires cs.Valid() && |news| <= |olds| && OrdersKnown(news, cs.wires) && OrdersKnown(olds, cs.wires) && now < cs.wires
    modifies cs
    ensures cs.Valid() && cs.wires >= old(cs.wires) && cs.unchecked == old(cs.unchecked)
    ensures forall w {:trigger Satisfies(cs.constraints, w)} :: Satisfies(cs.constraints, w) ==>
      && Satisfies(old(cs.constraints), w)
      && TimestampsUpTo(OrdersAt(news, w), OrdersAt(olds, w), At(w, now), |news|)
    ensures forall w {:trigger Honest(cs.hints, w)} :: Honest(cs.hints, w) ==>
      && Honest(old(cs.hints), w)
      && (Satisfies(cs.constraints, w) <==>
            && Satisfies(old(cs.constraints), w)
            && TimestampsUpTo(OrdersAt(news, w), OrdersAt(olds, w), At(w, now), |news|))
  {
    hide Satisfies, Honest, At, TimestampRule;
    for k := 0 to |news|
      invariant cs.Valid() && cs.wires >= old(cs.wires) && cs.unchecked == old(cs.unchecked)
      invariant forall w {:trigger Satisfies(cs.constraints, w)} :: Satisfies(cs.constraints, w) ==>
        && Satisfies(old(cs.constraints), w)
        && TimestampsUpTo(OrdersAt(news, w), OrdersAt(olds, w), At(w, now), k)
      invariant forall w {:trigger Honest(cs.hints, w)} :: Honest(cs.hints, w) ==>
        && Honest(old(cs.hints), w)
        && (Satisfies(cs.constraints, w) <==>
              && Satisfies(old(cs.constraints), w)
              && TimestampsUpTo(OrdersAt(news, w), OrdersAt(olds, w), At(w, now), k))
    {
      ConstrainTimestamp(cs, news[k], olds[k], now);
      forall w ensures TimestampsUpTo(OrdersAt(news, w), OrdersAt(olds, w), At(w, now), k + 1) <==>
          (TimestampsUpTo(OrdersAt(news, w), OrdersAt(olds, w), At(w, now), k) &&
           TimestampRule(OrderAt(news[k], w), OrderAt(olds[k], w), At(w, now))) {}
    }
  }

  /** Asset pairs are pairwise distinct, except that empty orders may repeat. */
  ghost predicate PairsDistinct(a: Order, b: Order) {
    Untimed(a) == EMPTY_ORDER || a.quoteMint != b.quoteMint || a.baseMint != b.baseMint
  }

  /** One pair of constrain_unique_order_pairs; `empty` tests the first order. */
  method ConstrainPair(cs: ConstraintSystem, a: OrderVar, b: OrderVar, empty: nat)
    requires cs.Valid() && OrderKnown(a, cs.wires) && OrderKnown(b, cs.wires) && empty < cs.wires
    requires forall w {:trigger Satisfies(cs.constraints, w)} ::
      Satisfies(cs.constraints, w) ==> At(w, empty) == Bit(Untimed(OrderAt(a, w)) == EMPTY_ORDER)
    requires forall w {:trigger Honest(cs.hints, w)} ::
      Honest(cs.hints, w) ==> At(w, empty) == Bit(Untimed(OrderAt(a, w)) == EMPTY_ORDER)
    modifies cs
    ensures cs.Valid() && cs.wires >= old(cs.wires) && cs.unchecked == old(cs.unchecked)
    ensures forall w {:trigger Satisfies(cs.constraints, w)} :: Satisfies(cs.constraints, w) ==>
      Satisfies(old(cs.constraints), w) && PairsDistinct(OrderAt(a, w), OrderAt(b, w))
    ensures forall w {:trigger Honest(cs.hints, w)} :: Honest(cs.hints, w) ==>
      && Honest(old(cs.hints), w)
      && (Satisfies(cs.constraints, w) <==>
          Satisfies(old(cs.constraints), w) && PairsDistinct(OrderAt(a, w), OrderAt(b, w)))
  {
    hide Eval, Satisfies, Honest, At, Bit, Mul, Evals;
    var pa, pb := [Wire(a.quoteMint), Wire(a.baseMint)], [Wire(b.quoteMint), Wire(b.baseMint)];
    var eq := EqVec(cs, pa, pb);
    var _, _, poly := Multiply(cs, Wire(eq), Diff(ONE, Wire(empty)));
    cs.Constrain(Wire(poly));
    forall w
      ensures Eval(Wire(eq), w) == At(w, eq) && Eval(Wire(poly), w) == At(w, poly)
      ensures Evals(pa, w) == Evals(pb, w) <==>
        At(w, a.quoteMint) == At(w, b.quoteMint) && At(w, a.baseMint) == At(w, b.baseMint)
    {
      EvalWire(eq, w);
      EvalWire(poly, w);
      WirePairs(a.quoteMint, a.baseMint, b.quoteMint, b.baseMint, w);
    }
    forall w, p: bool | At(w, empty) == Bit(p) ensures Eval(Diff(ONE, Wire(empty)), w) == Bit(!p) {
      ComplementEval(empty, p, w);
    }
    forall p: bool, q: bool ensures Mul(Bit(p), Bit(q)) == 0 <==> !p || !q {
      ProductZero(Bit(p), Bit(q));
      BitZero(p);
      BitZero(q);
    }
    forall w | Satisfies(cs.constraints, w) ensures PairsDistinct(OrderAt(a, w), OrderAt(b, w)) {
      assert Eval(Wire(poly), w) == 0;
    }
    forall w | Honest(cs.hints, w)
      ensures Eval(Wire(poly), w) == 0 <==> PairsDistinct(OrderAt(a, w), OrderAt(b, w))
    {
      assert At(w, empty) == Bit(Untimed(OrderAt(a, w)) == EMPTY_ORDER);
      assert Eval(Diff(ONE, Wire(empty)), w) == Bit(Untimed(OrderAt(a, w)) != EMPTY_ORDER);
    }
  }

  lemma BitZero(p: bool)
    ensures Bit(p) == 0 <==> !p
  {
  }

  /** All pairs before (i, j) in the order of the nested loops. */
  ghost predicate PairsUpTo(os: seq<Order>, i: nat, j: nat) {
    forall k, l :: 0 <= k < l < |os| && (k < i || (k == i && l < j)) ==> PairsDistinct(os[k], os[l])
  }

  ghost predicate UniquePairs(os: seq<Order>) {
    forall k, l :: 0 <= k < l < |os| ==> PairsDistinct(os[k], os[l])
  }

  method ConstrainUniquePairs(cs: ConstraintSystem, os: seq<OrderVar>)
    requires cs.Valid() && OrdersKnown(os, cs.wires)
    modifies cs
    ensures cs.Valid() && cs.wires >= old(cs.wires) && cs.unchecked == old(cs.unchecked)
    ensures forall w {:trigger Satisfies(cs.constraints, w)} :: Satisfies(cs.constraints, w) ==>
      Satisfies(old(cs.constraints), w) && UniquePairs(OrdersAt(os, w))
    ensures forall w {:trigger Honest(cs.hints, w)} :: Honest(cs.hints, w) ==>
      && Honest(old(cs.hints), w)
      && (Satisfies(cs.constraints, w) <==> Satisfies(old(cs.constraints), w) && UniquePairs(OrdersAt(os, w)))
  {
    hide Satisfies, Honest, At, PairsUpTo, UniquePairs, PairsDistinct, Evals, Bit, Untimed;
    forall w ensures PairsUpTo(OrdersAt(os, w), 0, 0) { NoPairs(OrdersAt(os, w)); }
    for i := 0 to |os|
      invariant cs.Valid() && cs.wires >= old(cs.wires) && cs.unchecked == old(cs.unchecked)
      invariant forall w {:trigger Satisfies(cs.constraints, w)} :: Satisfies(cs.constraints, w) ==>
        Satisfies(old(cs.constraints), w) && PairsUpTo(OrdersAt(os, w), i, 0)
      invariant forall w {:trigger Honest(cs.hints, w)} :: Honest(cs.hints, w) ==>
        && Honest(old(cs.hints), w)
        && (Satisfies(cs.constraints, w) <==> Satisfies(old(cs.constraints), w) && PairsUpTo(OrdersAt(os, w), i, 0))
    {
      var empty := EqVec(cs, Fields(os[i]), EMPTY_FIELDS);
      forall w
        ensures PairsUpTo(OrdersAt(os, w), i, i + 1) <==> PairsUpTo(OrdersAt(os, w), i, 0)
        ensures Evals(Fields(os[i]), w) == Evals(EMPTY_FIELDS, w) <==> Untimed(OrderAt(os[i], w)) == EMPTY_ORDER
      {
        FieldsEqual(os[i], os[i], w);
        PairRowStart(OrdersAt(os, w), i);
      }
      for j := i + 1 to |os|
        invariant cs.Valid() && cs.wires >= old(cs.wires) && cs.unchecked == old(cs.unchecked) && empty < cs.wires
        invariant forall w {:trigger Satisfies(cs.constraints, w)} :: Satisfies(cs.constraints, w) ==>
          && At(w, empty) == Bit(Untimed(OrderAt(os[i], w)) == EMPTY_ORDER)
          && Satisfies(old(cs.constraints), w) && PairsUpTo(OrdersAt(os, w), i, j)
        invariant forall w {:trigger Honest(cs.hints, w)} :: Honest(cs.hints, w) ==>
          && At(w, empty) == Bit(Untimed(OrderAt(os[i], w)) == EMPTY_ORDER)
          && Honest(old(cs.hints), w)
          && (Satisfies(cs.constraints, w) <==> Satisfies(old(cs.constraints), w) && PairsUpTo(OrdersAt(os, w), i, j))
      {
        ConstrainPair(cs, os[i], os[j], empty);
        forall w ensures PairsUpTo(OrdersAt(os, w), i, j + 1) <==>
            PairsUpTo(OrdersAt(os, w), i, j) && PairsDistinct(OrderAt(os[i], w), OrderAt(os[j], w)) {
          PairStep(OrdersAt(os, w), i, j);
        }
      }
      forall w ensures PairsUpTo(OrdersAt(os, w), i, |os|) <==> PairsUpTo(OrdersAt(os, w), i + 1, 0) {
        PairRowEnd(OrdersAt(os, w), i);
      }
    }
    forall w ensures PairsUpTo(OrdersAt(os, w), |os|, 0) <==> UniquePairs(OrdersAt(os, w)) {
      PairsAll(OrdersAt(os, w));
    }
  }

  lemma NoPairs(os: seq<Order>)
    ensures PairsUpTo(os, 0, 0)
  {
  }

  lemma PairRowStart(os: seq<Order>, i: nat)
    ensures PairsUpTo(os, i, i + 1) <==> PairsUpTo(os, i, 0)
  {
    hide PairsDistinct;
  }

  lemma PairStep(os: seq<Order>, i: nat, j: nat)
    requires i < j < |os|
    ensures PairsUpTo(os, i, j + 1) <==> PairsUpTo(os, i, j) && PairsDistinct(os[i], os[j])
  {
    hide PairsDistinct;
  }

  lemma PairRowEnd(os: seq<Order>, i: nat)
    requires i < |os|
    ensures PairsUpTo(os, i, |os|) <==> PairsUpTo(os, i + 1, 0)
  {
    hide PairsDistinct;
  }

  lemma PairsAll(os: seq<Order>)
    ensures PairsUpTo(os, |os|, 0) <==> UniquePairs(os)
  {
    hide PairsDistinct;
  }

  // ---- the whole statement -------------------------------------------------------------

  datatype Keys = Keys(root: Elem, match_: Elem, settle: Elem, view: Elem)

  datatype KeyVars = KeyVars(root: nat, match_: nat, settle: nat, view: nat)

  /** A wallet; fees are left out, no constraint of an update mentions them. */
  datatype Wallet = Wallet(balances: seq<Balance>, orders: seq<Order>, keys: Keys, randomness: Elem)

  datatype WalletVar = WalletVar(balances: seq<BalanceVar>, orders: seq<OrderVar>, keys: KeyVars, randomness: nat)

  function KeysAt(k: KeyVars, w: Assignment): Keys {
    Keys(At(w, k.root), At(w, k.match_), At(w, k.settle), At(w, k.view))
  }

  function WalletAt(v: WalletVar, w: Assignment): Wallet {
    Wallet(BalancesAt(v.balances, w), OrdersAt(v.orders, w), KeysAt(v.keys, w), At(w, v.randomness))
  }

  ghost predicate KeysKnown(k: KeyVars, n: nat) {
    k.root < n && k.match_ < n && k.settle < n && k.view < n
  }

  ghost predicate WalletKnown(v: WalletVar, n: nat) {
    BalancesKnown(v.balances, n) && OrdersKnown(v.orders, n) && KeysKnown(v.keys, n) && v.randomness < n
  }

  /** What an accepted update says about the two wallets, besides the range of the new amounts. */
  ghost predicate UpdateApplied(old_: Wallet, new_: Wallet, now: Elem, internal: Internal, external: External) {
    && old_.keys == new_.keys
    && new_.randomness == Add(old_.randomness, 2)
    && IsBit(external.direction)
    && TransfersApplied(new_.balances, old_.balances, internal, external)
    && UniquePairs(new_.orders)
    && |new_.orders| <= |old_.orders| && TimestampsUpTo(new_.orders, old_.orders, now, |new_.orders|)
  }

  method ConstrainKeysEqual(cs: ConstraintSystem, a: KeyVars, b: KeyVars)
    requires cs.Valid()
    modifies cs
    ensures cs.Valid() && cs.wires == old(cs.wires) && cs.hints == old(cs.hints) && cs.unchecked == old(cs.unchecked)
    ensures forall w {:trigger Satisfies(cs.constraints, w)} ::
      Satisfies(cs.constraints, w) <==> Satisfies(old(cs.constraints), w) && KeysAt(a, w) == KeysAt(b, w)
  {
    hide Satisfies, At;
    ConstrainEqual(cs, Wire(a.root), Wire(b.root));
    ConstrainEqual(cs, Wire(a.match_), Wire(b.match_));
    ConstrainEqual(cs, Wire(a.settle), Wire(b.settle));
    ConstrainEqual(cs, Wire(a.view), Wire(b.view));
  }

  /** ConstrainBinaryGadget: x (1 - x) == 0. */
  method ConstrainBinary(cs: ConstraintSystem, x: nat)
    requires cs.Valid() && x < cs.wires
    modifies cs
    ensures cs.Valid() && cs.wires >= old(cs.wires) && cs.unchecked == old(cs.unchecked)
    ensures forall w {:trigger Satisfies(cs.constraints, w)} :: Satisfies(cs.constraints, w) ==>
      Satisfies(old(cs.constraints), w) && IsBit(At(w, x))
    ensures forall w {:trigger Honest(cs.hints, w)} :: Honest(cs.hints, w) ==>
      && Honest(old(cs.hints), w)
      && (Satisfies(cs.constraints, w) <==> Satisfies(old(cs.constraints), w) && IsBit(At(w, x)))
  {
    hide Eval, Satisfies, Honest, At, Mul;
    var _, _, poly := Multiply(cs, Wire(x), Diff(ONE, Wire(x)));
    cs.Constrain(Wire(poly));
    forall w
      ensures Eval(Wire(poly), w) == At(w, poly)
      ensures Mul(Eval(Wire(x), w), Eval(Diff(ONE, Wire(x)), w)) == 0 <==> IsBit(At(w, x))
    {
      EvalWire(poly, w);
      EvalWire(x, w);
      EvalDiff(ONE, Wire(x), w);
      EvalOne(w);
      ProductZero(Eval(Wire(x), w), Eval(Diff(ONE, Wire(x)), w));
    }
  }

  lemma EvalPlusTwo(r: nat, w: Assignment)
    ensures Eval(Sum(Wire(r), Const(2)), w) == Add(At(w, r), 2)
  {
  }

  /** ValidWalletUpdate::circuit, without the commitments and nullifiers. */
  method UpdateCircuit(cs: ConstraintSystem, wallet1: WalletVar, wallet2: WalletVar, now: nat,
      internal: InternalVar, external: ExternalVar)
    requires cs.Valid() && WalletKnown(wallet1, cs.wires) && WalletKnown(wallet2, cs.wires) && now < cs.wires
    requires TransfersKnown(internal, external, cs.wires) && |wallet2.orders| <= |wallet1.orders|
    modifies cs
    ensures cs.Valid()
    ensures forall w {:trigger Satisfies(cs.constraints, w)} :: Satisfies(cs.constraints, w) ==>
      && Satisfies(old(cs.constraints), w)
      && UpdateApplied(WalletAt(wallet1, w), WalletAt(wallet2, w), At(w, now), InternalAt(internal, w), ExternalAt(external, w))
      && (Plausible(cs.unchecked, w) ==> AmountsBelow(BalancesAt(wallet2.balances, w), Pow2(64)))
    ensures forall w {:trigger Honest(cs.hints, w)} :: Honest(cs.hints, w) ==>
      && Honest(old(cs.hints), w)
      && (Satisfies(cs.constraints, w) <==>
            && Satisfies(old(cs.constraints), w)
            && UpdateApplied(WalletAt(wallet1, w), WalletAt(wallet2, w), At(w, now), InternalAt(internal, w), ExternalAt(external, w))
            && AmountsBelow(BalancesAt(wallet2.balances, w), Pow2(64)))
  {
    hide Eval, Satisfies, Honest, At, IsBit, TransfersApplied, AmountsBelow, Plausible, UniquePairs, TimestampsUpTo, Add, Pow2;
    ConstrainKeysEqual(cs, wallet1.keys, wallet2.keys);
    ConstrainEqual(cs, Sum(Wire(wallet1.randomness), Const(2)), Wire(wallet2.randomness));
    ConstrainBinary(cs, external.direction);
    ValidateTransfers(cs, wallet2.balances, wallet1.balances, internal, external);
    label orders:
    ConstrainUniquePairs(cs, wallet2.orders);
    ConstrainTimestamps(cs, wallet2.orders, wallet1.orders, now);
    forall w
      ensures Eval(Sum(Wire(wallet1.randomness), Const(2)), w) == Add(At(w, wallet1.randomness), 2)
      ensures Eval(Wire(wallet2.randomness), w) == At(w, wallet2.randomness)
    {
      EvalPlusTwo(wallet1.randomness, w);
      EvalWire(wallet2.randomness, w);
    }
  }
}
