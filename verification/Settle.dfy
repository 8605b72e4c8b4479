/** The VALID SETTLE circuit (circuits/src/zk_circuits/valid_settle.rs): applying a note to a wallet. */
module Settle {
  import opened Numbers
  import opened ResidueField
  import opened ScalarField
  import opened MpcBits
  import opened ConstraintSystems
  import opened ZkGadgets
  import opened WalletUpdate

  /** A note: two signed volumes and a signed fee; direction 1 pays out of the wallet. */
  datatype Note = Note(
    mint1: Elem, volume1: Elem, direction1: Elem,
    mint2: Elem, volume2: Elem, direction2: Elem,
    feeMint: Elem, feeVolume: Elem, feeDirection: Elem,
    type_: Elem, randomness: Elem)

  datatype NoteVar = NoteVar(
    mint1: nat, volume1: nat, direction1: nat,
    mint2: nat, volume2: nat, direction2: nat,
    feeMint: nat, feeVolume: nat, feeDirection: nat,
    type_: nat, randomness: nat)

  function NoteAt(n: NoteVar, w: Assignment): Note {
    Note(At(w, n.mint1), At(w, n.volume1), At(w, n.direction1),
         At(w, n.mint2), At(w, n.volume2), At(w, n.direction2),
         At(w, n.feeMint), At(w, n.feeVolume), At(w, n.feeDirection),
         At(w, n.type_), At(w, n.randomness))
  }

  ghost predicate NoteKnown(n: NoteVar, k: nat) {
    && n.mint1 < k && n.volume1 < k && n.direction1 < k
    && n.mint2 < k && n.volume2 < k && n.direction2 < k
    && n.feeMint < k && n.feeVolume < k && n.feeDirection < k
    && n.type_ < k && n.randomness < k
  }

  // ---- what the constraints mean -------------------------------------------------------

  /** A volume negated when the direction is 1. */
  function Signed(volume: Elem, direction: Elem): Elem {
    Selected(Neg(volume), volume, direction)
  }

  function SettledAmount(pre: seq<Balance>, mint: Elem, note: Note): Elem {
    Add(Add(Add(F(BalanceOf(pre, mint)),
                Masked(mint == note.mint1, Signed(note.volume1, note.direction1))),
            Masked(mint == note.mint2, Signed(note.volume2, note.direction2))),
        Masked(mint == note.feeMint, Signed(note.feeVolume, note.feeDirection)))
  }

  /** The order with the note's base volume taken off, if the pair is the note's and the note is a match. */
  function SettledOrder(o: Order, note: Note): Order {
    var filled := Masked(note.mint1 == o.baseMint && note.mint2 == o.quoteMint, Selected(note.volume1, 0, note.type_));
    o.(amount := Sub(o.amount, filled))
  }

  ghost predicate BalancesSettled(post: seq<Balance>, pre: seq<Balance>, note: Note) {
    && UniqueMints(post)
    && forall k :: 0 <= k < |post| ==> post[k].amount == SettledAmount(pre, post[k].mint, note)
  }

  ghost predicate OrdersSettled(post: seq<Order>, pre: seq<Order>, note: Note) {
    |post| == |pre| && forall k :: 0 <= k < |pre| ==> post[k] == SettledOrder(pre[k], note)
  }

  ghost predicate Settled(pre: Wallet, post: Wallet, note: Note) {
    && pre.keys == post.keys
    && post.randomness == Add(pre.randomness, 2)
    && BalancesSettled(post.balances, pre.balances, note)
    && OrdersSettled(post.orders, pre.orders, note)
  }

  // ---- unique mints --------------------------------------------------------------------

  /** One pair of validate_balance_mints_unique; `zero` tests the first mint. */
  method ConstrainDistinctOrZero(cs: ConstraintSystem, a: nat, b: nat, zero: nat)
    requires cs.Valid() && a < cs.wires && b < cs.wires && zero < cs.wires
    requires forall w {:trigger Satisfies(cs.constraints, w)} ::
      Satisfies(cs.constraints, w) ==> At(w, zero) == Bit(At(w, a) == 0)
    requires forall w {:trigger Honest(cs.hints, w)} ::
      Honest(cs.hints, w) ==> At(w, zero) == Bit(At(w, a) == 0)
    modifies cs
    ensures cs.Valid() && cs.wires >= old(cs.wires) && cs.unchecked == old(cs.unchecked)
    ensures forall w {:trigger Satisfies(cs.constraints, w)} :: Satisfies(cs.constraints, w) ==>
      Satisfies(old(cs.constraints), w) && (At(w, a) == 0 || At(w, a) != At(w, b))
    ensures forall w {:trigger Honest(cs.hints, w)} :: Honest(cs.hints, w) ==>
      && Honest(old(cs.hints), w)
      && (Satisfies(cs.constraints, w) <==>
          Satisfies(old(cs.constraints), w) && (At(w, a) == 0 || At(w, a) != At(w, b)))
  {
    hide Eval, Satisfies, Honest, At, Bit;
    var ne := NotEqual(cs, Wire(a), Wire(b));
    var or := Or(cs, ne, Wire(zero));
    cs.Constrain(Diff(ONE, or));
    forall w
      ensures Eval(Wire(a), w) == At(w, a) && Eval(Wire(b), w) == At(w, b) && Eval(Wire(zero), w) == At(w, zero)
      ensures Eval(Diff(ONE, or), w) == 0 <==> Eval(or, w) == 1
    {
      EvalWire(a, w);
      EvalWire(b, w);
      EvalWire(zero, w);
      EvalDiff(ONE, or, w);
      EvalOne(w);
    }
    forall p: bool ensures Bit(p) == 1 <==> p { BitOne(p); }
  }

  method ConstrainMintsUnique(cs: ConstraintSystem, bs: seq<BalanceVar>)
    requires cs.Valid() && BalancesKnown(bs, cs.wires)
    modifies cs
    ensures cs.Valid() && cs.wires >= old(cs.wires) && cs.unchecked == old(cs.unchecked)
    ensures forall w {:trigger Satisfies(cs.constraints, w)} :: Satisfies(cs.constraints, w) ==>
      Satisfies(old(cs.constraints), w) && UniqueMints(BalancesAt(bs, w))
    ensures forall w {:trigger Honest(cs.hints, w)} :: Honest(cs.hints, w) ==>
      && Honest(old(cs.hints), w)
      && (Satisfies(cs.constraints, w) <==> Satisfies(old(cs.constraints), w) && UniqueMints(BalancesAt(bs, w)))
  {
    hide Satisfies, Honest, At, UniqueUpTo, UniqueMints, Bit;
    forall w ensures UniqueUpTo(BalancesAt(bs, w), 0, 0) { NothingUnique(BalancesAt(bs, w)); }
    for i := 0 to |bs|
      invariant cs.Valid() && cs.wires >= old(cs.wires) && cs.unchecked == old(cs.unchecked)
      invariant forall w {:trigger Satisfies(cs.constraints, w)} :: Satisfies(cs.constraints, w) ==>
        Satisfies(old(cs.constraints), w) && UniqueUpTo(BalancesAt(bs, w), i, 0)
      invariant forall w {:trigger Honest(cs.hints, w)} :: Honest(cs.hints, w) ==>
        && Honest(old(cs.hints), w)
        && (Satisfies(cs.constraints, w) <==> Satisfies(old(cs.constraints), w) && UniqueUpTo(BalancesAt(bs, w), i, 0))
    {
      var zero := EqZero(cs, Wire(bs[i].mint));
      forall w
        ensures UniqueUpTo(BalancesAt(bs, w), i, i + 1) <==> UniqueUpTo(BalancesAt(bs, w), i, 0)
        ensures Eval(Wire(bs[i].mint), w) == At(w, bs[i].mint)
      {
        UniqueRowStart(BalancesAt(bs, w), i);
        EvalWire(bs[i].mint, w);
      }
      for j := i + 1 to |bs|
        invariant cs.Valid() && cs.wires >= old(cs.wires) && cs.unchecked == old(cs.unchecked) && zero < cs.wires
        invariant forall w {:trigger Satisfies(cs.constraints, w)} :: Satisfies(cs.constraints, w) ==>
          && At(w, zero) == Bit(At(w, bs[i].mint) == 0)
          && Satisfies(old(cs.constraints), w) && UniqueUpTo(BalancesAt(bs, w), i, j)
        invariant forall w {:trigger Honest(cs.hints, w)} :: Honest(cs.hints, w) ==>
          && At(w, zero) == Bit(At(w, bs[i].mint) == 0)
          && Honest(old(cs.hints), w)
          && (Satisfies(cs.constraints, w) <==> Satisfies(old(cs.constraints), w) && UniqueUpTo(BalancesAt(bs, w), i, j))
      {
        ConstrainDistinctOrZero(cs, bs[i].mint, bs[j].mint, zero);
        forall w ensures UniqueUpTo(BalancesAt(bs, w), i, j + 1) <==>
            (UniqueUpTo(BalancesAt(bs, w), i, j) &&
             (At(w, bs[i].mint) == 0 || At(w, bs[i].mint) != At(w, bs[j].mint))) {
          UniqueStep(BalancesAt(bs, w), i, j);
        }
      }
      forall w ensures UniqueUpTo(BalancesAt(bs, w), i, |bs|) <==> UniqueUpTo(BalancesAt(bs, w), i + 1, 0) {
        UniqueRowEnd(BalancesAt(bs, w), i);
      }
    }
    forall w ensures UniqueUpTo(BalancesAt(bs, w), |bs|, 0) <==> UniqueMints(BalancesAt(bs, w)) {
      UniqueAll(BalancesAt(bs, w));
    }
  }

  lemma NothingUnique(bs: seq<Balance>)
    ensures UniqueUpTo(bs, 0, 0)
  {
  }

  // ---- balances ------------------------------------------------------------------------

  /** The mux of one note term: the negated volume when the direction is 1. */
  method SelectSigned(cs: ConstraintSystem, volume: nat, direction: nat) returns (term: LC)
    requires cs.Valid() && volume < cs.wires && direction < cs.wires
    modifies cs
    ensures cs.Valid() && cs.wires >= old(cs.wires) && cs.unchecked == old(cs.unchecked) && Known(term, cs.wires)
    ensures forall w {:trigger Satisfies(cs.constraints, w)} :: Satisfies(cs.constraints, w) ==>
      Satisfies(old(cs.constraints), w) && Eval(term, w) == Signed(At(w, volume), At(w, direction))
    ensures forall w {:trigger Honest(cs.hints, w)} :: Honest(cs.hints, w) ==>
      && Honest(old(cs.hints), w) && Eval(term, w) == Signed(At(w, volume), At(w, direction))
      && (Satisfies(old(cs.constraints), w) ==> Satisfies(cs.constraints, w))
  {
    hide Eval, Satisfies, Honest, At, Selected, Neg;
    var negated := Scaled(MINUS_ONE, Wire(volume));
    term := Select(cs, negated, Wire(volume), Wire(direction));
    forall w
      ensures Eval(negated, w) == Neg(At(w, volume))
      ensures Eval(Wire(volume), w) == At(w, volume) && Eval(Wire(direction), w) == At(w, direction)
    {
      EvalNegated(volume, w);
      EvalWire(volume, w);
      EvalWire(direction, w);
    }
  }

  const MINUS_ONE: Elem := Neg(1)

  lemma EvalNegated(i: nat, w: Assignment)
    ensures Eval(Scaled(MINUS_ONE, Wire(i)), w) == Neg(At(w, i))
  {
    hide F;
    var x: int := At(w, i);
    FMul(-1, x);
    FSelf(x);
  }

  function SettledTerm(pre: seq<BalanceVar>, nb: BalanceVar, note: NoteVar, t1: LC, t2: LC, t3: LC, w: Assignment): Elem {
    Add(Add(Add(F(BalanceOf(BalancesAt(pre, w), At(w, nb.mint))),
                Masked(At(w, nb.mint) == At(w, note.mint1), Eval(t1, w))),
            Masked(At(w, nb.mint) == At(w, note.mint2), Eval(t2, w))),
        Masked(At(w, nb.mint) == At(w, note.feeMint), Eval(t3, w)))
  }

  /** One iteration of validate_balance_updates. */
  method ConstrainSettledBalance(cs: ConstraintSystem, nb: BalanceVar, pre: seq<BalanceVar>, note: NoteVar,
      t1: LC, t2: LC, t3: LC)
    requires cs.Valid() && nb.mint < cs.wires && nb.amount < cs.wires && BalancesKnown(pre, cs.wires)
    requires NoteKnown(note, cs.wires) && Known(t1, cs.wires) && Known(t2, cs.wires) && Known(t3, cs.wires)
    modifies cs
    ensures cs.Valid() && cs.wires >= old(cs.wires) && cs.unchecked == old(cs.unchecked)
    ensures forall w {:trigger Satisfies(cs.constraints, w)} :: Satisfies(cs.constraints, w) ==>
      Satisfies(old(cs.constraints), w) && At(w, nb.amount) == SettledTerm(pre, nb, note, t1, t2, t3, w)
    ensures forall w {:trigger Honest(cs.hints, w)} :: Honest(cs.hints, w) ==>
      && Honest(old(cs.hints), w)
      && (Satisfies(cs.constraints, w) <==>
          Satisfies(old(cs.constraints), w) && At(w, nb.amount) == SettledTerm(pre, nb, note, t1, t2, t3, w))
  {
    hide Eval, Satisfies, Honest, At, Masked, F, Add, BalanceOf, BalancesAt, SettledTerm, Known;
    var n := cs.wires;
    var matched := MatchedAmount(cs, nb.mint, pre);
    KnownMore(t1, n, cs.wires);
    KnownMore(t2, n, cs.wires);
    KnownMore(t3, n, cs.wires);
    var m1, m2, m3 := MaskTerms(cs, nb.mint, note, t1, t2, t3);
    var expected := Sum(Sum(Sum(matched, Wire(m1)), Wire(m2)), Wire(m3));
    ConstrainEqual(cs, Wire(nb.amount), expected);
    forall w | Eval(matched, w) == F(BalanceOf(BalancesAt(pre, w), At(w, nb.mint)))
        && At(w, m1) == Masked(At(w, nb.mint) == At(w, note.mint1), Eval(t1, w))
        && At(w, m2) == Masked(At(w, nb.mint) == At(w, note.mint2), Eval(t2, w))
        && At(w, m3) == Masked(At(w, nb.mint) == At(w, note.feeMint), Eval(t3, w))
      ensures Eval(expected, w) == SettledTerm(pre, nb, note, t1, t2, t3, w)
    {
      EvalFour(matched, m1, m2, m3, w);
      SettledTermUnfolds(pre, nb, note, t1, t2, t3, w);
    }
    forall w ensures Eval(Wire(nb.amount), w) == At(w, nb.amount) { EvalWire(nb.amount, w); }
  }

  lemma SettledTermUnfolds(pre: seq<BalanceVar>, nb: BalanceVar, note: NoteVar, t1: LC, t2: LC, t3: LC, w: Assignment)
    ensures SettledTerm(pre, nb, note, t1, t2, t3, w) ==
      Add(Add(Add(F(BalanceOf(BalancesAt(pre, w), At(w, nb.mint))),
                  Masked(At(w, nb.mint) == At(w, note.mint1), Eval(t1, w))),
              Masked(At(w, nb.mint) == At(w, note.mint2), Eval(t2, w))),
          Masked(At(w, nb.mint) == At(w, note.feeMint), Eval(t3, w)))
  {
  }

  lemma EvalFour(lc: LC, a: nat, b: nat, c: nat, w: Assignment)
    ensures Eval(Sum(Sum(Sum(lc, Wire(a)), Wire(b)), Wire(c)), w)
         == Add(Add(Add(Eval(lc, w), At(w, a)), At(w, b)), At(w, c))
  {
    hide Add, At, Eval;
    EvalSum(Sum(Sum(lc, Wire(a)), Wire(b)), Wire(c), w);
    EvalSum(Sum(lc, Wire(a)), Wire(b), w);
    EvalSum(lc, Wire(a), w);
    EvalWire(a, w);
    EvalWire(b, w);
    EvalWire(c, w);
  }

  /** The three note terms masked by their mints. */
  method MaskTerms(cs: ConstraintSystem, mint: nat, note: NoteVar, t1: LC, t2: LC, t3: LC)
    returns (m1: nat, m2: nat, m3: nat)
    requires cs.Valid() && mint < cs.wires && NoteKnown(note, cs.wires)
    requires Known(t1, cs.wires) && Known(t2, cs.wires) && Known(t3, cs.wires)
    modifies cs
    ensures cs.Valid() && cs.wires >= old(cs.wires) && cs.unchecked == old(cs.unchecked)
    ensures forall w {:trigger Satisfies(cs.constraints, w)} :: Satisfies(cs.constraints, w) ==>
      && Satisfies(old(cs.constraints), w)
      && At(w, m1) == Masked(At(w, mint) == At(w, note.mint1), Eval(t1, w))
      && At(w, m2) == Masked(At(w, mint) == At(w, note.mint2), Eval(t2, w))
      && At(w, m3) == Masked(At(w, mint) == At(w, note.feeMint), Eval(t3, w))
    ensures forall w {:trigger Honest(cs.hints, w)} :: Honest(cs.hints, w) ==>
      && Honest(old(cs.hints), w)
      && At(w, m1) == Masked(At(w, mint) == At(w, note.mint1), Eval(t1, w))
      && At(w, m2) == Masked(At(w, mint) == At(w, note.mint2), Eval(t2, w))
      && At(w, m3) == Masked(At(w, mint) == At(w, note.feeMint), Eval(t3, w))
      && (Satisfies(old(cs.constraints), w) ==> Satisfies(cs.constraints, w))
  {
    hide Eval, Satisfies, Honest, At, Masked, Bit;
    var n := cs.wires;
    var _, a := MaskByMint(cs, mint, note.mint1, t1);
    KnownMore(t2, n, cs.wires);
    var _, b := MaskByMint(cs, mint, note.mint2, t2);
    KnownMore(t3, n, cs.wires);
    var _, c := MaskByMint(cs, mint, note.feeMint, t3);
    m1, m2, m3 := a, b, c;
  }

  /** The first k balances are settled. */
  ghost predicate SettledUpTo(post: seq<Balance>, pre: seq<Balance>, note: Note, k: nat) {
    forall i :: 0 <= i < |post| && i < k ==> post[i].amount == SettledAmount(pre, post[i].mint, note)
  }

  lemma SettledTermIsAmount(pre: seq<BalanceVar>, nb: BalanceVar, note: NoteVar, t1: LC, t2: LC, t3: LC, w: Assignment)
    requires Eval(t1, w) == Signed(At(w, note.volume1), At(w, note.direction1))
    requires Eval(t2, w) == Signed(At(w, note.volume2), At(w, note.direction2))
    requires Eval(t3, w) == Signed(At(w, note.feeVolume), At(w, note.feeDirection))
    ensures SettledTerm(pre, nb, note, t1, t2, t3, w) ==
      SettledAmount(BalancesAt(pre, w), At(w, nb.mint), NoteAt(note, w))
  {
    hide Eval, At, Masked, F, Add, Signed, BalanceOf;
  }

  ghost predicate TermsOf(note: NoteVar, t1: LC, t2: LC, t3: LC, w: Assignment) {
    && Eval(t1, w) == Signed(At(w, note.volume1), At(w, note.direction1))
    && Eval(t2, w) == Signed(At(w, note.volume2), At(w, note.direction2))
    && Eval(t3, w) == Signed(At(w, note.feeVolume), At(w, note.feeDirection))
  }

  /** validate_balance_updates. */
  method ValidateBalanceUpdates(cs: ConstraintSystem, post: seq<BalanceVar>, pre: seq<BalanceVar>, note: NoteVar)
    requires cs.Valid() && BalancesKnown(post, cs.wires) && BalancesKnown(pre, cs.wires) && NoteKnown(note, cs.wires)
    modifies cs
    ensures cs.Valid() && cs.wires >= old(cs.wires) && cs.unchecked == old(cs.unchecked)
    ensures forall w {:trigger Satisfies(cs.constraints, w)} :: Satisfies(cs.constraints, w) ==>
      Satisfies(old(cs.constraints), w) && SettledUpTo(BalancesAt(post, w), BalancesAt(pre, w), NoteAt(note, w), |post|)
    ensures forall w {:trigger Honest(cs.hints, w)} :: Honest(cs.hints, w) ==>
      && Honest(old(cs.hints), w)
      && (Satisfies(cs.constraints, w) <==>
          (Satisfies(old(cs.constraints), w) &&
           SettledUpTo(BalancesAt(post, w), BalancesAt(pre, w), NoteAt(note, w), |post|)))
  {
    hide Eval, Satisfies, Honest, At, Signed, SettledTerm, SettledAmount;
    var t1 := SelectSigned(cs, note.volume1, note.direction1);
    var a := cs.wires;
    var t2 := SelectSigned(cs, note.volume2, note.direction2);
    KnownMore(t1, a, cs.wires);
    var b := cs.wires;
    var t3 := SelectSigned(cs, note.feeVolume, note.feeDirection);
    KnownMore(t1, b, cs.wires);
    KnownMore(t2, b, cs.wires);
    for k := 0 to |post|
      invariant cs.Valid() && cs.wires >= old(cs.wires) && cs.unchecked == old(cs.unchecked)
      invariant Known(t1, cs.wires) && Known(t2, cs.wires) && Known(t3, cs.wires)
      invariant forall w {:trigger Satisfies(cs.constraints, w)} :: Satisfies(cs.constraints, w) ==>
        && Satisfies(old(cs.constraints), w) && TermsOf(note, t1, t2, t3, w)
        && SettledUpTo(BalancesAt(post, w), BalancesAt(pre, w), NoteAt(note, w), k)
      invariant forall w {:trigger Honest(cs.hints, w)} :: Honest(cs.hints, w) ==>
        && Honest(old(cs.hints), w) && TermsOf(note, t1, t2, t3, w)
        && (Satisfies(cs.constraints, w) <==>
            Satisfies(old(cs.constraints), w) && SettledUpTo(BalancesAt(post, w), BalancesAt(pre, w), NoteAt(note, w), k))
    {
      var n := cs.wires;
      ConstrainSettledBalance(cs, post[k], pre, note, t1, t2, t3);
      KnownMore(t1, n, cs.wires);
      KnownMore(t2, n, cs.wires);
      KnownMore(t3, n, cs.wires);
      forall w | TermsOf(note, t1, t2, t3, w)
        ensures SettledTerm(pre, post[k], note, t1, t2, t3, w) ==
          SettledAmount(BalancesAt(pre, w), At(w, post[k].mint), NoteAt(note, w))
      {
        SettledTermIsAmount(pre, post[k], note, t1, t2, t3, w);
      }
    }
  }

  // ---- orders --------------------------------------------------------------------------

  /** One iteration of validate_order_updates, given the muxed note term. */
  method ConstrainSettledOrder(cs: ConstraintSystem, post: OrderVar, pre: OrderVar, note: NoteVar, term: LC)
    requires cs.Valid() && OrderKnown(post, cs.wires) && OrderKnown(pre, cs.wires)
    requires NoteKnown(note, cs.wires) && Known(term, cs.wires)
    requires forall w {:trigger Satisfies(cs.constraints, w)} :: Satisfies(cs.constraints, w) ==>
      Eval(term, w) == Selected(At(w, note.volume1), 0, At(w, note.type_))
    requires forall w {:trigger Honest(cs.hints, w)} :: Honest(cs.hints, w) ==>
      Eval(term, w) == Selected(At(w, note.volume1), 0, At(w, note.type_))
    modifies cs
    ensures cs.Valid() && cs.wires >= old(cs.wires) && cs.unchecked == old(cs.unchecked)
    ensures forall w {:trigger Satisfies(cs.constraints, w)} :: Satisfies(cs.constraints, w) ==>
      Satisfies(old(cs.constraints), w) && OrderAt(post, w) == SettledOrder(OrderAt(pre, w), NoteAt(note, w))
    ensures forall w {:trigger Honest(cs.hints, w)} :: Honest(cs.hints, w) ==>
      && Honest(old(cs.hints), w)
      && (Satisfies(cs.constraints, w) <==>
          Satisfies(old(cs.constraints), w) && OrderAt(post, w) == SettledOrder(OrderAt(pre, w), NoteAt(note, w)))
  {
    hide Eval, Satisfies, Honest, At, Masked, Bit, Sub, Selected, Mul, Evals;
    ConstrainSameFields(cs, pre, post);
    var pair1, pair2 := [Wire(note.mint1), Wire(note.mint2)], [Wire(pre.baseMint), Wire(pre.quoteMint)];
    var n := cs.wires;
    var eq := EqVec(cs, pair1, pair2);
    KnownMore(term, n, cs.wires);
    var _, _, masked := Multiply(cs, Wire(eq), term);
    var expected := Diff(Wire(pre.amount), Wire(masked));
    ConstrainEqual(cs, expected, Wire(post.amount));
    forall w
      ensures Eval(expected, w) == Sub(At(w, pre.amount), At(w, masked))
      ensures Eval(Wire(post.amount), w) == At(w, post.amount) && Eval(Wire(eq), w) == At(w, eq)
      ensures Evals(pair1, w) == Evals(pair2, w) <==>
        At(w, note.mint1) == At(w, pre.baseMint) && At(w, note.mint2) == At(w, pre.quoteMint)
    {
      EvalDiff(Wire(pre.amount), Wire(masked), w);
      EvalWire(pre.amount, w);
      EvalWire(masked, w);
      EvalWire(post.amount, w);
      EvalWire(eq, w);
      WirePairs(note.mint1, note.mint2, pre.baseMint, pre.quoteMint, w);
    }
    forall p: bool, x: Elem ensures Mul(Bit(p), x) == Masked(p, x) { MaskedProduct(p, x); }
  }

  /** validate_orders_equal_except_amount. */
  method ConstrainSameFields(cs: ConstraintSystem, o1: OrderVar, o2: OrderVar)
    requires cs.Valid()
    modifies cs
    ensures cs.Valid() && cs.wires == old(cs.wires) && cs.hints == old(cs.hints) && cs.unchecked == old(cs.unchecked)
    ensures forall w {:trigger Satisfies(cs.constraints, w)} ::
      Satisfies(cs.constraints, w) <==>
      Satisfies(old(cs.constraints), w) && OrderAt(o1, w).(amount := 0) == OrderAt(o2, w).(amount := 0)
  {
    hide Satisfies, At, Evals, OrderAt;
    ConstrainEqVec(cs, FieldsBut(o1), FieldsBut(o2));
    forall w ensures Evals(FieldsBut(o1), w) == Evals(FieldsBut(o2), w) <==>
        OrderAt(o1, w).(amount := 0) == OrderAt(o2, w).(amount := 0) {
      FieldsButAgree(o1, o2, w);
    }
  }

  /** Every field of an order but its amount. */
  function FieldsBut(o: OrderVar): seq<LC> {
    [Wire(o.baseMint), Wire(o.quoteMint), Wire(o.side), Wire(o.price), Wire(o.timestamp)]
  }

  lemma FieldsButAgree(o1: OrderVar, o2: OrderVar, w: Assignment)
    ensures Evals(FieldsBut(o1), w) == Evals(FieldsBut(o2), w) <==>
      OrderAt(o1, w).(amount := 0) == OrderAt(o2, w).(amount := 0)
  {
    hide At;
    var x, y := Evals(FieldsBut(o1), w), Evals(FieldsBut(o2), w);
    if x == y {
      assert x[0] == y[0] && x[1] == y[1] && x[2] == y[2] && x[3] == y[3] && x[4] == y[4];
    }
  }

  /** The first k orders are settled. */
  ghost predicate OrdersUpTo(post: seq<Order>, pre: seq<Order>, note: Note, k: nat)
    requires k <= |pre| == |post|
  {
    forall i :: 0 <= i < k ==> post[i] == SettledOrder(pre[i], note)
  }

  /** validate_order_updates. */
  method ValidateOrderUpdates(cs: ConstraintSystem, post: seq<OrderVar>, pre: seq<OrderVar>, note: NoteVar)
    requires cs.Valid() && |post| == |pre| && OrdersKnown(post, cs.wires) && OrdersKnown(pre, cs.wires)
    requires NoteKnown(note, cs.wires)
    modifies cs
    ensures cs.Valid() && cs.wires >= old(cs.wires) && cs.unchecked == old(cs.unchecked)
    ensures forall w {:trigger Satisfies(cs.constraints, w)} :: Satisfies(cs.constraints, w) ==>
      Satisfies(old(cs.constraints), w) && OrdersUpTo(OrdersAt(post, w), OrdersAt(pre, w), NoteAt(note, w), |pre|)
    ensures forall w {:trigger Honest(cs.hints, w)} :: Honest(cs.hints, w) ==>
      && Honest(old(cs.hints), w)
      && (Satisfies(cs.constraints, w) <==>
          Satisfies(old(cs.constraints), w) && OrdersUpTo(OrdersAt(post, w), OrdersAt(pre, w), NoteAt(note, w), |pre|))
  {
    hide Eval, Satisfies, Honest, At, Selected, SettledOrder;
    var term := Select(cs, Wire(note.volume1), ZERO, Wire(note.type_));
    forall w
      ensures Eval(Wire(note.volume1), w) == At(w, note.volume1) && Eval(ZERO, w) == 0
      ensures Eval(Wire(note.type_), w) == At(w, note.type_)
    {
      EvalWire(note.volume1, w);
      EvalWire(note.type_, w);
      EvalOne(w);
    }
    for k := 0 to |pre|
      invariant cs.Valid() && cs.wires >= old(cs.wires) && cs.unchecked == old(cs.unchecked) && Known(term, cs.wires)
      invariant forall w {:trigger Satisfies(cs.constraints, w)} :: Satisfies(cs.constraints, w) ==>
        && Satisfies(old(cs.constraints), w)
        && Eval(term, w) == Selected(At(w, note.volume1), 0, At(w, note.type_))
        && OrdersUpTo(OrdersAt(post, w), OrdersAt(pre, w), NoteAt(note, w), k)
      invariant forall w {:trigger Honest(cs.hints, w)} :: Honest(cs.hints, w) ==>
        && Honest(old(cs.hints), w)
        && Eval(term, w) == Selected(At(w, note.volume1), 0, At(w, note.type_))
        && (Satisfies(cs.constraints, w) <==>
            Satisfies(old(cs.constraints), w) && OrdersUpTo(OrdersAt(post, w), OrdersAt(pre, w), NoteAt(note, w), k))
    {
      var n := cs.wires;
      ConstrainSettledOrder(cs, post[k], pre[k], note, term);
      KnownMore(term, n, cs.wires);
      forall w ensures OrdersUpTo(OrdersAt(post, w), OrdersAt(pre, w), NoteAt(note, w), k + 1) <==>
          (OrdersUpTo(OrdersAt(post, w), OrdersAt(pre, w), NoteAt(note, w), k) &&
           OrderAt(post[k], w) == SettledOrder(OrderAt(pre[k], w), NoteAt(note, w))) {}
    }
  }

  /** ValidSettle::circuit, without the commitments, openings and nullifiers. */
  method SettleCircuit(cs: ConstraintSystem, pre: WalletVar, post: WalletVar, note: NoteVar)
    requires cs.Valid() && WalletKnown(pre, cs.wires) && WalletKnown(post, cs.wires)
    requires NoteKnown(note, cs.wires) && |post.orders| == |pre.orders|
    modifies cs
    ensures cs.Valid()
    ensures forall w {:trigger Satisfies(cs.constraints, w)} :: Satisfies(cs.constraints, w) ==>
      Satisfies(old(cs.constraints), w) && Settled(WalletAt(pre, w), WalletAt(post, w), NoteAt(note, w))
    ensures forall w {:trigger Honest(cs.hints, w)} :: Honest(cs.hints, w) ==>
      && Honest(old(cs.hints), w)
      && (Satisfies(cs.constraints, w) <==>
          Satisfies(old(cs.constraints), w) && Settled(WalletAt(pre, w), WalletAt(post, w), NoteAt(note, w)))
  {
    hide Eval, Satisfies, Honest, At, Add, UniqueMints, SettledAmount, SettledOrder;
    ConstrainKeysEqual(cs, pre.keys, post.keys);
    ConstrainEqual(cs, Sum(Wire(pre.randomness), Const(2)), Wire(post.randomness));
    ConstrainMintsUnique(cs, post.balances);
    ValidateBalanceUpdates(cs, post.balances, pre.balances, note);
    ValidateOrderUpdates(cs, post.orders, pre.orders, note);
    forall w
      ensures Eval(Sum(Wire(pre.randomness), Const(2)), w) == Add(At(w, pre.randomness), 2)
      ensures Eval(Wire(post.randomness), w) == At(w, post.randomness)
    {
      EvalPlusTwo(pre.randomness, w);
      EvalWire(post.randomness, w);
    }
  }
}
