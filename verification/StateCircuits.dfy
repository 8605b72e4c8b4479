/**
 The whole circuits of VALID WALLET UPDATE and VALID SETTLE (circuits/src/zk_circuits/valid_wallet_update.rs,
 valid_settle.rs): the spent wallet is a leaf of the state tree, its nullifiers are revealed, and the new wallet
 is committed to.
 */
module StateCircuits {
  import opened Numbers
  import opened ResidueField
  import opened ScalarField
  import opened MpcBits
  import opened ConstraintSystems
  import opened ZkGadgets
  import opened PoseidonSponge
  import opened ZkPoseidon
  import opened ZkMerkle
  import opened WalletUpdate
  import opened Settle
  import opened Commitments

  // ---- spending a wallet ---------------------------------------------------------------

  /** The wires of a committed wallet. */
  datatype StateVar = StateVar(wallet: WalletVar, fees: seq<WalletFeeVar>)

  datatype OpeningVar = OpeningVar(elems: seq<nat>, indices: seq<nat>)

  function CommitmentAt(p: Params, s: StateVar, w: Assignment): Elem
    requires p.Valid()
  {
    WalletCommitment(p, WalletAt(s.wallet, w), FeesAt(s.fees, w))
  }

  ghost predicate StateKnown(s: StateVar, n: nat) {
    WalletKnown(s.wallet, n) && FeesKnown(s.fees, n)
  }

  ghost predicate OpeningKnown(o: OpeningVar, n: nat) {
    |o.elems| == |o.indices| && forall i :: 0 <= i < |o.elems| ==> o.elems[i] < n && o.indices[i] < n
  }

  function RootAt(p: Params, leaf: Elem, o: OpeningVar, w: Assignment): Elem
    requires p.Valid() && |o.elems| == |o.indices|
  {
    Climb(p, leaf, WireValues(o.elems, w), WireValues(o.indices, w))
  }

  /** A combination is constrained to open to the root wire. */
  method ConstrainRoot(cs: ConstraintSystem, p: Params, leaf: LC, o: OpeningVar, root: nat)
    requires cs.Valid() && p.Valid() && Known(leaf, cs.wires) && OpeningKnown(o, cs.wires)
    modifies cs
    ensures cs.Valid() && cs.wires >= old(cs.wires) && cs.unchecked == old(cs.unchecked)
    ensures forall w {:trigger Satisfies(cs.constraints, w)} :: Satisfies(cs.constraints, w) ==>
      Satisfies(old(cs.constraints), w) && At(w, root) == RootAt(p, Eval(leaf, w), o, w)
    ensures forall w {:trigger Honest(cs.hints, w)} :: Honest(cs.hints, w) ==>
      && Honest(old(cs.hints), w)
      && (Satisfies(cs.constraints, w) <==> Satisfies(old(cs.constraints), w) && At(w, root) == RootAt(p, Eval(leaf, w), o, w))
  {
    hide Eval, Satisfies, Honest, At, Climb, AllWide;
    var res := ComputeRoot(cs, p, leaf, o.elems, o.indices);
    assert o.elems[..|o.elems|] == o.elems && o.indices[..|o.indices|] == o.indices;
    ConstrainEqual(cs, Wire(root), res);
    forall w ensures Eval(Wire(root), w) == At(w, root) { EvalWire(root, w); }
  }

  /** A wire is constrained to the hash of a pair. */
  method ConstrainPairHash(cs: ConstraintSystem, p: Params, left: LC, right: LC, expected: nat)
    requires cs.Valid() && p.Valid() && Known(left, cs.wires) && Known(right, cs.wires)
    modifies cs
    ensures cs.Valid() && cs.wires >= old(cs.wires) && cs.unchecked == old(cs.unchecked)
    ensures forall w {:trigger Satisfies(cs.constraints, w)} :: Satisfies(cs.constraints, w) ==>
      Satisfies(old(cs.constraints), w) && At(w, expected) == PairHash(p, Eval(left, w), Eval(right, w))
    ensures forall w {:trigger Honest(cs.hints, w)} :: Honest(cs.hints, w) ==>
      && Honest(old(cs.hints), w)
      && (Satisfies(cs.constraints, w) <==>
          Satisfies(old(cs.constraints), w) && At(w, expected) == PairHash(p, Eval(left, w), Eval(right, w)))
  {
    hide Eval, Satisfies, Honest, At, PairHash, AllWide;
    var res := PairCommit(cs, p, left, right);
    ConstrainEqual(cs, Wire(expected), res);
    forall w ensures Eval(Wire(expected), w) == At(w, expected) { EvalWire(expected, w); }
  }

  /** The wallet is under the root and these are its nullifiers. */
  ghost predicate Spent(p: Params, s: StateVar, o: OpeningVar, root: nat, spend: nat, match_: nat, w: Assignment)
    requires p.Valid() && |o.elems| == |o.indices|
  {
    var c, r := CommitmentAt(p, s, w), At(w, s.wallet.randomness);
    && At(w, root) == RootAt(p, c, o, w)
    && At(w, spend) == SpendNullifier(p, c, r)
    && At(w, match_) == MatchNullifier(p, c, r)
  }

  method ConstrainSpent(cs: ConstraintSystem, p: Params, s: StateVar, o: OpeningVar, root: nat, spend: nat, match_: nat)
    requires cs.Valid() && p.Valid() && StateKnown(s, cs.wires) && OpeningKnown(o, cs.wires)
    modifies cs
    ensures cs.Valid() && cs.wires >= old(cs.wires) && cs.unchecked == old(cs.unchecked)
    ensures forall w {:trigger Satisfies(cs.constraints, w)} :: Satisfies(cs.constraints, w) ==>
      Satisfies(old(cs.constraints), w) && Spent(p, s, o, root, spend, match_, w)
    ensures forall w {:trigger Honest(cs.hints, w)} :: Honest(cs.hints, w) ==>
      && Honest(old(cs.hints), w)
      && (Satisfies(cs.constraints, w) <==> Satisfies(old(cs.constraints), w) && Spent(p, s, o, root, spend, match_, w))
  {
    hide Eval, Satisfies, Honest, At, Climb, AllWide, WalletCommitment, WalletAt, FeesAt, PairHash, Add, RootAt;
    var r := s.wallet.randomness;
    var commit := WalletCommit(cs, p, s.wallet, s.fees);
    ghost var n := cs.wires;
    ConstrainRoot(cs, p, commit, o, root);
    KnownMore(commit, n, cs.wires);
    ConstrainPairHash(cs, p, commit, Wire(r), spend);
    KnownMore(commit, n, cs.wires);
    ConstrainPairHash(cs, p, commit, Sum(Wire(r), ONE), match_);
    forall w ensures Eval(Wire(r), w) == At(w, r) && Eval(Sum(Wire(r), ONE), w) == Add(At(w, r), 1) {
      EvalWire(r, w);
      EvalSum(Wire(r), ONE, w);
      EvalOne(w);
    }
  }

  /** The public wire is the commitment to a new wallet. */
  method ConstrainCommitted(cs: ConstraintSystem, p: Params, s: StateVar, commitment: nat)
    requires cs.Valid() && p.Valid() && StateKnown(s, cs.wires)
    modifies cs
    ensures cs.Valid() && cs.wires >= old(cs.wires) && cs.unchecked == old(cs.unchecked)
    ensures forall w {:trigger Satisfies(cs.constraints, w)} :: Satisfies(cs.constraints, w) ==>
      Satisfies(old(cs.constraints), w) && At(w, commitment) == CommitmentAt(p, s, w)
    ensures forall w {:trigger Honest(cs.hints, w)} :: Honest(cs.hints, w) ==>
      && Honest(old(cs.hints), w)
      && (Satisfies(cs.constraints, w) <==> Satisfies(old(cs.constraints), w) && At(w, commitment) == CommitmentAt(p, s, w))
  {
    hide Eval, Satisfies, Honest, At, AllWide, WalletCommitment, WalletAt, FeesAt;
    var res := WalletCommit(cs, p, s.wallet, s.fees);
    ConstrainEqual(cs, Wire(commitment), res);
    forall w ensures Eval(Wire(commitment), w) == At(w, commitment) { EvalWire(commitment, w); }
  }

  // ---- VALID WALLET UPDATE -------------------------------------------------------------

  datatype UpdateWires = UpdateWires(
    old_: StateVar, opening: OpeningVar, new_: StateVar, internal: InternalVar, external: ExternalVar,
    timestamp: nat, pkRoot: nat, merkleRoot: nat, matchNullifier: nat, spendNullifier: nat, newCommitment: nat)

  ghost predicate UpdateWiresKnown(u: UpdateWires, n: nat) {
    && StateKnown(u.old_, n) && StateKnown(u.new_, n) && OpeningKnown(u.opening, n)
    && TransfersKnown(u.internal, u.external, n) && u.timestamp < n
    && |u.new_.wallet.orders| <= |u.old_.wallet.orders|
  }

  /** The statement of VALID WALLET UPDATE, besides the range of the new amounts. */
  ghost predicate UpdateStatement(p: Params, u: UpdateWires, w: Assignment)
    requires p.Valid() && |u.opening.elems| == |u.opening.indices|
  {
    && At(w, u.newCommitment) == CommitmentAt(p, u.new_, w)
    && Spent(p, u.old_, u.opening, u.merkleRoot, u.spendNullifier, u.matchNullifier, w)
    && At(w, u.pkRoot) == At(w, u.old_.wallet.keys.root)
    && UpdateApplied(WalletAt(u.old_.wallet, w), WalletAt(u.new_.wallet, w), At(w, u.timestamp),
         InternalAt(u.internal, w), ExternalAt(u.external, w))
  }

  method ValidWalletUpdate(cs: ConstraintSystem, p: Params, u: UpdateWires)
    requires cs.Valid() && p.Valid() && UpdateWiresKnown(u, cs.wires)
    modifies cs
    ensures cs.Valid()
    ensures forall w {:trigger Satisfies(cs.constraints, w)} :: Satisfies(cs.constraints, w) ==>
      && Satisfies(old(cs.constraints), w) && UpdateStatement(p, u, w)
      && (Plausible(cs.unchecked, w) ==> AmountsBelow(BalancesAt(u.new_.wallet.balances, w), Pow2(64)))
    ensures forall w {:trigger Honest(cs.hints, w)} :: Honest(cs.hints, w) ==>
      && Honest(old(cs.hints), w)
      && (Satisfies(cs.constraints, w) <==>
            && Satisfies(old(cs.constraints), w) && UpdateStatement(p, u, w)
            && AmountsBelow(BalancesAt(u.new_.wallet.balances, w), Pow2(64)))
  {
    hide Eval, Satisfies, Honest, Plausible, At, AllWide, CommitmentAt, Spent, UpdateApplied, AmountsBelow, WalletAt,
      InternalAt, ExternalAt, BalancesAt, Pow2;
    ConstrainCommitted(cs, p, u.new_, u.newCommitment);
    ConstrainSpent(cs, p, u.old_, u.opening, u.merkleRoot, u.spendNullifier, u.matchNullifier);
    ConstrainEqual(cs, Wire(u.pkRoot), Wire(u.old_.wallet.keys.root));
    UpdateCircuit(cs, u.old_.wallet, u.new_.wallet, u.timestamp, u.internal, u.external);
    forall w ensures Eval(Wire(u.pkRoot), w) == At(w, u.pkRoot)
        && Eval(Wire(u.old_.wallet.keys.root), w) == At(w, u.old_.wallet.keys.root) {
      EvalWire(u.pkRoot, w);
      EvalWire(u.old_.wallet.keys.root, w);
    }
  }

  // ---- VALID SETTLE --------------------------------------------------------------------

  datatype SettleWires = SettleWires(
    pre: StateVar, preOpening: OpeningVar, post: StateVar, note: NoteVar, noteOpening: OpeningVar, skSettle: nat,
    merkleRoot: nat, spendNullifier: nat, matchNullifier: nat, redeemNullifier: nat, postCommitment: nat, type_: nat)

  ghost predicate SettleWiresKnown(s: SettleWires, n: nat) {
    && StateKnown(s.pre, n) && StateKnown(s.post, n) && OpeningKnown(s.preOpening, n) && OpeningKnown(s.noteOpening, n)
    && NoteKnown(s.note, n) && s.skSettle < n && |s.post.wallet.orders| == |s.pre.wallet.orders|
  }

  function NoteCommitmentAt(p: Params, s: SettleWires, w: Assignment): Elem
    requires p.Valid()
  {
    NoteCommitment(p, NoteAt(s.note, w), At(w, s.pre.wallet.keys.settle))
  }

  /** The note is under the root, addressed to the wallet, and this is its redeem nullifier. */
  ghost predicate NoteRedeemed(p: Params, s: SettleWires, w: Assignment)
    requires p.Valid() && |s.noteOpening.elems| == |s.noteOpening.indices|
  {
    && At(w, s.merkleRoot) == RootAt(p, NoteCommitmentAt(p, s, w), s.noteOpening, w)
    && At(w, s.redeemNullifier) == PairHash(p, NoteCommitmentAt(p, s, w), At(w, s.pre.wallet.keys.settle))
  }

  /**
   A note is redeemed under one nullifier only, and two notes, or one note under two keys, share a nullifier only if
   their hashed vectors collide, or the pairs that the nullifiers hash do.
   */
  lemma RedeemedOnce(p: Params, s: SettleWires, w: Assignment, t: SettleWires, v: Assignment)
    requires p.Valid() && |s.noteOpening.elems| == |s.noteOpening.indices| && |t.noteOpening.elems| == |t.noteOpening.indices|
    requires NoteRedeemed(p, s, w) && NoteRedeemed(p, t, v)
    ensures var n, k := NoteAt(s.note, w), At(w, s.pre.wallet.keys.settle);
      var m, l := NoteAt(t.note, v), At(v, t.pre.wallet.keys.settle);
      var c, d := HashOf(p, NoteFields(n, k)), HashOf(p, NoteFields(m, l));
      && (n == m && k == l ==> At(w, s.redeemNullifier) == At(v, t.redeemNullifier))
      && (At(w, s.redeemNullifier) == At(v, t.redeemNullifier) && (n != m || k != l) ==>
          || (NoteFields(n, k) != NoteFields(m, l) && c == d)
          || ([c, k] != [d, l] && HashOf(p, [c, k]) == HashOf(p, [d, l])))
  {
    hide At, HashOf, RootAt;
    var n, k := NoteAt(s.note, w), At(w, s.pre.wallet.keys.settle);
    var m, l := NoteAt(t.note, v), At(v, t.pre.wallet.keys.settle);
    NotePreimageFixes(n, k, m, l);
    var x, y := [HashOf(p, NoteFields(n, k)), k], [HashOf(p, NoteFields(m, l)), l];
    assert x[0] != y[0] ==> x != y;
  }

  method ConstrainRedeemed(cs: ConstraintSystem, p: Params, s: SettleWires)
    requires cs.Valid() && p.Valid() && SettleWiresKnown(s, cs.wires)
    modifies cs
    ensures cs.Valid() && cs.wires >= old(cs.wires) && cs.unchecked == old(cs.unchecked)
    ensures forall w {:trigger Satisfies(cs.constraints, w)} :: Satisfies(cs.constraints, w) ==>
      Satisfies(old(cs.constraints), w) && NoteRedeemed(p, s, w)
    ensures forall w {:trigger Honest(cs.hints, w)} :: Honest(cs.hints, w) ==>
      && Honest(old(cs.hints), w)
      && (Satisfies(cs.constraints, w) <==> Satisfies(old(cs.constraints), w) && NoteRedeemed(p, s, w))
  {
    hide Eval, Satisfies, Honest, At, AllWide, NoteCommitment, NoteAt, PairHash, RootAt;
    var key := s.pre.wallet.keys.settle;
    var commit := NoteCommit(cs, p, s.note, key);
    ghost var n := cs.wires;
    ConstrainRoot(cs, p, commit, s.noteOpening, s.merkleRoot);
    KnownMore(commit, n, cs.wires);
    ConstrainPairHash(cs, p, commit, Wire(key), s.redeemNullifier);
    forall w ensures Eval(Wire(key), w) == At(w, key) { EvalWire(key, w); }
  }

  /** The prover knows the settle key's preimage. */
  method ConstrainKey(cs: ConstraintSystem, p: Params, secret: nat, key: nat)
    requires cs.Valid() && p.Valid() && secret < cs.wires
    modifies cs
    ensures cs.Valid() && cs.wires >= old(cs.wires) && cs.unchecked == old(cs.unchecked)
    ensures forall w {:trigger Satisfies(cs.constraints, w)} :: Satisfies(cs.constraints, w) ==>
      Satisfies(old(cs.constraints), w) && At(w, key) == HashOf(p, [At(w, secret)])
    ensures forall w {:trigger Honest(cs.hints, w)} :: Honest(cs.hints, w) ==>
      && Honest(old(cs.hints), w)
      && (Satisfies(cs.constraints, w) <==> Satisfies(old(cs.constraints), w) && At(w, key) == HashOf(p, [At(w, secret)]))
  {
    hide Eval, Satisfies, Honest, At, AllWide, HashOf;
    var res := Hash(cs, p, [Wire(secret)]);
    ConstrainEqual(cs, Wire(key), res);
    forall w ensures Eval(Wire(key), w) == At(w, key) && Evals([Wire(secret)], w) == [At(w, secret)] {
      EvalWire(key, w);
      EvalWire(secret, w);
    }
  }

  /** The statement of VALID SETTLE. */
  ghost predicate SettleStatement(p: Params, s: SettleWires, w: Assignment)
    requires p.Valid() && |s.preOpening.elems| == |s.preOpening.indices| && |s.noteOpening.elems| == |s.noteOpening.indices|
  {
    && At(w, s.postCommitment) == CommitmentAt(p, s.post, w)
    && Spent(p, s.pre, s.preOpening, s.merkleRoot, s.spendNullifier, s.matchNullifier, w)
    && NoteRedeemed(p, s, w)
    && At(w, s.pre.wallet.keys.settle) == HashOf(p, [At(w, s.skSettle)])
    && At(w, s.type_) == At(w, s.note.type_)
    && Settled(WalletAt(s.pre.wallet, w), WalletAt(s.post.wallet, w), NoteAt(s.note, w))
  }

  method ValidSettle(cs: ConstraintSystem, p: Params, s: SettleWires)
    requires cs.Valid() && p.Valid() && SettleWiresKnown(s, cs.wires)
    modifies cs
    ensures cs.Valid()
    ensures forall w {:trigger Satisfies(cs.constraints, w)} :: Satisfies(cs.constraints, w) ==>
      Satisfies(old(cs.constraints), w) && SettleStatement(p, s, w)
    ensures forall w {:trigger Honest(cs.hints, w)} :: Honest(cs.hints, w) ==>
      && Honest(old(cs.hints), w)
      && (Satisfies(cs.constraints, w) <==> Satisfies(old(cs.constraints), w) && SettleStatement(p, s, w))
  {
    hide Eval, Satisfies, Honest, At, AllWide, CommitmentAt, Spent, NoteRedeemed, Settled, WalletAt, NoteAt, HashOf;
    ConstrainSpent(cs, p, s.pre, s.preOpening, s.merkleRoot, s.spendNullifier, s.matchNullifier);
    ConstrainRedeemed(cs, p, s);
    ConstrainCommitted(cs, p, s.post, s.postCommitment);
    ConstrainKey(cs, p, s.skSettle, s.pre.wallet.keys.settle);
    ConstrainEqual(cs, Wire(s.type_), Wire(s.note.type_));
    SettleCircuit(cs, s.pre.wallet, s.post.wallet, s.note);
    forall w ensures Eval(Wire(s.type_), w) == At(w, s.type_) && Eval(Wire(s.note.type_), w) == At(w, s.note.type_) {
      EvalWire(s.type_, w);
      EvalWire(s.note.type_, w);
    }
  }

  // ---- what the statements bind --------------------------------------------------------

  /** A spent wallet is committed at the opened index of the state tree, or the opening exhibits a collision. */
  lemma SpentIsLeaf(p: Params, s: StateVar, o: OpeningVar, root: nat, spend: nat, match_: nat, w: Assignment, t: Tree)
    returns (a: (Elem, Elem), b: (Elem, Elem))
    requires p.Valid() && |o.elems| == |o.indices| && Spent(p, s, o, root, spend, match_, w)
    requires Complete(t, |o.indices|) && At(w, root) == Root(p, t) && AllBits(WireValues(o.indices, w))
    ensures CommitmentAt(p, s, w) == LeafAt(t, WireValues(o.indices, w)) || Collision(p, a, b)
  {
    hide Climb, Root, LeafAt, PairHash, WalletCommitment, AllWide;
    a, b := OpeningBinds(p, t, CommitmentAt(p, s, w), WireValues(o.elems, w), WireValues(o.indices, w));
  }

  /** Two wallets hash alike as different vectors. */
  ghost predicate Collide(p: Params, a: Wallet, fees: seq<WalletFee>, b: Wallet, others: seq<WalletFee>)
    requires p.Valid()
  {
    && Flatten(WalletChunks(a, fees)) != Flatten(WalletChunks(b, others))
    && HashOf(p, Flatten(WalletChunks(a, fees))) == HashOf(p, Flatten(WalletChunks(b, others)))
  }

  /**
   What is spent at the index of a committed wallet is that wallet, up to order timestamps, unless two tree nodes or
   the two wallets collide.
   */
  lemma LeafIsSpent(p: Params, c: StateVar, u: Assignment, s: StateVar, o: OpeningVar, root: nat, spend: nat, match_: nat,
      w: Assignment, t: Tree) returns (a: (Elem, Elem), b: (Elem, Elem))
    requires p.Valid() && |o.elems| == |o.indices| && Spent(p, s, o, root, spend, match_, w)
    requires Complete(t, |o.indices|) && At(w, root) == Root(p, t) && AllBits(WireValues(o.indices, w))
    requires LeafAt(t, WireValues(o.indices, w)) == CommitmentAt(p, c, u)
    requires SameShape(WalletAt(c.wallet, u), FeesAt(c.fees, u), WalletAt(s.wallet, w), FeesAt(s.fees, w))
    ensures
      || SameButTimestamps(WalletAt(c.wallet, u), FeesAt(c.fees, u), WalletAt(s.wallet, w), FeesAt(s.fees, w))
      || Collision(p, a, b)
      || Collide(p, WalletAt(c.wallet, u), FeesAt(c.fees, u), WalletAt(s.wallet, w), FeesAt(s.fees, w))
  {
    hide Climb, Root, LeafAt, PairHash, HashOf, AllWide, WalletChunks, WalletAt, FeesAt, Spent;
    a, b := SpentIsLeaf(p, s, o, root, spend, match_, w, t);
    PreimageFixesWallet(WalletAt(c.wallet, u), FeesAt(c.fees, u), WalletAt(s.wallet, w), FeesAt(s.fees, w));
  }

  /** The commitment that an update publishes is its new wallet's, so the next step spends the updated wallet. */
  lemma UpdateIsSpentNext(p: Params, u: UpdateWires, v: Assignment, s: StateVar, o: OpeningVar, root: nat, spend: nat,
      match_: nat, w: Assignment, t: Tree) returns (a: (Elem, Elem), b: (Elem, Elem))
    requires p.Valid() && |u.opening.elems| == |u.opening.indices| && UpdateStatement(p, u, v)
    requires |o.elems| == |o.indices| && Spent(p, s, o, root, spend, match_, w)
    requires Complete(t, |o.indices|) && At(w, root) == Root(p, t) && AllBits(WireValues(o.indices, w))
    requires LeafAt(t, WireValues(o.indices, w)) == At(v, u.newCommitment)
    requires SameShape(WalletAt(u.new_.wallet, v), FeesAt(u.new_.fees, v), WalletAt(s.wallet, w), FeesAt(s.fees, w))
    ensures
      || SameButTimestamps(WalletAt(u.new_.wallet, v), FeesAt(u.new_.fees, v), WalletAt(s.wallet, w), FeesAt(s.fees, w))
      || Collision(p, a, b)
      || Collide(p, WalletAt(u.new_.wallet, v), FeesAt(u.new_.fees, v), WalletAt(s.wallet, w), FeesAt(s.fees, w))
    ensures At(v, u.pkRoot) == WalletAt(u.new_.wallet, v).keys.root
  {
    hide LeafAt, Root, HashOf, AllWide, WalletCommitment, Spent, TransfersApplied, UniquePairs, TimestampsUpTo, Add, At,
      SameButTimestamps, SameShape, Collide, BalancesAt, OrdersAt;
    a, b := LeafIsSpent(p, u.new_, v, s, o, root, spend, match_, w, t);
    assert WalletAt(u.old_.wallet, v).keys.root == WalletAt(u.new_.wallet, v).keys.root;
  }

  /** The same for a settlement. */
  lemma SettlementIsSpentNext(p: Params, c: SettleWires, v: Assignment, s: StateVar, o: OpeningVar, root: nat, spend: nat,
      match_: nat, w: Assignment, t: Tree) returns (a: (Elem, Elem), b: (Elem, Elem))
    requires p.Valid() && |c.preOpening.elems| == |c.preOpening.indices| && |c.noteOpening.elems| == |c.noteOpening.indices|
    requires SettleStatement(p, c, v) && |o.elems| == |o.indices| && Spent(p, s, o, root, spend, match_, w)
    requires Complete(t, |o.indices|) && At(w, root) == Root(p, t) && AllBits(WireValues(o.indices, w))
    requires LeafAt(t, WireValues(o.indices, w)) == At(v, c.postCommitment)
    requires SameShape(WalletAt(c.post.wallet, v), FeesAt(c.post.fees, v), WalletAt(s.wallet, w), FeesAt(s.fees, w))
    ensures
      || SameButTimestamps(WalletAt(c.post.wallet, v), FeesAt(c.post.fees, v), WalletAt(s.wallet, w), FeesAt(s.fees, w))
      || Collision(p, a, b)
      || Collide(p, WalletAt(c.post.wallet, v), FeesAt(c.post.fees, v), WalletAt(s.wallet, w), FeesAt(s.fees, w))
  {
    hide LeafAt, Root, HashOf, AllWide, WalletCommitment, Spent, Settled, NoteRedeemed, At, SameButTimestamps, SameShape,
      Collide, WalletAt, FeesAt;
    a, b := LeafIsSpent(p, c.post, v, s, o, root, spend, match_, w, t);
  }

  /** A commitment says nothing about timestamps: an update may start from any. */
  lemma TimestampsAreFree(p: Params, v: Wallet, fees: seq<WalletFee>, i: nat, stamp: Elem)
    requires p.Valid() && i < |v.orders|
    ensures WalletCommitment(p, v.(orders := v.orders[i := v.orders[i].(timestamp := stamp)]), fees) == WalletCommitment(p, v, fees)
  {
    hide HashOf, WalletChunks, AllWide, Flatten;
    PreimageFixesWallet(v.(orders := v.orders[i := v.orders[i].(timestamp := stamp)]), fees, v, fees);
  }
}
