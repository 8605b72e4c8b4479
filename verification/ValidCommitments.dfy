/**
 VALID COMMITMENTS (circuits/src/zk_circuits/valid_commitments.rs): a balance, an order and a fee occur exactly
 once in a wallet of the state tree, and the balances cover the order and the fee.
 */
module ValidCommitments {
  import opened Numbers
  import opened ResidueField
  import opened ScalarField
  import opened MpcBits
  import opened ConstraintSystems
  import opened ZkGadgets
  import opened PoseidonSponge
  import opened ZkPoseidon
  import opened ZkMerkle
  import opened WalletUpdate
  import opened Commitments
  import opened StateCircuits
  import MatchCheck

  // ---- counting ------------------------------------------------------------------------

  ghost function Matches<T>(x: T, xs: seq<T>): (n: nat)
    ensures n <= |xs|
  {
    if |xs| == 0 then 0 else Matches(x, xs[..|xs| - 1]) + if xs[|xs| - 1] == x then 1 else 0
  }

  lemma {:induction false} NoMatch<T>(x: T, xs: seq<T>)
    ensures Matches(x, xs) == 0 <==> x !in xs
  {
    if |xs| > 0 {
      var n := |xs| - 1;
      NoMatch(x, xs[..n]);
      assert xs == xs[..n] + [xs[n]];
    }
  }

  ghost predicate OnlyAt<T>(x: T, xs: seq<T>, i: nat) {
    i < |xs| && xs[i] == x && forall j :: 0 <= j < |xs| && xs[j] == x ==> j == i
  }

  lemma OnlyInFront<T>(x: T, xs: seq<T>, i: nat)
    requires i + 1 < |xs|
    ensures OnlyAt(x, xs, i) <==> OnlyAt(x, xs[..|xs| - 1], i) && xs[|xs| - 1] != x
  {
    var front := xs[..|xs| - 1];
    if OnlyAt(x, xs, i) {
      assert front[i] == xs[i];
      forall j | 0 <= j < |front| && front[j] == x ensures j == i { assert xs[j] == x; }
    }
    if OnlyAt(x, front, i) && xs[|xs| - 1] != x {
      forall j | 0 <= j < |xs| && xs[j] == x ensures j == i { assert j < |front| ==> front[j] == x; }
    }
  }

  lemma OnlyLast<T>(x: T, xs: seq<T>)
    requires |xs| > 0
    ensures OnlyAt(x, xs, |xs| - 1) <==> xs[|xs| - 1] == x && x !in xs[..|xs| - 1]
  {
  }

  /** A count of one means exactly one position. */
  lemma {:induction false} OneMatch<T>(x: T, xs: seq<T>)
    ensures Matches(x, xs) == 1 <==> exists i: nat :: OnlyAt(x, xs, i)
  {
    if |xs| > 0 {
      hide OnlyAt;
      var n := |xs| - 1;
      NoMatch(x, xs[..n]);
      OneMatch(x, xs[..n]);
      OnlyLast(x, xs);
      OnlyBounds(x, xs);
      OnlyBounds(x, xs[..n]);
      forall i: nat | i < n ensures OnlyAt(x, xs, i) <==> OnlyAt(x, xs[..n], i) && xs[n] != x {
        OnlyInFront(x, xs, i);
      }
    }
  }

  lemma OnlyBounds<T>(x: T, xs: seq<T>)
    ensures forall i: nat :: OnlyAt(x, xs, i) ==> i < |xs|
  {
  }

  /** Counting survives an injective encoding. */
  lemma {:induction false} MatchesEncoded<T(!new)>(enc: T -> seq<Elem>, x: T, xs: seq<T>, ys: seq<seq<Elem>>)
    requires |xs| == |ys| && (forall i :: 0 <= i < |xs| ==> ys[i] == enc(xs[i]))
    requires forall a, b :: enc(a) == enc(b) ==> a == b
    ensures Matches(enc(x), ys) == Matches(x, xs)
  {
    if |xs| > 0 {
      MatchesEncoded(enc, x, xs[..|xs| - 1], ys[..|xs| - 1]);
    }
  }

  // ---- membership ----------------------------------------------------------------------

  /** Sums the equality tests and constrains the sum to one. */
  method ConstrainOnce(cs: ConstraintSystem, item: seq<LC>, list: seq<seq<LC>>)
    requires cs.Valid() && AllKnown(item, cs.wires) && ChunksKnown(list, cs.wires)
    requires (forall i :: 0 <= i < |list| ==> |list[i]| == |item|) && |item| < P && |list| < P
    modifies cs
    ensures cs.Valid() && cs.wires >= old(cs.wires) && cs.unchecked == old(cs.unchecked)
    ensures forall w {:trigger Satisfies(cs.constraints, w)} :: Satisfies(cs.constraints, w) ==>
      Satisfies(old(cs.constraints), w) && Matches(Evals(item, w), ChunkValues(list, w)) == 1
    ensures forall w {:trigger Honest(cs.hints, w)} :: Honest(cs.hints, w) ==>
      && Honest(old(cs.hints), w)
      && (Satisfies(cs.constraints, w) <==> Satisfies(old(cs.constraints), w) && Matches(Evals(item, w), ChunkValues(list, w)) == 1)
  {
    hide Eval, Satisfies, Honest, At, Matches, Evals, Known, ChunkValues, F, Counted;
    var sum: LC := ZERO;
    assert Known(sum, cs.wires) by { ZeroKnown(cs.wires); }
    forall w ensures Counted(sum, item, list[..0], w) { CountStarts(item, list, w); }
    for i := 0 to |list|
      invariant cs.Valid() && cs.wires >= old(cs.wires) && cs.unchecked == old(cs.unchecked) && Known(sum, cs.wires)
      invariant forall w {:trigger Satisfies(cs.constraints, w)} :: Satisfies(cs.constraints, w) ==>
        Satisfies(old(cs.constraints), w) && Counted(sum, item, list[..i], w)
      invariant forall w {:trigger Honest(cs.hints, w)} :: Honest(cs.hints, w) ==>
        && Honest(old(cs.hints), w) && Counted(sum, item, list[..i], w)
        && (Satisfies(old(cs.constraints), w) ==> Satisfies(cs.constraints, w))
    {
      AllKnownMore(item, old(cs.wires), cs.wires);
      AllKnownMore(list[i], old(cs.wires), cs.wires);
      ghost var n, before := cs.wires, sum;
      var eq := EqVec(cs, item, list[i]);
      KnownMore(sum, n, cs.wires);
      SumKnown(sum, eq, cs.wires);
      sum := Sum(sum, Wire(eq));
      forall w | Counted(before, item, list[..i], w) && At(w, eq) == Bit(Evals(item, w) == Evals(list[i], w))
        ensures Counted(sum, item, list[..i + 1], w)
      {
        CountStep(before, item, list, i, eq, w);
      }
    }
    assert list[..|list|] == list;
    ConstrainEqual(cs, sum, ONE);
    forall w | Counted(sum, item, list, w)
      ensures Eval(sum, w) == Eval(ONE, w) <==> Matches(Evals(item, w), ChunkValues(list, w)) == 1
    {
      CountEnds(sum, item, list, w);
    }
  }

  ghost predicate Counted(sum: LC, item: seq<LC>, list: seq<seq<LC>>, w: Assignment) {
    Eval(sum, w) == F(Matches(Evals(item, w), ChunkValues(list, w)))
  }

  lemma ZeroKnown(n: nat)
    ensures Known(ZERO, n)
  {
  }

  lemma SumKnown(sum: LC, i: nat, n: nat)
    requires Known(sum, n) && i < n
    ensures Known(Sum(sum, Wire(i)), n)
  {
  }

  lemma CountStarts(item: seq<LC>, list: seq<seq<LC>>, w: Assignment)
    ensures Counted(ZERO, item, list[..0], w)
  {
    hide F, Evals;
    EvalOne(w);
    FSelf(0);
  }

  lemma CountStep(sum: LC, item: seq<LC>, list: seq<seq<LC>>, i: nat, eq: nat, w: Assignment)
    requires i < |list| && Counted(sum, item, list[..i], w) && At(w, eq) == Bit(Evals(item, w) == Evals(list[i], w))
    ensures Counted(Sum(sum, Wire(eq)), item, list[..i + 1], w)
  {
    hide F, Eval, Evals, At, Add;
    var x, ys := Evals(item, w), ChunkValues(list[..i + 1], w);
    assert ys[..i] == ChunkValues(list[..i], w) && ys[i] == Evals(list[i], w);
    EvalSum(sum, Wire(eq), w);
    EvalWire(eq, w);
    FSelf(At(w, eq));
    FAdd(Matches(x, ys[..i]), At(w, eq));
  }

  lemma CountEnds(sum: LC, item: seq<LC>, list: seq<seq<LC>>, w: Assignment)
    requires Counted(sum, item, list, w) && |list| < P
    ensures Eval(sum, w) == Eval(ONE, w) <==> Matches(Evals(item, w), ChunkValues(list, w)) == 1
  {
    hide F, Eval, Evals, Matches;
    EvalOne(w);
    FSelf(Matches(Evals(item, w), ChunkValues(list, w)));
  }

  // ---- the three lists -----------------------------------------------------------------

  function OrderVector(o: Order): seq<Elem> {
    [o.quoteMint, o.baseMint, o.side, o.price, o.amount, o.timestamp]
  }

  function BalanceWires(b: BalanceVar): seq<LC> {
    [Wire(b.mint), Wire(b.amount)]
  }

  function OrderWires(o: OrderVar): seq<LC> {
    [Wire(o.quoteMint), Wire(o.baseMint), Wire(o.side), Wire(o.price), Wire(o.amount), Wire(o.timestamp)]
  }

  function FeeWires(f: WalletFeeVar): seq<LC> {
    [Wire(f.settleKey), Wire(f.gasAddr), Wire(f.gasAmount), Wire(f.percentage)]
  }

  function WalletFeeAt(f: WalletFeeVar, w: Assignment): WalletFee {
    WalletFee(At(w, f.settleKey), At(w, f.gasAddr), At(w, f.gasAmount), At(w, f.percentage))
  }

  lemma BalancesMatch(b: BalanceVar, bs: seq<BalanceVar>, list: seq<seq<LC>>, w: Assignment)
    requires |list| == |bs| && forall i :: 0 <= i < |bs| ==> list[i] == BalanceWires(bs[i])
    ensures Matches(Evals(BalanceWires(b), w), ChunkValues(list, w)) == Matches(BalanceAt(b, w), BalancesAt(bs, w))
  {
    hide At, Matches;
    forall x, y | BalanceChunk(x) == BalanceChunk(y) ensures x == y {
      assert BalanceChunk(x)[0] == BalanceChunk(y)[0] && BalanceChunk(x)[1] == BalanceChunk(y)[1];
    }
    assert Evals(BalanceWires(b), w) == BalanceChunk(BalanceAt(b, w));
    forall i | 0 <= i < |bs| ensures ChunkValues(list, w)[i] == BalanceChunk(BalancesAt(bs, w)[i]) {
      assert Evals(BalanceWires(bs[i]), w) == BalanceChunk(BalanceAt(bs[i], w));
    }
    MatchesEncoded(BalanceChunk, BalanceAt(b, w), BalancesAt(bs, w), ChunkValues(list, w));
  }

  lemma OrderVectorInjective(x: Order, y: Order)
    requires OrderVector(x) == OrderVector(y)
    ensures x == y
  {
    var a, b := OrderVector(x), OrderVector(y);
    assert a[0] == b[0] && a[1] == b[1] && a[2] == b[2] && a[3] == b[3] && a[4] == b[4] && a[5] == b[5];
  }

  lemma OrdersMatch(o: OrderVar, os: seq<OrderVar>, list: seq<seq<LC>>, w: Assignment)
    requires |list| == |os| && forall i :: 0 <= i < |os| ==> list[i] == OrderWires(os[i])
    ensures Matches(Evals(OrderWires(o), w), ChunkValues(list, w)) == Matches(OrderAt(o, w), OrdersAt(os, w))
  {
    hide At, Matches;
    forall x, y | OrderVector(x) == OrderVector(y) ensures x == y { OrderVectorInjective(x, y); }
    assert Evals(OrderWires(o), w) == OrderVector(OrderAt(o, w));
    forall i | 0 <= i < |os| ensures ChunkValues(list, w)[i] == OrderVector(OrdersAt(os, w)[i]) {
      assert Evals(OrderWires(os[i]), w) == OrderVector(OrderAt(os[i], w));
    }
    MatchesEncoded(OrderVector, OrderAt(o, w), OrdersAt(os, w), ChunkValues(list, w));
  }

  lemma FeeChunkInjective(x: WalletFee, y: WalletFee)
    requires FeeChunk(x) == FeeChunk(y)
    ensures x == y
  {
    var a, b := FeeChunk(x), FeeChunk(y);
    assert a[0] == b[0] && a[1] == b[1] && a[2] == b[2] && a[3] == b[3];
  }

  lemma FeesMatch(f: WalletFeeVar, fs: seq<WalletFeeVar>, list: seq<seq<LC>>, w: Assignment)
    requires |list| == |fs| && forall i :: 0 <= i < |fs| ==> list[i] == FeeWires(fs[i])
    ensures Matches(Evals(FeeWires(f), w), ChunkValues(list, w)) == Matches(WalletFeeAt(f, w), FeesAt(fs, w))
  {
    hide At, Matches;
    forall x, y | FeeChunk(x) == FeeChunk(y) ensures x == y { FeeChunkInjective(x, y); }
    assert Evals(FeeWires(f), w) == FeeChunk(WalletFeeAt(f, w));
    forall i | 0 <= i < |fs| ensures ChunkValues(list, w)[i] == FeeChunk(FeesAt(fs, w)[i]) {
      assert Evals(FeeWires(fs[i]), w) == FeeChunk(WalletFeeAt(fs[i], w));
    }
    MatchesEncoded(FeeChunk, WalletFeeAt(f, w), FeesAt(fs, w), ChunkValues(list, w));
  }

  /** verify_wallet_contains_balance. */
  method ContainsBalance(cs: ConstraintSystem, b: BalanceVar, bs: seq<BalanceVar>)
    requires cs.Valid() && BalancesKnown(bs, cs.wires) && b.mint < cs.wires && b.amount < cs.wires && |bs| < P
    modifies cs
    ensures cs.Valid() && cs.wires >= old(cs.wires) && cs.unchecked == old(cs.unchecked)
    ensures forall w {:trigger Satisfies(cs.constraints, w)} :: Satisfies(cs.constraints, w) ==>
      Satisfies(old(cs.constraints), w) && Matches(BalanceAt(b, w), BalancesAt(bs, w)) == 1
    ensures forall w {:trigger Honest(cs.hints, w)} :: Honest(cs.hints, w) ==>
      && Honest(old(cs.hints), w)
      && (Satisfies(cs.constraints, w) <==> Satisfies(old(cs.constraints), w) && Matches(BalanceAt(b, w), BalancesAt(bs, w)) == 1)
  {
    hide Eval, Satisfies, Honest, At, Matches, Evals, BalanceAt, BalancesAt, ChunkValues;
    var list := seq(|bs|, i requires 0 <= i < |bs| => BalanceWires(bs[i]));
    ConstrainOnce(cs, BalanceWires(b), list);
    forall w ensures Matches(Evals(BalanceWires(b), w), ChunkValues(list, w)) == Matches(BalanceAt(b, w), BalancesAt(bs, w)) {
      BalancesMatch(b, bs, list, w);
    }
  }

  /** verify_wallet_contains_order. */
  method ContainsOrder(cs: ConstraintSystem, o: OrderVar, os: seq<OrderVar>)
    requires cs.Valid() && OrdersKnown(os, cs.wires) && OrderKnown(o, cs.wires) && |os| < P
    modifies cs
    ensures cs.Valid() && cs.wires >= old(cs.wires) && cs.unchecked == old(cs.unchecked)
    ensures forall w {:trigger Satisfies(cs.constraints, w)} :: Satisfies(cs.constraints, w) ==>
      Satisfies(old(cs.constraints), w) && Matches(OrderAt(o, w), OrdersAt(os, w)) == 1
    ensures forall w {:trigger Honest(cs.hints, w)} :: Honest(cs.hints, w) ==>
      && Honest(old(cs.hints), w)
      && (Satisfies(cs.constraints, w) <==> Satisfies(old(cs.constraints), w) && Matches(OrderAt(o, w), OrdersAt(os, w)) == 1)
  {
    hide Eval, Satisfies, Honest, At, Matches, Evals, OrderAt, OrdersAt, ChunkValues;
    var list := seq(|os|, i requires 0 <= i < |os| => OrderWires(os[i]));
    ConstrainOnce(cs, OrderWires(o), list);
    forall w ensures Matches(Evals(OrderWires(o), w), ChunkValues(list, w)) == Matches(OrderAt(o, w), OrdersAt(os, w)) {
      OrdersMatch(o, os, list, w);
    }
  }

  /** verify_wallet_contains_fee. */
  method ContainsFee(cs: ConstraintSystem, f: WalletFeeVar, fs: seq<WalletFeeVar>)
    requires cs.Valid() && FeesKnown(fs, cs.wires) && FeesKnown([f], cs.wires) && |fs| < P
    modifies cs
    ensures cs.Valid() && cs.wires >= old(cs.wires) && cs.unchecked == old(cs.unchecked)
    ensures forall w {:trigger Satisfies(cs.constraints, w)} :: Satisfies(cs.constraints, w) ==>
      Satisfies(old(cs.constraints), w) && Matches(WalletFeeAt(f, w), FeesAt(fs, w)) == 1
    ensures forall w {:trigger Honest(cs.hints, w)} :: Honest(cs.hints, w) ==>
      && Honest(old(cs.hints), w)
      && (Satisfies(cs.constraints, w) <==> Satisfies(old(cs.constraints), w) && Matches(WalletFeeAt(f, w), FeesAt(fs, w)) == 1)
  {
    hide Eval, Satisfies, Honest, At, Matches, Evals, WalletFeeAt, FeesAt, ChunkValues;
    assert [f][0] == f;
    var list := seq(|fs|, i requires 0 <= i < |fs| => FeeWires(fs[i]));
    ConstrainOnce(cs, FeeWires(f), list);
    forall w ensures Matches(Evals(FeeWires(f), w), ChunkValues(list, w)) == Matches(WalletFeeAt(f, w), FeesAt(fs, w)) {
      FeesMatch(f, fs, list, w);
    }
  }

  // ---- the circuit ---------------------------------------------------------------------

  datatype CommitmentsWires = CommitmentsWires(
    state: StateVar, opening: OpeningVar, balance: BalanceVar, feeBalance: BalanceVar, order: OrderVar, fee: WalletFeeVar,
    randomnessHash: nat, skMatch: nat, merkleRoot: nat, pkSettle: nat, nullifier: nat)

  ghost predicate CommitmentsKnown(c: CommitmentsWires, n: nat) {
    && StateKnown(c.state, n) && OpeningKnown(c.opening, n) && OrderKnown(c.order, n) && FeesKnown([c.fee], n)
    && c.balance.mint < n && c.balance.amount < n && c.feeBalance.mint < n && c.feeBalance.amount < n && c.skMatch < n
    && |c.state.wallet.balances| < P && |c.state.wallet.orders| < P && |c.state.fees| < P
  }

  /** The wallet is under the root, and its match nullifier, keys and randomness are the stated ones. */
  ghost predicate WalletOpened(p: Params, c: CommitmentsWires, w: Assignment)
    requires p.Valid() && |c.opening.elems| == |c.opening.indices|
  {
    var commitment, r := CommitmentAt(p, c.state, w), At(w, c.state.wallet.randomness);
    && At(w, c.merkleRoot) == RootAt(p, commitment, c.opening, w)
    && At(w, c.pkSettle) == At(w, c.state.wallet.keys.settle)
    && At(w, c.nullifier) == MatchNullifier(p, commitment, r)
    && At(w, c.randomnessHash) == HashOf(p, [r])
    && At(w, c.state.wallet.keys.match_) == HashOf(p, [At(w, c.skMatch)])
  }

  /** The wires of two statements carry one wallet with its fees. */
  ghost predicate SameState(a: StateVar, v: Assignment, b: StateVar, w: Assignment) {
    WalletAt(a.wallet, v) == WalletAt(b.wallet, w) && FeesAt(a.fees, v) == FeesAt(b.fees, w)
  }

  /**
   The nullifier that commits a wallet to a match is the match nullifier that updating or settling it reveals, and the
   key it publishes is the one whose secret a settlement knows.
   */
  lemma CommittedIsNullified(p: Params, c: CommitmentsWires, w: Assignment, u: UpdateWires, s: SettleWires, v: Assignment)
    requires p.Valid() && |c.opening.elems| == |c.opening.indices| && WalletOpened(p, c, w)
    requires |u.opening.elems| == |u.opening.indices|
    requires |s.preOpening.elems| == |s.preOpening.indices| && |s.noteOpening.elems| == |s.noteOpening.indices|
    ensures UpdateStatement(p, u, v) && SameState(u.old_, v, c.state, w) ==> At(v, u.matchNullifier) == At(w, c.nullifier)
    ensures SettleStatement(p, s, v) && SameState(s.pre, v, c.state, w) ==>
      At(v, s.matchNullifier) == At(w, c.nullifier) && At(w, c.pkSettle) == HashOf(p, [At(v, s.skSettle)])
  {
    hide At, WalletCommitment, RootAt, HashOf, PairHash, UpdateApplied, NoteRedeemed, BalancesAt, OrdersAt;
    if UpdateStatement(p, u, v) && SameState(u.old_, v, c.state, w) {
      assert WalletAt(u.old_.wallet, v).randomness == WalletAt(c.state.wallet, w).randomness;
    }
    if SettleStatement(p, s, v) && SameState(s.pre, v, c.state, w) {
      assert WalletAt(s.pre.wallet, v).randomness == WalletAt(c.state.wallet, w).randomness;
      assert WalletAt(s.pre.wallet, v).keys.settle == WalletAt(c.state.wallet, w).keys.settle;
    }
  }

  method ConstrainOpened(cs: ConstraintSystem, p: Params, c: CommitmentsWires)
    requires cs.Valid() && p.Valid() && CommitmentsKnown(c, cs.wires)
    modifies cs
    ensures cs.Valid() && cs.wires >= old(cs.wires) && cs.unchecked == old(cs.unchecked)
    ensures forall w {:trigger Satisfies(cs.constraints, w)} :: Satisfies(cs.constraints, w) ==>
      Satisfies(old(cs.constraints), w) && WalletOpened(p, c, w)
    ensures forall w {:trigger Honest(cs.hints, w)} :: Honest(cs.hints, w) ==>
      && Honest(old(cs.hints), w)
      && (Satisfies(cs.constraints, w) <==> Satisfies(old(cs.constraints), w) && WalletOpened(p, c, w))
  {
    hide Eval, Satisfies, Honest, At, AllWide, WalletCommitment, WalletAt, FeesAt, RootAt, HashOf, Add;
    var r := c.state.wallet.randomness;
    var commit := WalletCommit(cs, p, c.state.wallet, c.state.fees);
    ghost var n := cs.wires;
    ConstrainRoot(cs, p, commit, c.opening, c.merkleRoot);
    ConstrainEqual(cs, Wire(c.pkSettle), Wire(c.state.wallet.keys.settle));
    KnownMore(commit, n, cs.wires);
    ConstrainPairHash(cs, p, commit, Sum(Wire(r), ONE), c.nullifier);
    ConstrainKey(cs, p, r, c.randomnessHash);
    ConstrainKey(cs, p, c.skMatch, c.state.wallet.keys.match_);
    forall w
      ensures Eval(Wire(c.pkSettle), w) == At(w, c.pkSettle)
      ensures Eval(Wire(c.state.wallet.keys.settle), w) == At(w, c.state.wallet.keys.settle)
      ensures Eval(Sum(Wire(r), ONE), w) == Add(At(w, r), 1)
    {
      EvalWire(c.pkSettle, w);
      EvalWire(c.state.wallet.keys.settle, w);
      EvalWire(r, w);
      EvalSum(Wire(r), ONE, w);
      EvalOne(w);
    }
  }

  /** Each component occurs exactly once in the wallet. */
  ghost predicate AllContained(c: CommitmentsWires, w: Assignment) {
    && Matches(BalanceAt(c.balance, w), BalancesAt(c.state.wallet.balances, w)) == 1
    && Matches(BalanceAt(c.feeBalance, w), BalancesAt(c.state.wallet.balances, w)) == 1
    && Matches(OrderAt(c.order, w), OrdersAt(c.state.wallet.orders, w)) == 1
    && Matches(WalletFeeAt(c.fee, w), FeesAt(c.state.fees, w)) == 1
  }

  /** The balance is of the mint that the order sells, the fee balance of the gas mint. */
  ghost predicate MintsAgree(c: CommitmentsWires, w: Assignment) {
    && At(w, c.balance.mint) == Selected(At(w, c.order.baseMint), At(w, c.order.quoteMint), At(w, c.order.side))
    && At(w, c.fee.gasAddr) == At(w, c.feeBalance.mint)
  }

  ghost predicate FeeCovered(c: CommitmentsWires, w: Assignment) {
    Sub(At(w, c.feeBalance.amount), At(w, c.fee.gasAmount)) as int < Pow2(64)
  }

  method ConstrainMints(cs: ConstraintSystem, c: CommitmentsWires)
    requires cs.Valid() && OrderKnown(c.order, cs.wires)
    modifies cs
    ensures cs.Valid() && cs.wires >= old(cs.wires) && cs.unchecked == old(cs.unchecked)
    ensures forall w {:trigger Satisfies(cs.constraints, w)} :: Satisfies(cs.constraints, w) ==>
      Satisfies(old(cs.constraints), w) && MintsAgree(c, w)
    ensures forall w {:trigger Honest(cs.hints, w)} :: Honest(cs.hints, w) ==>
      && Honest(old(cs.hints), w)
      && (Satisfies(cs.constraints, w) <==> Satisfies(old(cs.constraints), w) && MintsAgree(c, w))
  {
    hide Eval, Satisfies, Honest, At, Selected;
    var sold := Select(cs, Wire(c.order.baseMint), Wire(c.order.quoteMint), Wire(c.order.side));
    ConstrainEqual(cs, Wire(c.balance.mint), sold);
    ConstrainEqual(cs, Wire(c.fee.gasAddr), Wire(c.feeBalance.mint));
    forall w
      ensures Eval(Wire(c.order.baseMint), w) == At(w, c.order.baseMint)
      ensures Eval(Wire(c.order.quoteMint), w) == At(w, c.order.quoteMint)
      ensures Eval(Wire(c.order.side), w) == At(w, c.order.side) && Eval(Wire(c.balance.mint), w) == At(w, c.balance.mint)
      ensures Eval(Wire(c.fee.gasAddr), w) == At(w, c.fee.gasAddr)
      ensures Eval(Wire(c.feeBalance.mint), w) == At(w, c.feeBalance.mint)
    {
      EvalWire(c.order.baseMint, w);
      EvalWire(c.order.quoteMint, w);
      EvalWire(c.order.side, w);
      EvalWire(c.balance.mint, w);
      EvalWire(c.fee.gasAddr, w);
      EvalWire(c.feeBalance.mint, w);
    }
  }

  method ConstrainContained(cs: ConstraintSystem, c: CommitmentsWires)
    requires cs.Valid() && CommitmentsKnown(c, cs.wires)
    modifies cs
    ensures cs.Valid() && cs.wires >= old(cs.wires) && cs.unchecked == old(cs.unchecked)
    ensures forall w {:trigger Satisfies(cs.constraints, w)} :: Satisfies(cs.constraints, w) ==>
      Satisfies(old(cs.constraints), w) && AllContained(c, w)
    ensures forall w {:trigger Honest(cs.hints, w)} :: Honest(cs.hints, w) ==>
      && Honest(old(cs.hints), w)
      && (Satisfies(cs.constraints, w) <==> Satisfies(old(cs.constraints), w) && AllContained(c, w))
  {
    hide Satisfies, Honest, Matches, BalanceAt, BalancesAt, OrderAt, OrdersAt, WalletFeeAt, FeesAt;
    ContainsBalance(cs, c.balance, c.state.wallet.balances);
    ContainsBalance(cs, c.feeBalance, c.state.wallet.balances);
    ContainsOrder(cs, c.order, c.state.wallet.orders);
    ContainsFee(cs, c.fee, c.state.fees);
  }

  method Circuit(cs: ConstraintSystem, p: Params, c: CommitmentsWires)
    requires cs.Valid() && p.Valid() && CommitmentsKnown(c, cs.wires)
    modifies cs
    ensures cs.Valid() && cs.wires >= old(cs.wires)
    ensures forall w {:trigger Satisfies(cs.constraints, w)} :: Satisfies(cs.constraints, w) ==>
      && Satisfies(old(cs.constraints), w)
      && WalletOpened(p, c, w) && AllContained(c, w) && MintsAgree(c, w)
      && (Plausible(cs.unchecked, w) ==> FeeCovered(c, w))
    ensures forall w {:trigger Honest(cs.hints, w)} :: Honest(cs.hints, w) ==>
      && Honest(old(cs.hints), w)
      && (Satisfies(cs.constraints, w) <==>
            && Satisfies(old(cs.constraints), w)
            && WalletOpened(p, c, w) && AllContained(c, w) && MintsAgree(c, w) && FeeCovered(c, w))
  {
    hide Eval, Satisfies, Honest, Plausible, At, AllWide, WalletOpened, AllContained, MintsAgree, Sub, Pow2;
    ConstrainOpened(cs, p, c);
    ConstrainContained(cs, c);
    ConstrainMints(cs, c);
    assert [c.fee][0] == c.fee;
    MatchCheck.ConstrainGreaterThanEq(cs, Wire(c.feeBalance.amount), Wire(c.fee.gasAmount));
    forall w ensures Eval(Wire(c.feeBalance.amount), w) == At(w, c.feeBalance.amount)
        && Eval(Wire(c.fee.gasAmount), w) == At(w, c.fee.gasAmount) {
      EvalWire(c.feeBalance.amount, w);
      EvalWire(c.fee.gasAmount, w);
    }
  }

  /**
   For all field elements: one slot each, the mint that a binary side sells, and a gas amount that the fee balance
   exceeds by less than 2^64, counted around the modulus. That is gas which can be paid, up to P - 2^64.
   */
  lemma CommitmentsMean(c: CommitmentsWires, w: Assignment)
    requires AllContained(c, w) && MintsAgree(c, w)
    ensures exists i: nat :: OnlyAt(BalanceAt(c.balance, w), BalancesAt(c.state.wallet.balances, w), i)
    ensures exists i: nat :: OnlyAt(BalanceAt(c.feeBalance, w), BalancesAt(c.state.wallet.balances, w), i)
    ensures exists i: nat :: OnlyAt(OrderAt(c.order, w), OrdersAt(c.state.wallet.orders, w), i)
    ensures exists i: nat :: OnlyAt(WalletFeeAt(c.fee, w), FeesAt(c.state.fees, w), i)
    ensures IsBit(At(w, c.order.side)) ==>
      At(w, c.balance.mint) == if At(w, c.order.side) == 1 then At(w, c.order.baseMint) else At(w, c.order.quoteMint)
    ensures FeeCovered(c, w) <==> MatchCheck.Within(At(w, c.feeBalance.amount), At(w, c.fee.gasAmount), 64)
    ensures FeeCovered(c, w) && At(w, c.fee.gasAmount) as int <= P - Pow2(64) ==>
      At(w, c.fee.gasAmount) <= At(w, c.feeBalance.amount)
    ensures At(w, c.feeBalance.amount) as int < Pow2(64) ==>
      (FeeCovered(c, w) <==>
        || At(w, c.fee.gasAmount) <= At(w, c.feeBalance.amount)
        || At(w, c.fee.gasAmount) as int > At(w, c.feeBalance.amount) + P - Pow2(64))
  {
    hide At, Selected, Sub, Pow2, OnlyAt, Matches, OrderAt, OrdersAt, WalletFeeAt, FeesAt, BalanceAt, BalancesAt;
    OneMatch(BalanceAt(c.balance, w), BalancesAt(c.state.wallet.balances, w));
    OneMatch(BalanceAt(c.feeBalance, w), BalancesAt(c.state.wallet.balances, w));
    OneMatch(OrderAt(c.order, w), OrdersAt(c.state.wallet.orders, w));
    OneMatch(WalletFeeAt(c.fee, w), FeesAt(c.state.fees, w));
    if IsBit(At(w, c.order.side)) {
      SelectedByBit(At(w, c.order.baseMint), At(w, c.order.quoteMint), At(w, c.order.side));
    }
    MatchCheck.SubWithinIff(At(w, c.feeBalance.amount), At(w, c.fee.gasAmount), 64);
  }
}
