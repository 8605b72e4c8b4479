/** Wallet and note commitments and nullifiers (circuits/src/zk_gadgets/commitments.rs). */
module Commitments {
  import opened Numbers
  import opened ResidueField
  import opened ScalarField
  import opened ConstraintSystems
  import opened ZkGadgets
  import opened PoseidonSponge
  import opened ZkPoseidon
  import opened ZkMerkle
  import opened WalletUpdate
  import opened Settle

  datatype WalletFee = WalletFee(settleKey: Elem, gasAddr: Elem, gasAmount: Elem, percentage: Elem)

  datatype WalletFeeVar = WalletFeeVar(settleKey: nat, gasAddr: nat, gasAmount: nat, percentage: nat)

  function FeesAt(fees: seq<WalletFeeVar>, w: Assignment): (r: seq<WalletFee>)
    ensures |r| == |fees|
    ensures forall i :: 0 <= i < |fees| ==>
      r[i] == WalletFee(At(w, fees[i].settleKey), At(w, fees[i].gasAddr), At(w, fees[i].gasAmount), At(w, fees[i].percentage))
  {
    seq(|fees|, i requires 0 <= i < |fees| =>
      WalletFee(At(w, fees[i].settleKey), At(w, fees[i].gasAddr), At(w, fees[i].gasAmount), At(w, fees[i].percentage)))
  }

  ghost predicate FeesKnown(fees: seq<WalletFeeVar>, n: nat) {
    forall i :: 0 <= i < |fees| ==>
      fees[i].settleKey < n && fees[i].gasAddr < n && fees[i].gasAmount < n && fees[i].percentage < n
  }

  // ---- what is hashed ------------------------------------------------------------------

  function Flatten<T>(chunks: seq<seq<T>>): seq<T> {
    if |chunks| == 0 then [] else Flatten(chunks[..|chunks| - 1]) + chunks[|chunks| - 1]
  }

  function BalanceChunk(b: Balance): seq<Elem> {
    [b.mint, b.amount]
  }

  /** The timestamp is not hashed. */
  function OrderChunk(o: Order): seq<Elem> {
    [o.quoteMint, o.baseMint, o.side, o.price, o.amount]
  }

  function FeeChunk(f: WalletFee): seq<Elem> {
    [f.settleKey, f.gasAddr, f.gasAmount, f.percentage]
  }

  function TailChunk(v: Wallet): seq<Elem> {
    [v.keys.root, v.keys.match_, v.keys.settle, v.keys.view, v.randomness]
  }

  function BalanceChunks(v: Wallet): seq<seq<Elem>> {
    seq(|v.balances|, i requires 0 <= i < |v.balances| => BalanceChunk(v.balances[i]))
  }

  function OrderChunks(v: Wallet): seq<seq<Elem>> {
    seq(|v.orders|, i requires 0 <= i < |v.orders| => OrderChunk(v.orders[i]))
  }

  function FeeChunks(fees: seq<WalletFee>): seq<seq<Elem>> {
    seq(|fees|, i requires 0 <= i < |fees| => FeeChunk(fees[i]))
  }

  /** The chunks that a wallet commitment absorbs, in order. */
  function WalletChunks(v: Wallet, fees: seq<WalletFee>): (r: seq<seq<Elem>>)
    ensures |r| == |v.balances| + |v.orders| + |fees| + 1
  {
    BalanceChunks(v) + OrderChunks(v) + FeeChunks(fees) + [TailChunk(v)]
  }

  function WalletCommitment(p: Params, v: Wallet, fees: seq<WalletFee>): Elem
    requires p.Valid()
  {
    HashOf(p, Flatten(WalletChunks(v, fees)))
  }

  // ---- where each field is hashed ------------------------------------------------------

  lemma {:induction false} FlattenConcat<T>(a: seq<seq<T>>, b: seq<seq<T>>)
    ensures Flatten(a + b) == Flatten(a) + Flatten(b)
  {
    if b == [] {
      assert a + b == a;
    } else {
      var n := |b| - 1;
      assert (a + b)[..|a| + n] == a + b[..n];
      FlattenConcat(a, b[..n]);
    }
  }

  lemma {:induction false} FlattenUniform<T>(chunks: seq<seq<T>>, width: nat)
    requires forall i :: 0 <= i < |chunks| ==> |chunks[i]| == width
    ensures |Flatten(chunks)| == width * |chunks|
  {
    if |chunks| > 0 {
      var n := |chunks| - 1;
      FlattenUniform(chunks[..n], width);
      assert width * n + width == width * |chunks|;
    } else {
      assert width * 0 == 0;
    }
  }

  lemma {:induction false} ChunkAt<T>(chunks: seq<seq<T>>, width: nat, i: nat, at: nat)
    requires forall k :: 0 <= k < |chunks| ==> |chunks[k]| == width
    requires i < |chunks| && at == width * i
    ensures at + width <= |Flatten(chunks)| && Flatten(chunks)[at..at + width] == chunks[i]
  {
    var n := |chunks| - 1;
    var front, last := Flatten(chunks[..n]), chunks[n];
    assert Flatten(chunks) == front + last;
    FlattenUniform(chunks[..n], width);
    if i < n {
      ChunkAt(chunks[..n], width, i, at);
      assert (front + last)[at..at + width] == front[at..at + width];
    } else {
      assert |front| == at;
    }
  }

  lemma PreimageParts(v: Wallet, fees: seq<WalletFee>)
    ensures Flatten(WalletChunks(v, fees)) ==
      Flatten(BalanceChunks(v)) + Flatten(OrderChunks(v)) + Flatten(FeeChunks(fees)) + TailChunk(v)
    ensures |Flatten(BalanceChunks(v))| == 2 * |v.balances| && |Flatten(OrderChunks(v))| == 5 * |v.orders|
    ensures |Flatten(FeeChunks(fees))| == 4 * |fees|
  {
    hide Flatten;
    var bs, os, fs := BalanceChunks(v), OrderChunks(v), FeeChunks(fees);
    assert WalletChunks(v, fees) == bs + os + fs + [TailChunk(v)];
    FlattenConcat(bs, os);
    FlattenConcat(bs + os, fs);
    FlattenConcat(bs + os + fs, [TailChunk(v)]);
    FlattenOne(TailChunk(v));
    FlattenUniform(bs, 2);
    FlattenUniform(os, 5);
    FlattenUniform(fs, 4);
  }

  /** The hashed vector, position by position: first the balances. */
  lemma PreimageBalance(v: Wallet, fees: seq<WalletFee>, i: nat)
    requires i < |v.balances|
    ensures var x, at := Flatten(WalletChunks(v, fees)), 2 * i;
      at + 2 <= |x| && x[at..at + 2] == [v.balances[i].mint, v.balances[i].amount]
  {
    hide Flatten, WalletChunks;
    PreimageParts(v, fees);
    var x, rest := Flatten(BalanceChunks(v)), Flatten(OrderChunks(v)) + Flatten(FeeChunks(fees)) + TailChunk(v);
    assert Flatten(WalletChunks(v, fees)) == x + rest;
    ChunkAt(BalanceChunks(v), 2, i, 2 * i);
    SliceWithin([], x, rest, 2 * i, 2 * i + 2);
    assert [] + x + rest == x + rest;
  }

  /** Then the orders, without their timestamps. */
  lemma PreimageOrder(v: Wallet, fees: seq<WalletFee>, i: nat)
    requires i < |v.orders|
    ensures var x, at := Flatten(WalletChunks(v, fees)), 2 * |v.balances| + 5 * i;
      var o := v.orders[i];
      at + 5 <= |x| && x[at..at + 5] == [o.quoteMint, o.baseMint, o.side, o.price, o.amount]
  {
    hide Flatten, WalletChunks;
    PreimageParts(v, fees);
    var x, y, rest := Flatten(BalanceChunks(v)), Flatten(OrderChunks(v)), Flatten(FeeChunks(fees)) + TailChunk(v);
    assert Flatten(WalletChunks(v, fees)) == x + y + rest;
    ChunkAt(OrderChunks(v), 5, i, 5 * i);
    SliceWithin(x, y, rest, 5 * i, 5 * i + 5);
  }

  /** Then the fees. */
  lemma PreimageFee(v: Wallet, fees: seq<WalletFee>, i: nat)
    requires i < |fees|
    ensures var x, at := Flatten(WalletChunks(v, fees)), 2 * |v.balances| + 5 * |v.orders| + 4 * i;
      var f := fees[i];
      at + 4 <= |x| && x[at..at + 4] == [f.settleKey, f.gasAddr, f.gasAmount, f.percentage]
  {
    hide Flatten, WalletChunks;
    PreimageParts(v, fees);
    var x, z, rest := Flatten(BalanceChunks(v)) + Flatten(OrderChunks(v)), Flatten(FeeChunks(fees)), TailChunk(v);
    ChunkAt(FeeChunks(fees), 4, i, 4 * i);
    SliceWithin(x, z, rest, 4 * i, 4 * i + 4);
  }

  /** Last the keys and the randomness. */
  lemma PreimageTail(v: Wallet, fees: seq<WalletFee>)
    ensures var x, at := Flatten(WalletChunks(v, fees)), 2 * |v.balances| + 5 * |v.orders| + 4 * |fees|;
      at <= |x| && x[at..] == [v.keys.root, v.keys.match_, v.keys.settle, v.keys.view, v.randomness]
  {
    hide Flatten, WalletChunks;
    PreimageParts(v, fees);
  }

  lemma SliceWithin<T>(a: seq<T>, b: seq<T>, c: seq<T>, lo: nat, hi: nat)
    requires lo <= hi <= |b|
    ensures (a + b + c)[|a| + lo..|a| + hi] == b[lo..hi]
  {
  }

  lemma FlattenOne<T>(chunk: seq<T>)
    ensures Flatten([chunk]) == chunk
  {
    assert [chunk][..0] == [] && Flatten<T>([]) == [];
  }

  // ---- the preimage fixes the wallet ---------------------------------------------------

  lemma {:induction false} FlattenInjective<T>(a: seq<seq<T>>, b: seq<seq<T>>)
    requires |a| == |b| && (forall i :: 0 <= i < |a| ==> |a[i]| == |b[i]|) && Flatten(a) == Flatten(b)
    ensures a == b
  {
    if |a| > 0 {
      var n := |a| - 1;
      var x, y := Flatten(a[..n]), Flatten(b[..n]);
      assert |x| == |y|;
      assert x == (x + a[n])[..|x|] && y == (y + b[n])[..|y|];
      assert a[n] == (x + a[n])[|x|..] && b[n] == (y + b[n])[|y|..];
      FlattenInjective(a[..n], b[..n]);
      assert a == a[..n] + [a[n]] && b == b[..n] + [b[n]];
    }
  }

  /** Equal in everything but the order timestamps. */
  ghost predicate SameButTimestamps(v1: Wallet, fees1: seq<WalletFee>, v2: Wallet, fees2: seq<WalletFee>) {
    && v1.balances == v2.balances && v1.keys == v2.keys && v1.randomness == v2.randomness && fees1 == fees2
    && |v1.orders| == |v2.orders|
    && forall i :: 0 <= i < |v1.orders| ==> v1.orders[i] == v2.orders[i].(timestamp := v1.orders[i].timestamp)
  }

  ghost predicate SameShape(v1: Wallet, fees1: seq<WalletFee>, v2: Wallet, fees2: seq<WalletFee>) {
    |v1.balances| == |v2.balances| && |v1.orders| == |v2.orders| && |fees1| == |fees2|
  }

  lemma ChunksFix(v1: Wallet, fees1: seq<WalletFee>, v2: Wallet, fees2: seq<WalletFee>)
    requires SameShape(v1, fees1, v2, fees2)
    ensures WalletChunks(v1, fees1) == WalletChunks(v2, fees2) <==> SameButTimestamps(v1, fees1, v2, fees2)
  {
    var a, b := WalletChunks(v1, fees1), WalletChunks(v2, fees2);
    var nb, no := |v1.balances|, |v1.orders|;
    if a == b {
      forall i | 0 <= i < nb ensures v1.balances[i] == v2.balances[i] {
        assert BalanceChunk(v1.balances[i]) == a[i] == b[i] == BalanceChunk(v2.balances[i]);
        assert a[i][0] == b[i][0] && a[i][1] == b[i][1];
      }
      forall i | 0 <= i < no ensures v1.orders[i] == v2.orders[i].(timestamp := v1.orders[i].timestamp) {
        var c, d := OrderChunk(v1.orders[i]), OrderChunk(v2.orders[i]);
        assert c == a[nb + i] && d == b[nb + i];
        assert c[0] == d[0] && c[1] == d[1] && c[2] == d[2] && c[3] == d[3] && c[4] == d[4];
      }
      forall i | 0 <= i < |fees1| ensures fees1[i] == fees2[i] {
        var c, d := FeeChunk(fees1[i]), FeeChunk(fees2[i]);
        assert c == a[nb + no + i] && d == b[nb + no + i];
        assert c[0] == d[0] && c[1] == d[1] && c[2] == d[2] && c[3] == d[3];
      }
      var c, d := TailChunk(v1), TailChunk(v2);
      assert c == a[|a| - 1] && d == b[|b| - 1];
      assert c[0] == d[0] && c[1] == d[1] && c[2] == d[2] && c[3] == d[3] && c[4] == d[4];
    }
  }

  lemma ChunkLengths(v1: Wallet, fees1: seq<WalletFee>, v2: Wallet, fees2: seq<WalletFee>)
    requires SameShape(v1, fees1, v2, fees2)
    ensures forall i :: 0 <= i < |WalletChunks(v1, fees1)| ==>
      |WalletChunks(v1, fees1)[i]| == |WalletChunks(v2, fees2)[i]|
  {
  }

  /** Among wallets of one shape, the hashed vector determines exactly everything but the timestamps. */
  lemma PreimageFixesWallet(v1: Wallet, fees1: seq<WalletFee>, v2: Wallet, fees2: seq<WalletFee>)
    requires SameShape(v1, fees1, v2, fees2)
    ensures Flatten(WalletChunks(v1, fees1)) == Flatten(WalletChunks(v2, fees2)) <==> SameButTimestamps(v1, fees1, v2, fees2)
  {
    hide WalletChunks;
    ChunksFix(v1, fees1, v2, fees2);
    if Flatten(WalletChunks(v1, fees1)) == Flatten(WalletChunks(v2, fees2)) {
      ChunkLengths(v1, fees1, v2, fees2);
      FlattenInjective(WalletChunks(v1, fees1), WalletChunks(v2, fees2));
    }
  }

  // ---- the gadgets ---------------------------------------------------------------------

  ghost predicate ChunksKnown(chunks: seq<seq<LC>>, n: nat) {
    forall i :: 0 <= i < |chunks| ==> AllKnown(chunks[i], n)
  }

  /** A fresh hash gadget that absorbs chunk after chunk and squeezes once. */
  method HashChunks(cs: ConstraintSystem, p: Params, chunks: seq<seq<LC>>) returns (out: LC)
    requires cs.Valid() && p.Valid() && ChunksKnown(chunks, cs.wires)
    modifies cs
    ensures cs.Valid() && cs.wires >= old(cs.wires) && cs.unchecked == old(cs.unchecked) && Known(out, cs.wires)
    ensures forall w {:trigger Satisfies(cs.constraints, w)} :: Satisfies(cs.constraints, w) ==>
      Satisfies(old(cs.constraints), w) && Eval(out, w) == HashOf(p, Evals(Flatten(chunks), w))
    ensures forall w {:trigger Honest(cs.hints, w)} :: Honest(cs.hints, w) ==>
      && Honest(old(cs.hints), w) && Eval(out, w) == HashOf(p, Evals(Flatten(chunks), w))
      && (Satisfies(old(cs.constraints), w) ==> Satisfies(cs.constraints, w))
  {
    hide Eval, Known, Satisfies, Honest, Evals, AllWide, Tracks, LastBlock, Output;
    var gadget := new PoseidonGadget(p);
    AllKnownMore(gadget.state, 0, cs.wires);
    for i := 0 to |chunks|
      invariant cs.Valid() && cs.wires >= old(cs.wires) && cs.unchecked == old(cs.unchecked) && fresh(gadget)
      invariant gadget.params == p && gadget.Valid(cs.wires) && !gadget.inSqueeze && gadget.absorbed == Flatten(chunks[..i])
      invariant forall w {:trigger Satisfies(cs.constraints, w)} :: Satisfies(cs.constraints, w) ==>
        Satisfies(old(cs.constraints), w) && Tracks(p, gadget.state, gadget.absorbed, false, w)
      invariant forall w {:trigger Honest(cs.hints, w)} :: Honest(cs.hints, w) ==>
        && Honest(old(cs.hints), w) && Tracks(p, gadget.state, gadget.absorbed, false, w)
        && (Satisfies(old(cs.constraints), w) ==> Satisfies(cs.constraints, w))
    {
      AllKnownMore(chunks[i], old(cs.wires), cs.wires);
      gadget.BatchAbsorb(cs, chunks[i]);
      assert chunks[..i + 1][..i] == chunks[..i];
    }
    assert chunks[..|chunks|] == chunks;
    out := gadget.Squeeze(cs);
  }

  function ChunkValues(chunks: seq<seq<LC>>, w: Assignment): (r: seq<seq<Elem>>)
    ensures |r| == |chunks|
  {
    seq(|chunks|, i requires 0 <= i < |chunks| => Evals(chunks[i], w))
  }

  lemma {:induction false} FlattenEvals(chunks: seq<seq<LC>>, w: Assignment)
    ensures Evals(Flatten(chunks), w) == Flatten(ChunkValues(chunks, w))
  {
    hide Eval;
    if |chunks| > 0 {
      var n := |chunks| - 1;
      FlattenEvals(chunks[..n], w);
      assert ChunkValues(chunks, w)[..n] == ChunkValues(chunks[..n], w);
      assert Evals(Flatten(chunks[..n]) + chunks[n], w) == Evals(Flatten(chunks[..n]), w) + Evals(chunks[n], w);
    }
  }

  function WalletWires(v: WalletVar, fees: seq<WalletFeeVar>): (r: seq<seq<LC>>)
    ensures |r| == |v.balances| + |v.orders| + |fees| + 1
  {
    seq(|v.balances|, i requires 0 <= i < |v.balances| => [Wire(v.balances[i].mint), Wire(v.balances[i].amount)]) +
    seq(|v.orders|, i requires 0 <= i < |v.orders| =>
      [Wire(v.orders[i].quoteMint), Wire(v.orders[i].baseMint), Wire(v.orders[i].side), Wire(v.orders[i].price),
       Wire(v.orders[i].amount)]) +
    seq(|fees|, i requires 0 <= i < |fees| =>
      [Wire(fees[i].settleKey), Wire(fees[i].gasAddr), Wire(fees[i].gasAmount), Wire(fees[i].percentage)]) +
    [[Wire(v.keys.root), Wire(v.keys.match_), Wire(v.keys.settle), Wire(v.keys.view), Wire(v.randomness)]]
  }

  lemma WalletWiresEval(v: WalletVar, fees: seq<WalletFeeVar>, w: Assignment)
    ensures ChunkValues(WalletWires(v, fees), w) == WalletChunks(WalletAt(v, w), FeesAt(fees, w))
  {
    hide At;
    var a, b := ChunkValues(WalletWires(v, fees), w), WalletChunks(WalletAt(v, w), FeesAt(fees, w));
    forall i | 0 <= i < |a| ensures a[i] == b[i] {
      assert a[i] == Evals(WalletWires(v, fees)[i], w);
    }
  }

  lemma WalletWiresKnown(v: WalletVar, fees: seq<WalletFeeVar>, n: nat)
    requires WalletKnown(v, n) && FeesKnown(fees, n)
    ensures ChunksKnown(WalletWires(v, fees), n)
  {
  }

  /** WalletCommitGadget. */
  method WalletCommit(cs: ConstraintSystem, p: Params, v: WalletVar, fees: seq<WalletFeeVar>) returns (out: LC)
    requires cs.Valid() && p.Valid() && WalletKnown(v, cs.wires) && FeesKnown(fees, cs.wires)
    modifies cs
    ensures cs.Valid() && cs.wires >= old(cs.wires) && cs.unchecked == old(cs.unchecked) && Known(out, cs.wires)
    ensures forall w {:trigger Satisfies(cs.constraints, w)} :: Satisfies(cs.constraints, w) ==>
      Satisfies(old(cs.constraints), w) && Eval(out, w) == WalletCommitment(p, WalletAt(v, w), FeesAt(fees, w))
    ensures forall w {:trigger Honest(cs.hints, w)} :: Honest(cs.hints, w) ==>
      && Honest(old(cs.hints), w) && Eval(out, w) == WalletCommitment(p, WalletAt(v, w), FeesAt(fees, w))
      && (Satisfies(old(cs.constraints), w) ==> Satisfies(cs.constraints, w))
  {
    hide Eval, Satisfies, Honest, Evals, AllWide, HashOf, WalletWires, WalletChunks, Flatten, WalletAt, FeesAt, ChunkValues;
    WalletWiresKnown(v, fees, cs.wires);
    out := HashChunks(cs, p, WalletWires(v, fees));
    forall w ensures Evals(Flatten(WalletWires(v, fees)), w) == Flatten(WalletChunks(WalletAt(v, w), FeesAt(fees, w))) {
      FlattenEvals(WalletWires(v, fees), w);
      WalletWiresEval(v, fees, w);
    }
  }

  // ---- notes and nullifiers ------------------------------------------------------------

  function NoteFields(n: Note, receiver: Elem): seq<Elem> {
    [n.mint1, n.volume1, n.direction1, n.mint2, n.volume2, n.direction2, n.feeMint, n.feeVolume, n.feeDirection,
     n.type_, n.randomness, receiver]
  }

  /** The twelve hashed values determine the note and its receiver. */
  lemma NotePreimageFixes(n1: Note, k1: Elem, n2: Note, k2: Elem)
    ensures NoteFields(n1, k1) == NoteFields(n2, k2) <==> n1 == n2 && k1 == k2
  {
    var x, y := NoteFields(n1, k1), NoteFields(n2, k2);
    if x == y {
      assert x[0] == y[0] && x[1] == y[1] && x[2] == y[2] && x[3] == y[3] && x[4] == y[4] && x[5] == y[5];
      assert x[6] == y[6] && x[7] == y[7] && x[8] == y[8] && x[9] == y[9] && x[10] == y[10] && x[11] == y[11];
    }
  }

  function NoteCommitment(p: Params, n: Note, receiver: Elem): Elem
    requires p.Valid()
  {
    HashOf(p, NoteFields(n, receiver))
  }

  function NoteWires(n: NoteVar, receiver: nat): seq<LC> {
    [Wire(n.mint1), Wire(n.volume1), Wire(n.direction1), Wire(n.mint2), Wire(n.volume2), Wire(n.direction2),
     Wire(n.feeMint), Wire(n.feeVolume), Wire(n.feeDirection), Wire(n.type_), Wire(n.randomness), Wire(receiver)]
  }

  lemma NoteWiresEval(n: NoteVar, receiver: nat, w: Assignment)
    ensures Evals(NoteWires(n, receiver), w) == NoteFields(NoteAt(n, w), At(w, receiver))
  {
    hide At;
  }

  method NoteCommit(cs: ConstraintSystem, p: Params, n: NoteVar, receiver: nat) returns (out: LC)
    requires cs.Valid() && p.Valid() && NoteKnown(n, cs.wires) && receiver < cs.wires
    modifies cs
    ensures cs.Valid() && cs.wires >= old(cs.wires) && cs.unchecked == old(cs.unchecked) && Known(out, cs.wires)
    ensures forall w {:trigger Satisfies(cs.constraints, w)} :: Satisfies(cs.constraints, w) ==>
      Satisfies(old(cs.constraints), w) && Eval(out, w) == NoteCommitment(p, NoteAt(n, w), At(w, receiver))
    ensures forall w {:trigger Honest(cs.hints, w)} :: Honest(cs.hints, w) ==>
      && Honest(old(cs.hints), w) && Eval(out, w) == NoteCommitment(p, NoteAt(n, w), At(w, receiver))
      && (Satisfies(old(cs.constraints), w) ==> Satisfies(cs.constraints, w))
  {
    hide Eval, Satisfies, Honest, Evals, AllWide, HashOf, At, NoteFields;
    out := Hash(cs, p, NoteWires(n, receiver));
    forall w ensures Evals(NoteWires(n, receiver), w) == NoteFields(NoteAt(n, w), At(w, receiver)) {
      NoteWiresEval(n, receiver, w);
    }
  }

  /** H(C || r), H(C || r + 1) and H(N || pk): the hash of a commitment with one more value. */
  method PairCommit(cs: ConstraintSystem, p: Params, left: LC, right: LC) returns (out: LC)
    requires cs.Valid() && p.Valid() && Known(left, cs.wires) && Known(right, cs.wires)
    modifies cs
    ensures cs.Valid() && cs.wires >= old(cs.wires) && cs.unchecked == old(cs.unchecked) && Known(out, cs.wires)
    ensures forall w {:trigger Satisfies(cs.constraints, w)} :: Satisfies(cs.constraints, w) ==>
      Satisfies(old(cs.constraints), w) && Eval(out, w) == PairHash(p, Eval(left, w), Eval(right, w))
    ensures forall w {:trigger Honest(cs.hints, w)} :: Honest(cs.hints, w) ==>
      && Honest(old(cs.hints), w) && Eval(out, w) == PairHash(p, Eval(left, w), Eval(right, w))
      && (Satisfies(old(cs.constraints), w) ==> Satisfies(cs.constraints, w))
  {
    hide Eval, Satisfies, Honest, AllWide, HashOf;
    out := Hash(cs, p, [left, right]);
    forall w ensures Evals([left, right], w) == [Eval(left, w), Eval(right, w)] {}
  }

  function SpendNullifier(p: Params, commitment: Elem, randomness: Elem): Elem
    requires p.Valid()
  {
    PairHash(p, commitment, randomness)
  }

  function MatchNullifier(p: Params, commitment: Elem, randomness: Elem): Elem
    requires p.Valid()
  {
    PairHash(p, commitment, Add(randomness, 1))
  }
}
