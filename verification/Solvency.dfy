/** Conservation of every mint over runs of accepted wallet updates. */
module Solvency {
  import opened Numbers
  import opened ResidueField
  import opened ScalarField
  import opened MpcBits
  import opened ZkGadgets
  import opened WalletUpdate
  import Primality

  /** The transfers of one update. */
  datatype Transfers = Transfers(internal: Internal, external: External, now: Elem)

  /** An update whose constraints hold and whose range checks bound the new amounts. */
  ghost predicate Accepted(old_: Wallet, new_: Wallet, t: Transfers) {
    UpdateApplied(old_, new_, t.now, t.internal, t.external) && AmountsBelow(new_.balances, Pow2(64))
  }

  /** What leaves the wallet in a mint: the withdrawal and the internal transfer. */
  function Outflow(t: Transfers, mint: Elem): nat {
    (if t.external.direction == 1 && t.external.mint == mint then t.external.volume as int else 0) +
    (if t.internal.mint == mint then t.internal.volume as int else 0)
  }

  /** What is deposited in a mint. */
  function Inflow(t: Transfers, mint: Elem): nat {
    if t.external.direction == 0 && t.external.mint == mint then t.external.volume as int else 0
  }

  ghost predicate HasSlot(bs: seq<Balance>, mint: Elem) {
    exists k :: 0 <= k < |bs| && bs[k].mint == mint
  }

  lemma {:induction false} NoSlot(bs: seq<Balance>, mint: Elem)
    requires !HasSlot(bs, mint)
    ensures BalanceOf(bs, mint) == 0 && Slots(bs, mint) == 0
  {
    if |bs| > 0 {
      var front := bs[..|bs| - 1];
      assert bs[|bs| - 1].mint != mint;
      assert forall k :: 0 <= k < |front| ==> front[k] == bs[k];
      NoSlot(front, mint);
    }
  }

  lemma {:induction false} OneSlot(bs: seq<Balance>, k: nat)
    requires UniqueMints(bs) && k < |bs| && bs[k].mint != 0
    ensures BalanceOf(bs, bs[k].mint) == bs[k].amount && Slots(bs, bs[k].mint) == 1
  {
    var n, mint := |bs| - 1, bs[k].mint;
    var front := bs[..n];
    if k == n {
      assert forall i :: 0 <= i < |front| ==> front[i] == bs[i];
      NoSlot(front, mint);
    } else {
      assert bs[n].mint != mint;
      OneSlot(front, k);
    }
  }

  /** The unreduced new amount of a slot. */
  function Unreduced(old_: Wallet, t: Transfers, mint: Elem): int {
    BalanceOf(old_.balances, mint) + Inflow(t, mint) - Outflow(t, mint)
  }

  lemma ExpectedIsReduced(old_: Wallet, t: Transfers, mint: Elem)
    requires IsBit(t.external.direction)
    ensures ExpectedAmount(old_.balances, mint, t.internal, t.external) == F(Unreduced(old_, t, mint))
  {
    hide F, Add, Sub, Selected, BalanceOf;
    var b, e, v := BalanceOf(old_.balances, mint), t.external, t.internal.volume as int;
    SelectedByBit(Neg(e.volume), e.volume, e.direction);
    var x := if e.mint != mint then 0 else if e.direction == 1 then -(e.volume as int) else e.volume as int;
    var y := if t.internal.mint == mint then v else 0;
    FSelf(e.volume);
    FSelf(t.internal.volume);
    FSelf(0);
    FAdd(b, x);
    FSub(b + x, y);
  }

  /**
   Exact bookkeeping of an accepted update: the balance changes by the transfers, up to a multiple of P
   that is zero unless the transfers overdraw or overflow the field. A dropped slot loses what was in it.
   */
  lemma StepExact(old_: Wallet, new_: Wallet, t: Transfers, mint: Elem)
    requires mint != 0 && Accepted(old_, new_, t)
    ensures HasSlot(new_.balances, mint) ==>
      BalanceOf(new_.balances, mint) == Unreduced(old_, t, mint) - Wraps(Unreduced(old_, t, mint)) * P
    ensures !HasSlot(new_.balances, mint) ==> BalanceOf(new_.balances, mint) == 0 && Outflow(t, mint) == 0
  {
    hide F, Wraps, ExpectedAmount, UniquePairs, TimestampsUpTo, Add, BalanceOf, Slots;
    if k :| 0 <= k < |new_.balances| && new_.balances[k].mint == mint {
      OneSlot(new_.balances, k);
      ExpectedIsReduced(old_, t, mint);
      FIsShift(Unreduced(old_, t, mint));
    } else {
      NoSlot(new_.balances, mint);
      FSelf(0);
    }
  }

  /** For every accepted update, whatever its volumes: nothing is created exactly when the wallet covers the outflow. */
  lemma StepSolventIff(old_: Wallet, new_: Wallet, t: Transfers, mint: Elem)
    requires mint != 0 && Accepted(old_, new_, t)
    ensures BalanceOf(new_.balances, mint) + Outflow(t, mint) <= BalanceOf(old_.balances, mint) + Inflow(t, mint) <==>
      Outflow(t, mint) <= BalanceOf(old_.balances, mint) + Inflow(t, mint)
  {
    hide Wraps, UpdateApplied, BalanceOf, Outflow, Inflow, Pow2;
    StepExact(old_, new_, t, mint);
    WrapSign(Unreduced(old_, t, mint));
  }

  lemma WrapSign(u: int)
    ensures Wraps(u) * P >= 0 <==> u >= 0
  {
    if u >= 0 {
      Primality.MulMonotone(0, 0, u / P, P);
    } else {
      MulCommutes(P, u / P);
    }
  }

  /** Outgoing volumes small enough that an overdraft cannot wrap to a 64-bit amount. */
  ghost predicate VolumesFit(t: Transfers, mint: Elem) {
    Outflow(t, mint) <= P - Pow2(64)
  }

  /** An accepted update never creates value, and loses none while the slot is kept and nothing overflows. */
  lemma StepSolvent(old_: Wallet, new_: Wallet, t: Transfers, mint: Elem)
    requires mint != 0 && Accepted(old_, new_, t) && VolumesFit(t, mint)
    ensures BalanceOf(new_.balances, mint) + Outflow(t, mint) <= BalanceOf(old_.balances, mint) + Inflow(t, mint)
    ensures HasSlot(new_.balances, mint) && BalanceOf(old_.balances, mint) + Inflow(t, mint) < P ==>
      BalanceOf(new_.balances, mint) + Outflow(t, mint) == BalanceOf(old_.balances, mint) + Inflow(t, mint)
  {
    hide Wraps, UpdateApplied, BalanceOf, Outflow, Inflow, Pow2;
    StepExact(old_, new_, t, mint);
    if HasSlot(new_.balances, mint) {
      NewBalanceBelow(old_, new_, t, mint);
      NoOverdraft(Unreduced(old_, t, mint), Pow2(64));
    }
  }

  lemma NewBalanceBelow(old_: Wallet, new_: Wallet, t: Transfers, mint: Elem)
    requires mint != 0 && Accepted(old_, new_, t) && HasSlot(new_.balances, mint)
    ensures BalanceOf(new_.balances, mint) < Pow2(64)
  {
    hide BalanceOf, Slots, ExpectedAmount, UniquePairs, TimestampsUpTo, Pow2;
    var k :| 0 <= k < |new_.balances| && new_.balances[k].mint == mint;
    OneSlot(new_.balances, k);
  }

  lemma NoOverdraft(u: int, bound: int)
    requires -(P - bound) <= u && u - Wraps(u) * P < bound
    ensures Wraps(u) * P >= 0
    ensures u < P ==> Wraps(u) * P == 0
  {
    if u < 0 {
      DivModUnique(u, -1, u + P, P);
    } else {
      Primality.MulMonotone(0, 0, u / P, P);
      if u < P { DivModUnique(u, 0, u, P); }
    }
  }

  // ---- runs ----------------------------------------------------------------------------

  /** A chain of accepted updates. */
  ghost predicate Run(wallets: seq<Wallet>, ts: seq<Transfers>) {
    |wallets| == |ts| + 1 &&
    forall i :: 0 <= i < |ts| ==> Accepted(wallets[i], wallets[i + 1], ts[i])
  }

  function TotalOut(ts: seq<Transfers>, mint: Elem): nat {
    if |ts| == 0 then 0 else TotalOut(ts[..|ts| - 1], mint) + Outflow(ts[|ts| - 1], mint)
  }

  function TotalIn(ts: seq<Transfers>, mint: Elem): nat {
    if |ts| == 0 then 0 else TotalIn(ts[..|ts| - 1], mint) + Inflow(ts[|ts| - 1], mint)
  }

  /**
   Solvency: over every run, what a wallet holds plus everything it paid out is covered by what it held
   at first plus everything deposited, whatever slots are dropped, added or reordered on the way.
   */
  lemma {:induction false} RunSolvent(wallets: seq<Wallet>, ts: seq<Transfers>, mint: Elem)
    requires mint != 0 && Run(wallets, ts)
    requires forall i :: 0 <= i < |ts| ==> VolumesFit(ts[i], mint)
    ensures BalanceOf(wallets[|ts|].balances, mint) + TotalOut(ts, mint)
         <= BalanceOf(wallets[0].balances, mint) + TotalIn(ts, mint)
  {
    hide BalanceOf, Accepted, Outflow, Inflow, VolumesFit;
    if |ts| > 0 {
      var n := |ts| - 1;
      RunSolvent(wallets[..n + 1], ts[..n], mint);
      StepSolvent(wallets[n], wallets[n + 1], ts[n], mint);
    }
  }

  /** Without the volume bound it fails: an internal transfer of P - 1 units raises a balance by one. */
  lemma LargeVolumeCreates(keys: Keys)
    ensures var old_ := Wallet([Balance(1, 0)], [], keys, 0);
      var new_ := Wallet([Balance(1, 1)], [], keys, 2);
      var t := Transfers(Internal(1, P - 1), External(0, 0, 0), 0);
      && Accepted(old_, new_, t) && !VolumesFit(t, 1)
      && BalanceOf(new_.balances, 1) + Outflow(t, 1) > BalanceOf(old_.balances, 1) + Inflow(t, 1)
  {
    hide F, Pow2;
    var old_ := Wallet([Balance(1, 0)], [], keys, 0);
    var new_ := Wallet([Balance(1, 1)], [], keys, 2);
    var t := Transfers(Internal(1, P - 1), External(0, 0, 0), 0);
    FSelf(2);
    FSelf(1);
    Pow2Literals();
    OneSlot(new_.balances, 0);
    OneSlot(old_.balances, 0);
    ExpectedIsReduced(old_, t, 1);
    FCongruent(1 - P, 1, -1);
  }
}
