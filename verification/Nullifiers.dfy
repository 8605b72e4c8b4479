/** Along a chain of accepted updates and settlements all spend and match nullifiers differ. */
module Nullifiers {
  import opened Numbers
  import opened ResidueField
  import opened ScalarField
  import opened MpcBits
  import opened PoseidonSponge
  import opened ZkMerkle
  import opened WalletUpdate
  import opened Settle
  import opened Commitments

  /** What an accepted update or settlement does to the randomness is common to both. */
  ghost predicate Transition(a: Wallet, b: Wallet) {
    || (exists now, i, e :: UpdateApplied(a, b, now, i, e))
    || (exists n :: Settled(a, b, n))
  }

  ghost predicate Chain(ws: seq<Wallet>) {
    forall i :: 0 <= i < |ws| - 1 ==> Transition(ws[i], ws[i + 1])
  }

  lemma {:induction false} ChainRandomness(ws: seq<Wallet>, i: nat)
    requires Chain(ws) && i < |ws|
    ensures ws[i].randomness == F(ws[0].randomness + 2 * i)
  {
    hide F, Add, UpdateApplied, Settled;
    if i == 0 {
      FSelf(ws[0].randomness);
    } else {
      ChainRandomness(ws, i - 1);
      assert Transition(ws[i - 1], ws[i]);
      StepsByTwo(ws[i - 1], ws[i]);
      FSelf(2);
      FAdd(ws[0].randomness + 2 * (i - 1), 2);
    }
  }

  lemma StepsByTwo(a: Wallet, b: Wallet)
    requires Transition(a, b)
    ensures b.randomness == Add(a.randomness, 2)
  {
    hide Add, TransfersApplied, UniquePairs, TimestampsUpTo, BalancesSettled, OrdersSettled;
  }

  /** No update and no settlement replaces a key. */
  lemma {:induction false} ChainKeys(ws: seq<Wallet>, i: nat)
    requires Chain(ws) && i < |ws|
    ensures ws[i].keys.root == ws[0].keys.root && ws[i].keys.match_ == ws[0].keys.match_
    ensures ws[i].keys.settle == ws[0].keys.settle && ws[i].keys.view == ws[0].keys.view
  {
    hide Transition;
    if i > 0 {
      ChainKeys(ws, i - 1);
      assert Transition(ws[i - 1], ws[i]);
      KeepsKeys(ws[i - 1], ws[i]);
    }
  }

  lemma KeepsKeys(a: Wallet, b: Wallet)
    requires Transition(a, b)
    ensures a.keys == b.keys
  {
    hide Add, TransfersApplied, UniquePairs, TimestampsUpTo, BalancesSettled, OrdersSettled;
  }

  /** The pair hashed by nullifier k: the spend nullifier of wallet k / 2 if k is even, else its match nullifier. */
  function Input(p: Params, ws: seq<Wallet>, fees: seq<seq<WalletFee>>, k: nat): (Elem, Elem)
    requires p.Valid() && |fees| == |ws| && k < 2 * |ws|
  {
    var i := k / 2;
    (WalletCommitment(p, ws[i], fees[i]), if k % 2 == 0 then ws[i].randomness else Add(ws[i].randomness, 1))
  }

  function Nullifier(p: Params, ws: seq<Wallet>, fees: seq<seq<WalletFee>>, k: nat): Elem
    requires p.Valid() && |fees| == |ws| && k < 2 * |ws|
  {
    var i := k / 2;
    var c := WalletCommitment(p, ws[i], fees[i]);
    if k % 2 == 0 then SpendNullifier(p, c, ws[i].randomness) else MatchNullifier(p, c, ws[i].randomness)
  }

  lemma InputRandomness(p: Params, ws: seq<Wallet>, fees: seq<seq<WalletFee>>, k: nat)
    requires p.Valid() && |fees| == |ws| && k < 2 * |ws| && Chain(ws)
    ensures Input(p, ws, fees, k).1 == F(ws[0].randomness + k)
  {
    hide F, Add, WalletCommitment, Transition, AllWide;
    var i := k / 2;
    ChainRandomness(ws, i);
    FSelf(1);
    FAdd(ws[0].randomness + 2 * i, 1);
  }

  /** Two nullifiers of a chain of any length hash the same randomness exactly when P divides their distance. */
  lemma RandomnessRepeats(p: Params, ws: seq<Wallet>, fees: seq<seq<WalletFee>>, j: nat, k: nat)
    requires p.Valid() && |fees| == |ws| && j < 2 * |ws| && k < 2 * |ws| && Chain(ws)
    ensures Input(p, ws, fees, j).1 == Input(p, ws, fees, k).1 <==> (k - j) % P == 0
  {
    hide F, Input, Chain, AllWide;
    InputRandomness(p, ws, fees, j);
    InputRandomness(p, ws, fees, k);
    FEqualIff(ws[0].randomness + k, ws[0].randomness + j);
  }

  /** On chains shorter than (P + 1) / 2 wallets, equal nullifiers would be a hash collision. */
  lemma NullifiersDistinct(p: Params, ws: seq<Wallet>, fees: seq<seq<WalletFee>>, j: nat, k: nat)
    requires p.Valid() && |fees| == |ws| && j < k < 2 * |ws| && Chain(ws) && 2 * |ws| < P + 1
    ensures Nullifier(p, ws, fees, j) != Nullifier(p, ws, fees, k) ||
      Collision(p, Input(p, ws, fees, j), Input(p, ws, fees, k))
  {
    hide F, Chain, AllWide, WalletCommitment, PairHash, Add;
    RandomnessRepeats(p, ws, fees, j, k);
    DivModUnique(k - j, 0, k - j, P);
  }
}
