/** What happens to the orders of a wallet: timestamps over runs of updates, fills over runs of settlements. */
module OrderHistory {
  import opened Numbers
  import opened ResidueField
  import opened ScalarField
  import opened MpcBits
  import opened ZkGadgets
  import opened WalletUpdate
  import opened Settle
  import opened MatchNotes
  import opened Solvency
  import Conservation
  import MatchCheck
  import MatchPipeline
  import Engine = MatchEngine
  import Primality

  // ---- timestamps ----------------------------------------------------------------------

  /** Update k of a run leaves pair, side, amount and price of slot i alone. */
  ghost predicate TermsKept(wallets: seq<Wallet>, k: nat, i: nat)
    requires k + 1 < |wallets| && i < |wallets[k].orders| && i < |wallets[k + 1].orders|
  {
    var a, b := wallets[k].orders[i], wallets[k + 1].orders[i];
    && a.quoteMint == b.quoteMint && a.baseMint == b.baseMint && a.side == b.side
    && a.amount == b.amount && a.price == b.price
  }

  /** Slots are never added, so a slot of the last wallet is one of every wallet. */
  lemma {:induction false} SlotsRemain(wallets: seq<Wallet>, ts: seq<Transfers>, k: nat)
    requires Run(wallets, ts) && k <= |ts|
    ensures |wallets[|ts|].orders| <= |wallets[k].orders|
    decreases |ts| - k
  {
    hide TransfersApplied, UniquePairs, TimestampsUpTo, AmountsBelow, Add, Pow2;
    if k < |ts| {
      assert Accepted(wallets[k], wallets[k + 1], ts[k]);
      SlotsRemain(wallets, ts, k + 1);
    }
  }

  /** One accepted update, field by field. */
  lemma UpdateStamps(old_: Wallet, new_: Wallet, t: Transfers, i: nat)
    requires Accepted(old_, new_, t) && i < |new_.orders|
    ensures i < |old_.orders|
    ensures var a, b := old_.orders[i], new_.orders[i];
      b.timestamp ==
        if && a.quoteMint == b.quoteMint && a.baseMint == b.baseMint && a.side == b.side
           && a.amount == b.amount && a.price == b.price
        then a.timestamp else t.now
  {
    hide TransfersApplied, UniquePairs, AmountsBelow, Add, Pow2;
    assert TimestampRule(new_.orders[i], old_.orders[i], t.now);
  }

  lemma StepStamps(wallets: seq<Wallet>, ts: seq<Transfers>, k: nat, i: nat)
    requires Run(wallets, ts) && k < |ts| && i < |wallets[k].orders| && i < |wallets[k + 1].orders|
    ensures wallets[k + 1].orders[i].timestamp ==
      if TermsKept(wallets, k, i) then wallets[k].orders[i].timestamp else ts[k].now
  {
    hide Accepted;
    assert Accepted(wallets[k], wallets[k + 1], ts[k]);
    UpdateStamps(wallets[k], wallets[k + 1], ts[k], i);
  }

  /**
   Over every run of accepted updates, the timestamp of an order slot is the time of the last update that changed
   the order's pair, side, amount or price.
   */
  lemma {:induction false} TimestampIsLastChange(wallets: seq<Wallet>, ts: seq<Transfers>, i: nat, k: nat)
    requires Run(wallets, ts) && i < |wallets[|ts|].orders| && k < |ts|
    ensures forall j :: 0 <= j <= |ts| ==> i < |wallets[j].orders|
    ensures !TermsKept(wallets, k, i) && (forall j :: k < j < |ts| ==> TermsKept(wallets, j, i)) ==>
      wallets[|ts|].orders[i].timestamp == ts[k].now
  {
    hide Accepted, TermsKept;
    forall j | 0 <= j <= |ts| ensures i < |wallets[j].orders| { SlotsRemain(wallets, ts, j); }
    if !TermsKept(wallets, k, i) && forall j :: k < j < |ts| ==> TermsKept(wallets, j, i) {
      StepStamps(wallets, ts, k, i);
      StampsStay(wallets, ts, i, k + 1);
    }
  }

  /** If no update did, it is the slot's first timestamp. */
  lemma {:induction false} TimestampIsFirst(wallets: seq<Wallet>, ts: seq<Transfers>, i: nat)
    requires Run(wallets, ts) && i < |wallets[|ts|].orders|
    ensures forall j :: 0 <= j <= |ts| ==> i < |wallets[j].orders|
    ensures (forall j :: 0 <= j < |ts| ==> TermsKept(wallets, j, i)) ==>
      wallets[|ts|].orders[i].timestamp == wallets[0].orders[i].timestamp
  {
    hide Accepted, TermsKept;
    forall j | 0 <= j <= |ts| ensures i < |wallets[j].orders| { SlotsRemain(wallets, ts, j); }
    if forall j :: 0 <= j < |ts| ==> TermsKept(wallets, j, i) {
      StampsStay(wallets, ts, i, 0);
    }
  }

  lemma {:induction false} StampsStay(wallets: seq<Wallet>, ts: seq<Transfers>, i: nat, k: nat)
    requires Run(wallets, ts) && k <= |ts|
    requires forall j :: 0 <= j <= |ts| ==> i < |wallets[j].orders|
    requires forall j :: k <= j < |ts| ==> TermsKept(wallets, j, i)
    ensures wallets[|ts|].orders[i].timestamp == wallets[k].orders[i].timestamp
    decreases |ts| - k
  {
    hide Accepted, TermsKept, Run;
    if k < |ts| {
      StepStamps(wallets, ts, k, i);
      StampsStay(wallets, ts, i, k + 1);
    }
  }

  /** In an accepted wallet no two orders share a pair, except that an order whose five terms are all zero may repeat. */
  lemma UpdatedPairsDiffer(old_: Wallet, new_: Wallet, t: Transfers, i: nat, j: nat)
    requires Accepted(old_, new_, t) && i < j < |new_.orders|
    ensures var a, b := new_.orders[i], new_.orders[j];
      a.quoteMint == b.quoteMint && a.baseMint == b.baseMint ==>
        && a.quoteMint == 0 && a.baseMint == 0 && a.side == 0 && a.amount == 0 && a.price == 0
        && b.quoteMint == 0 && b.baseMint == 0
  {
    hide TransfersApplied, TimestampsUpTo, AmountsBelow, Add, Pow2;
    assert PairsDistinct(new_.orders[i], new_.orders[j]);
  }

  // ---- fills ---------------------------------------------------------------------------

  /**
   One settlement: a match note takes its base volume off the orders on its pair, around the modulus if it exceeds
   the amount, and leaves everything else of every order alone.
   */
  lemma OrderFilled(pre: Wallet, post: Wallet, n: Note, k: nat)
    requires Settled(pre, post, n) && k < |pre.orders|
    ensures k < |post.orders|
    ensures var a, b := pre.orders[k], post.orders[k];
      && a.quoteMint == b.quoteMint && a.baseMint == b.baseMint && a.side == b.side && a.price == b.price
      && a.timestamp == b.timestamp
    ensures var a, b := pre.orders[k], post.orders[k];
      n.type_ == 1 && a.baseMint == n.mint1 && a.quoteMint == n.mint2 ==>
        b.amount as int == a.amount - n.volume1 + if n.volume1 <= a.amount then 0 else P
    ensures n.type_ == 0 || pre.orders[k].baseMint != n.mint1 || pre.orders[k].quoteMint != n.mint2 ==>
      post.orders[k] == pre.orders[k]
  {
    hide F, Add, Sub, Selected, BalancesSettled;
    var o := pre.orders[k];
    assert post.orders[k] == SettledOrder(o, n);
    if IsBit(n.type_) {
      SelectedByBit(n.volume1, 0, n.type_);
    }
    MatchCheck.SubIsDifference(o.amount, n.volume1);
    MatchCheck.SubIsDifference(o.amount, 0);
  }

  /** So a match on a real pair fills at most one order of an accepted wallet. */
  lemma MatchFillsOneOrder(old_: Wallet, pre: Wallet, post: Wallet, t: Transfers, n: Note, i: nat, j: nat)
    requires Accepted(old_, pre, t) && Settled(pre, post, n) && i < j < |pre.orders| && n.mint1 != 0
    ensures j < |post.orders| && (post.orders[i] == pre.orders[i] || post.orders[j] == pre.orders[j])
  {
    hide Accepted, Settled;
    UpdatedPairsDiffer(old_, pre, t, i, j);
    OrderFilled(pre, post, n, i);
    OrderFilled(pre, post, n, j);
  }

  ghost predicate SettlementRun(wallets: seq<Wallet>, notes: seq<Note>) {
    && |wallets| == |notes| + 1
    && forall k {:trigger notes[k]} :: 0 <= k < |notes| ==> Settled(wallets[k], wallets[k + 1], notes[k]) && IsBit(notes[k].type_)
  }

  /** What the notes take off an order on this pair. */
  function Filled(notes: seq<Note>, baseMint: Elem, quoteMint: Elem): nat {
    if |notes| == 0 then 0
    else
      var n := notes[|notes| - 1];
      Filled(notes[..|notes| - 1], baseMint, quoteMint) +
      if n.type_ == 1 && n.mint1 == baseMint && n.mint2 == quoteMint then n.volume1 as int else 0
  }

  /**
   Over every run of settlements, what is left of an order and what was filled add up to its first amount, modulo P,
   and exactly if no more was filled than that. Nothing else of the order changes.
   */
  lemma {:induction false} FillsAddUp(wallets: seq<Wallet>, notes: seq<Note>, k: nat)
    requires SettlementRun(wallets, notes) && k < |wallets[0].orders|
    ensures k < |wallets[|notes|].orders|
    ensures var a, b := wallets[0].orders[k], wallets[|notes|].orders[k];
      var filled := Filled(notes, a.baseMint, a.quoteMint);
      && b == a.(amount := b.amount)
      && F(b.amount + filled) == F(a.amount)
      && (filled <= a.amount ==> b.amount + filled == a.amount)
  {
    hide F, Settled;
    if |notes| > 0 {
      var n := |notes| - 1;
      var ws, ns := wallets[..n + 1], notes[..n];
      assert SettlementRun(ws, ns) by {
        forall i | 0 <= i < |ns| ensures Settled(ws[i], ws[i + 1], ns[i]) && IsBit(ns[i].type_) {
          assert ns[i] == notes[i];
        }
      }
      FillsAddUp(ws, ns, k);
      assert Settled(wallets[n], wallets[n + 1], notes[n]) && IsBit(notes[n].type_);
      OrderFilled(wallets[n], wallets[n + 1], notes[n], k);
      var a, b, c := wallets[0].orders[k], wallets[n].orders[k], wallets[n + 1].orders[k];
      var filled := Filled(notes, a.baseMint, a.quoteMint);
      var before := Filled(ns, a.baseMint, a.quoteMint);
      if c.amount + filled == b.amount + before + P {
        FCongruent(c.amount + filled, b.amount + before, 1);
      }
    }
  }

  // ---- fills of a checked match --------------------------------------------------------

  /** The seller's note moves the matched amount of the matched pair, whatever shares were claimed. */
  lemma SellerNote(ns: Notes, m: Match, fee0: Fee, fee1: Fee, protocolFee: Elem, r0: Elem, r1: Elem, claims: NoteClaims)
    requires IsBit(m.direction) && NotesAccepted(ns, m, fee0, fee1, protocolFee, r0, r1, claims, false)
    ensures var n := if m.direction == 1 then ns.party0 else ns.party1;
      n.mint1 == m.baseMint && n.mint2 == m.quoteMint && n.volume1 == m.baseAmount && n.type_ == 1
  {
    hide SidesOk, ClaimOk, Selected, Sub, Add;
    SelectedByBit(
      Bit(VolumesClaimed(m, claims.selling, ns.party1, ns.relayer1, ns.party0, ns.relayer0)),
      Bit(VolumesClaimed(m, claims.buying, ns.party0, ns.relayer0, ns.party1, ns.relayer1)), m.direction);
  }

  /**
   Settling the seller's note of a checked match, for all amounts: the seller's order ends at zero if the match names
   it as the smaller one, and otherwise keeps the difference that the match states.
   */
  lemma SellerOrderFilled(o1: Order, o2: Order, b1: Balance, b2: Balance, r: Engine.MatchResult,
      ns: Notes, fee0: Fee, fee1: Fee, protocolFee: Elem, r0: Elem, r1: Elem, claims: NoteClaims,
      pre: Wallet, post: Wallet, k: nat)
    requires MatchCheck.Checked(MatchPipeline.EngineOrder(o1), MatchPipeline.EngineOrder(o2), b1, b2, r) && IsBit(r.direction)
    requires NotesAccepted(ns, MatchPipeline.MatchOf(r), fee0, fee1, protocolFee, r0, r1, claims, false)
    requires Settled(pre, post, if r.direction == 1 then ns.party0 else ns.party1)
    requires k < |pre.orders| && pre.orders[k] == if r.direction == 1 then o1 else o2
    ensures k < |post.orders|
    ensures post.orders[k].amount ==
      if (r.direction == 1) == (r.minAmountOrderIndex == 0) then 0 else r.maxMinusMinAmount
  {
    hide F, Add, Sub, Selected, NotesAccepted, Settled, MatchCheck.Checked, MatchCheck.Within, Engine.HalfMod, Pow2;
    MatchCheck.CheckedIff(MatchPipeline.EngineOrder(o1), MatchPipeline.EngineOrder(o2), b1, b2, r);
    SellerNote(ns, MatchPipeline.MatchOf(r), fee0, fee1, protocolFee, r0, r1, claims);
    OrderFilled(pre, post, if r.direction == 1 then ns.party0 else ns.party1, k);
    MatchCheck.SubIsDifference(o1.amount, o2.amount);
    MatchCheck.SubIsDifference(o2.amount, o1.amount);
  }

  /** Below everything, the fraction left after fees is the integer floor. */
  lemma SmallPercent(taken: nat, amount: Elem)
    requires taken <= 0x1_0000_0000 && amount < 0x1_0000_0000_0000_0000
    ensures Conservation.Percent(0x1_0000_0000 - taken, amount) == (0x1_0000_0000 - taken) * amount / 0x1_0000_0000
    ensures Conservation.Percent(0x1_0000_0000 - taken, amount) <= amount
    ensures Conservation.Percent(0x1_0000_0000 - taken, amount) == amount as int <==> taken * amount == 0
  {
    var n, a: int := 0x1_0000_0000, amount;
    Conservation.SmallProduct(n - taken, a);
    ModulusSize();
    DivModUnique((n - taken) * a, 0, (n - taken) * a, P);
    var x := taken * a;
    assert (n - taken) * a == n * a - x;
    Primality.MulMonotone(0, 0, taken, a);
  }

  /**
   The buyer's note moves less than the matched amount: after fees of at most everything, the buyer's order keeps what
   the fees took, so an order that the match names as the smaller one ends at zero only if no fee was charged.
   */
  lemma BuyerOrderFilled(o1: Order, o2: Order, b1: Balance, b2: Balance, r: Engine.MatchResult,
      ns: Notes, fee0: Fee, fee1: Fee, protocolFee: Elem, r0: Elem, r1: Elem, pre: Wallet, post: Wallet, k: nat)
    requires MatchCheck.Checked(MatchPipeline.EngineOrder(o1), MatchPipeline.EngineOrder(o2), b1, b2, r) && IsBit(r.direction)
    requires NotesValid(ns, MatchPipeline.MatchOf(r), fee0, fee1, protocolFee, r0, r1)
    requires Settled(pre, post, if r.direction == 1 then ns.party1 else ns.party0)
    requires k < |pre.orders| && pre.orders[k] == if r.direction == 1 then o2 else o1
    requires r.baseAmount < 0x1_0000_0000_0000_0000 && (r.direction == 0) == (r.minAmountOrderIndex == 0)
    requires (if r.direction == 1 then fee1 else fee0).percentage + protocolFee <= 0x1_0000_0000
    ensures k < |post.orders|
    ensures var taken := (if r.direction == 1 then fee1 else fee0).percentage + protocolFee;
      && post.orders[k].amount as int == r.baseAmount - (0x1_0000_0000 - taken) * r.baseAmount / 0x1_0000_0000
      && (post.orders[k].amount == 0 <==> taken * r.baseAmount == 0)
  {
    hide F, Add, Sub, Selected, Settled, MatchCheck.Checked, MatchCheck.Within, Engine.HalfMod, Pow2, Conservation.Percent,
      VolumesMatch, Share, NetFraction;
    var m := MatchPipeline.MatchOf(r);
    MatchCheck.CheckedIff(MatchPipeline.EngineOrder(o1), MatchPipeline.EngineOrder(o2), b1, b2, r);
    SelectedByBit(
      Bit(VolumesMatch(m, protocolFee, ns.party1, fee1.percentage, ns.relayer1, ns.party0, fee0.percentage, ns.relayer0)),
      Bit(VolumesMatch(m, protocolFee, ns.party0, fee0.percentage, ns.relayer0, ns.party1, fee1.percentage, ns.relayer1)),
      m.direction);
    if r.direction == 1 {
      Conservation.VolumesArePercents(m, protocolFee, ns.party1, fee1.percentage, ns.relayer1,
        ns.party0, fee0.percentage, ns.relayer0);
    } else {
      Conservation.VolumesArePercents(m, protocolFee, ns.party0, fee0.percentage, ns.relayer0,
        ns.party1, fee1.percentage, ns.relayer1);
    }
    SmallPercent((if r.direction == 1 then fee1 else fee0).percentage + protocolFee, r.baseAmount);
    OrderFilled(pre, post, if r.direction == 1 then ns.party1 else ns.party0, k);
  }
}
