/** Conservation of value from a match, through its five notes, to their settlement. */
module Conservation {
  import opened Numbers
  import opened ResidueField
  import opened ScalarField
  import opened MpcBits
  import opened ConstraintSystems
  import opened ZkGadgets
  import opened WalletUpdate
  import opened Settle
  import opened MatchNotes
  import opened Solvency
  import Primality

  // ---- one settlement ------------------------------------------------------------------

  function SignedInt(volume: Elem, direction: Elem): int {
    if direction == 1 then -(volume as int) else volume as int
  }

  /** What a note adds to a balance of the given mint. */
  function NoteNet(n: Note, mint: Elem): int {
    (if n.mint1 == mint then SignedInt(n.volume1, n.direction1) else 0) +
    (if n.mint2 == mint then SignedInt(n.volume2, n.direction2) else 0) +
    (if n.feeMint == mint then SignedInt(n.feeVolume, n.feeDirection) else 0)
  }

  ghost predicate DirectionsAreBits(n: Note) {
    IsBit(n.direction1) && IsBit(n.direction2) && IsBit(n.feeDirection)
  }

  lemma SignedIsReduced(volume: Elem, direction: Elem)
    requires IsBit(direction)
    ensures Signed(volume, direction) == F(SignedInt(volume, direction))
  {
    hide F, Selected;
    SelectedByBit(Neg(volume), volume, direction);
    FSelf(volume);
  }

  lemma MaskedIsReduced(p: bool, x: Elem, v: int)
    requires x == F(v)
    ensures Masked(p, x) == F(if p then v else 0)
  {
    hide F;
    FSelf(0);
  }

  lemma SettledIsReduced(pre: seq<Balance>, mint: Elem, n: Note)
    requires DirectionsAreBits(n)
    ensures SettledAmount(pre, mint, n) == F(BalanceOf(pre, mint) + NoteNet(n, mint))
  {
    hide F, Add, Signed, Masked, SignedInt, BalanceOf;
    var b := BalanceOf(pre, mint);
    var v1, v2, v3 := SignedInt(n.volume1, n.direction1), SignedInt(n.volume2, n.direction2),
      SignedInt(n.feeVolume, n.feeDirection);
    SignedIsReduced(n.volume1, n.direction1);
    SignedIsReduced(n.volume2, n.direction2);
    SignedIsReduced(n.feeVolume, n.feeDirection);
    MaskedIsReduced(mint == n.mint1, F(v1), v1);
    MaskedIsReduced(mint == n.mint2, F(v2), v2);
    MaskedIsReduced(mint == n.feeMint, F(v3), v3);
    var x, y, z := if mint == n.mint1 then v1 else 0, if mint == n.mint2 then v2 else 0, if mint == n.feeMint then v3 else 0;
    FAdd(b, x);
    FAdd(b + x, y);
    FAdd(b + x + y, z);
  }

  /**
   Settlement has no range check, so for every accepted settlement: it credits at most the note if and only if the
   wallet covers what the note takes out, and exactly the note if the slot is kept besides.
   */
  lemma SettlementNet(pre: Wallet, post: Wallet, n: Note, mint: Elem)
    requires mint != 0 && Settled(pre, post, n) && DirectionsAreBits(n)
    ensures BalanceOf(post.balances, mint) <= BalanceOf(pre.balances, mint) + NoteNet(n, mint) <==>
      BalanceOf(pre.balances, mint) + NoteNet(n, mint) >= 0
    ensures HasSlot(post.balances, mint) && 0 <= BalanceOf(pre.balances, mint) + NoteNet(n, mint) < P ==>
      BalanceOf(post.balances, mint) == BalanceOf(pre.balances, mint) + NoteNet(n, mint)
    ensures HasSlot(post.balances, mint) && -(P as int) <= BalanceOf(pre.balances, mint) + NoteNet(n, mint) < 0 ==>
      BalanceOf(post.balances, mint) == BalanceOf(pre.balances, mint) + NoteNet(n, mint) + P
  {
    hide F, Add, BalanceOf, Slots, SettledAmount, NoteNet, SettledOrder;
    if k :| 0 <= k < |post.balances| && post.balances[k].mint == mint {
      OneSlot(post.balances, k);
      SettledIsReduced(pre.balances, mint, n);
      ReductionShrinks(BalanceOf(pre.balances, mint) + NoteNet(n, mint));
    } else {
      NoSlot(post.balances, mint);
    }
  }

  lemma ReductionShrinks(x: int)
    ensures F(x) as int <= x <==> x >= 0
    ensures (0 <= x < P ==> F(x) == x) && (-(P as int) <= x < 0 ==> F(x) as int == x + P)
  {
    if 0 <= x < P {
      FSelf(x);
    } else if -(P as int) <= x < 0 {
      DivModUnique(x, -1, x + P, P);
    }
  }

  /** Five units sold and five paid as gas in one mint: each is covered by a balance of five, and P - 5 are left. */
  lemma UncoveredSettlementCreates(keys: Keys)
    ensures var pre := Wallet([Balance(1, 5)], [], keys, 0);
      var post := Wallet([Balance(1, P - 5)], [], keys, 2);
      var n := Note(1, 5, 1, 2, 0, 0, 1, 5, 1, 1, 0);
      && Settled(pre, post, n) && DirectionsAreBits(n)
      && BalanceOf(pre.balances, 1) == 5 && NoteNet(n, 1) == -10 && BalanceOf(post.balances, 1) == P - 5
  {
    hide F;
    var pre, post := Wallet([Balance(1, 5)], [], keys, 0), Wallet([Balance(1, P - 5)], [], keys, 2);
    var n := Note(1, 5, 1, 2, 0, 0, 1, 5, 1, 1, 0);
    FSelf(2);
    OneSlot(pre.balances, 0);
    OneSlot(post.balances, 0);
    SettledIsReduced(pre.balances, 1, n);
    ReductionShrinks(-5);
  }

  // ---- runs of updates and settlements -------------------------------------------------

  /** What happens to a wallet: it settles a note or is updated by its owner. */
  datatype Action = Settling(note: Note) | Updating(transfers: Transfers)

  /** Step k acts on wallet target of a ledger of wallets. */
  datatype Step = Step(target: nat, action: Action)

  /** The action's circuit accepts it. */
  ghost predicate Applied(pre: Wallet, post: Wallet, a: Action) {
    match a
    case Settling(n) => Settled(pre, post, n) && DirectionsAreBits(n)
    case Updating(t) => Accepted(pre, post, t)
  }

  function ActionNet(a: Action, mint: Elem): int {
    match a
    case Settling(n) => NoteNet(n, mint)
    case Updating(t) => Inflow(t, mint) - Outflow(t, mint)
  }

  /** The wallet can pay what the action takes out. */
  ghost predicate Covers(pre: Wallet, a: Action, mint: Elem) {
    BalanceOf(pre.balances, mint) + ActionNet(a, mint) >= 0
  }

  /** Every accepted action credits at most its net if and only if the wallet covers it. */
  lemma ActionNetIff(pre: Wallet, post: Wallet, a: Action, mint: Elem)
    requires mint != 0 && Applied(pre, post, a)
    ensures BalanceOf(post.balances, mint) <= BalanceOf(pre.balances, mint) + ActionNet(a, mint) <==> Covers(pre, a, mint)
    ensures Covers(pre, a, mint) && HasSlot(post.balances, mint) && BalanceOf(pre.balances, mint) + ActionNet(a, mint) < P ==>
      BalanceOf(post.balances, mint) == BalanceOf(pre.balances, mint) + ActionNet(a, mint)
  {
    hide Settled, DirectionsAreBits, Accepted, BalanceOf, NoteNet, Inflow, Outflow, HasSlot, Wraps;
    match a
    case Settling(n) => SettlementNet(pre, post, n, mint);
    case Updating(t) =>
      StepSolventIff(pre, post, t, mint);
      StepExact(pre, post, t, mint);
      var u := Unreduced(pre, t, mint);
      if 0 <= u < P {
        NoWraps(u);
      }
  }

  lemma NoWraps(u: int)
    requires 0 <= u < P
    ensures Wraps(u) == 0
  {
    DivModUnique(u, 0, u, P);
  }

  /** An accepted update of outflow at most P - 2^64 is covered, whatever the wallet claims. */
  lemma UpdateIsCovered(pre: Wallet, post: Wallet, t: Transfers, mint: Elem)
    requires mint != 0 && Accepted(pre, post, t) && VolumesFit(t, mint)
    ensures Covers(pre, Updating(t), mint)
  {
    hide Accepted, BalanceOf, Inflow, Outflow, VolumesFit, HasSlot;
    StepSolvent(pre, post, t, mint);
    StepSolventIff(pre, post, t, mint);
  }

  /** ledgers[k + 1] is ledgers[k] with one wallet acted on. */
  ghost predicate LedgerRun(ledgers: seq<seq<Wallet>>, steps: seq<Step>) {
    && |ledgers| == |steps| + 1
    && forall k {:trigger steps[k]} :: 0 <= k < |steps| ==> LedgerStep(ledgers[k], ledgers[k + 1], steps[k])
  }

  ghost predicate LedgerStep(before: seq<Wallet>, after: seq<Wallet>, s: Step) {
    && |before| == |after| && s.target < |before|
    && Applied(before[s.target], after[s.target], s.action)
    && after == before[s.target := after[s.target]]
  }

  /** Every step is covered by the wallet it debits. */
  ghost predicate AllCovered(ledgers: seq<seq<Wallet>>, steps: seq<Step>, mint: Elem)
    requires LedgerRun(ledgers, steps)
  {
    forall k :: 0 <= k < |steps| ==> Covers(ledgers[k][steps[k].target], steps[k].action, mint)
  }

  /** Every step keeps a slot for the mint and stays below the modulus. */
  ghost predicate AllKept(ledgers: seq<seq<Wallet>>, steps: seq<Step>, mint: Elem)
    requires LedgerRun(ledgers, steps)
  {
    forall k :: 0 <= k < |steps| ==>
      && HasSlot(ledgers[k + 1][steps[k].target].balances, mint)
      && BalanceOf(ledgers[k][steps[k].target].balances, mint) + ActionNet(steps[k].action, mint) < P
  }

  function TotalHeld(ledger: seq<Wallet>, mint: Elem): nat {
    if |ledger| == 0 then 0
    else TotalHeld(ledger[..|ledger| - 1], mint) + BalanceOf(ledger[|ledger| - 1].balances, mint)
  }

  function TotalNet(steps: seq<Step>, mint: Elem): int {
    if |steps| == 0 then 0 else TotalNet(steps[..|steps| - 1], mint) + ActionNet(steps[|steps| - 1].action, mint)
  }

  lemma {:induction false} TotalUpdate(ledger: seq<Wallet>, i: nat, w: Wallet, mint: Elem)
    requires i < |ledger|
    ensures TotalHeld(ledger[i := w], mint) ==
      TotalHeld(ledger, mint) - BalanceOf(ledger[i].balances, mint) + BalanceOf(w.balances, mint)
  {
    hide BalanceOf;
    var n := |ledger| - 1;
    if i == n {
      assert ledger[i := w][..n] == ledger[..n];
    } else {
      assert ledger[i := w][..n] == ledger[..n][i := w];
      TotalUpdate(ledger[..n], i, w, mint);
    }
  }

  /**
   Over every run that mixes updates and settlements on any wallets, all covered, the ledger changes by at most the
   deposits less the withdrawals plus the notes, exactly if slots are kept.
   */
  lemma {:induction false} LedgerRunNet(ledgers: seq<seq<Wallet>>, steps: seq<Step>, mint: Elem)
    requires mint != 0 && LedgerRun(ledgers, steps) && AllCovered(ledgers, steps, mint)
    ensures TotalHeld(ledgers[|steps|], mint) <= TotalHeld(ledgers[0], mint) + TotalNet(steps, mint)
    ensures AllKept(ledgers, steps, mint) ==>
      TotalHeld(ledgers[|steps|], mint) == TotalHeld(ledgers[0], mint) + TotalNet(steps, mint)
  {
    hide BalanceOf, Applied, ActionNet, Covers, TotalHeld, HasSlot;
    if |steps| > 0 {
      var n := |steps| - 1;
      var ls, ss := ledgers[..n + 1], steps[..n];
      RunPrefix(ledgers, steps, mint);
      LedgerRunNet(ls, ss, mint);
      assert LedgerStep(ledgers[n], ledgers[n + 1], steps[n]);
      var t := steps[n].target;
      ActionNetIff(ledgers[n][t], ledgers[n + 1][t], steps[n].action, mint);
      TotalUpdate(ledgers[n], t, ledgers[n + 1][t], mint);
    }
  }

  /** Updates move at most P - 2^64 out at once; only settlements have to be paid from the wallet. */
  ghost predicate AllPayable(ledgers: seq<seq<Wallet>>, steps: seq<Step>, mint: Elem)
    requires LedgerRun(ledgers, steps)
  {
    forall k :: 0 <= k < |steps| ==>
      match steps[k].action
      case Settling(n) => Covers(ledgers[k][steps[k].target], steps[k].action, mint)
      case Updating(t) => VolumesFit(t, mint)
  }

  /** The update circuit enforces its own cover: no mixed run of payable settlements pays out more than was put in. */
  lemma PayableRunSolvent(ledgers: seq<seq<Wallet>>, steps: seq<Step>, mint: Elem)
    requires mint != 0 && LedgerRun(ledgers, steps) && AllPayable(ledgers, steps, mint)
    ensures AllCovered(ledgers, steps, mint)
    ensures 0 <= TotalHeld(ledgers[|steps|], mint) <= TotalHeld(ledgers[0], mint) + TotalNet(steps, mint)
  {
    hide BalanceOf, Accepted, Settled, DirectionsAreBits, Covers, TotalHeld, TotalNet, VolumesFit;
    forall k | 0 <= k < |steps| ensures Covers(ledgers[k][steps[k].target], steps[k].action, mint) {
      assert LedgerStep(ledgers[k], ledgers[k + 1], steps[k]);
      var t := steps[k].target;
      if steps[k].action.Updating? {
        UpdateIsCovered(ledgers[k][t], ledgers[k + 1][t], steps[k].action.transfers, mint);
      }
    }
    LedgerRunNet(ledgers, steps, mint);
  }

  lemma RunPrefix(ledgers: seq<seq<Wallet>>, steps: seq<Step>, mint: Elem)
    requires LedgerRun(ledgers, steps) && |steps| > 0
    ensures var n := |steps| - 1;
      && LedgerRun(ledgers[..n + 1], steps[..n])
      && (AllCovered(ledgers, steps, mint) ==> AllCovered(ledgers[..n + 1], steps[..n], mint))
      && (AllKept(ledgers, steps, mint) ==> AllKept(ledgers[..n + 1], steps[..n], mint))
  {
    hide LedgerStep, Covers, HasSlot, ActionNet, BalanceOf;
    var n := |steps| - 1;
    var ls, ss := ledgers[..n + 1], steps[..n];
    forall k | 0 <= k < n ensures LedgerStep(ls[k], ls[k + 1], ss[k]) {
      assert LedgerStep(ledgers[k], ledgers[k + 1], steps[k]);
    }
    assert LedgerRun(ls, ss);
  }

  // ---- the five notes of a match -------------------------------------------------------

  /** What the notes of one traded mint credit in all, less the amount they debit. */
  function SideNet(fee: Elem, protocolFee: Elem, amount: Elem): int {
    Share(NetFraction(fee, protocolFee), amount) as int + Share(fee, amount) as int + Share(protocolFee, amount) as int
    - amount as int
  }

  lemma ThreeFloors(x: nat, y: nat, z: nat, n: nat, b: nat)
    requires n > 0 && x + y + z == n * b
    ensures b - 2 <= x / n + y / n + z / n <= b
  {
    FloorsLeave(x / n, x % n, y / n, y % n, z / n, z % n, n, b);
  }

  lemma FloorsLeave(p: int, x: int, q: int, y: int, r: int, z: int, n: int, b: int)
    requires 0 <= x < n && 0 <= y < n && 0 <= z < n
    requires n * p + x + (n * q + y) + (n * r + z) == n * b
    ensures b - 2 <= p + q + r <= b
  {
    MulDistributesOver(n, p, q);
    MulDistributesOver(n, p + q, r);
    MulDistributesOver(n, b - (p + q + r), p + q + r);
    Narrow(n, b - (p + q + r), 3);
  }

  lemma Narrow(n: int, d: int, k: int)
    requires n > 0 && 0 <= n * d < k * n
    ensures 0 <= d < k
  {
    if d >= k {
      MulDistributesOver(n, k, d - k);
      MulCommutes(n, k);
    }
  }

  lemma NetFractionFits(fee: Elem, protocolFee: Elem)
    ensures NetFraction(fee, protocolFee) == F(UNIT - fee - protocolFee)
  {
    hide F, Sub;
    FSelf(UNIT);
    FSelf(fee);
    FSelf(protocolFee);
    FSub(UNIT, fee);
    FSub(UNIT - fee, protocolFee);
  }

  /** The three products, each reduced to the field, that the shares of an amount divide. */
  function Products(fee: Elem, protocolFee: Elem, amount: Elem): nat {
    Mul(NetFraction(fee, protocolFee), amount) as int + Mul(fee, amount) as int + Mul(protocolFee, amount) as int
  }

  /** The reduced products add up to no more than the amount. */
  ghost predicate FeesFit(fee: Elem, protocolFee: Elem, amount: Elem) {
    Products(fee, protocolFee, amount) <= UNIT as int * amount as int
  }

  /** They add up to the amount. */
  ghost predicate FeesExact(fee: Elem, protocolFee: Elem, amount: Elem) {
    Products(fee, protocolFee, amount) == UNIT as int * amount as int
  }

  /** Modulo P the three products are the whole amount. */
  lemma ProductsCongruent(fee: Elem, protocolFee: Elem, amount: Elem)
    ensures F(Products(fee, protocolFee, amount)) == F(UNIT as int * amount as int)
  {
    hide F, Mul, Add, NetFraction;
    var x, y, z, a: int := UNIT - fee - protocolFee, fee as int, protocolFee as int, amount;
    NetFractionFits(fee, protocolFee);
    FSelf(fee);
    FSelf(protocolFee);
    FSelf(amount);
    FMul(x, a);
    FMul(y, a);
    FMul(z, a);
    var p, q, r := Mul(NetFraction(fee, protocolFee), amount), Mul(fee, amount), Mul(protocolFee, amount);
    FSelf(p);
    FSelf(q);
    FSelf(r);
    FAdd(p, q);
    FAdd(p as int + q as int, r);
    FAdd(x * a, y * a);
    FAdd(x * a + y * a, z * a);
    MulSplits(x, y, z, a);
  }

  lemma MulSplits(x: int, y: int, z: int, n: int)
    ensures x * n + y * n + z * n == (x + y + z) * n
  {
  }

  /**
   For all fees and amounts: the shares create value exactly if the fees do not fit, and lose at most two units, to
   rounding, exactly if the reduced products add up to the amount.
   */
  lemma SideNetBound(fee: Elem, protocolFee: Elem, amount: Elem)
    ensures SideNet(fee, protocolFee, amount) <= 0 <==> FeesFit(fee, protocolFee, amount)
    ensures -2 <= SideNet(fee, protocolFee, amount) <= 0 <==> FeesExact(fee, protocolFee, amount)
  {
    hide F, Mul, NetFraction;
    var p, q, r := Mul(NetFraction(fee, protocolFee), amount), Mul(fee, amount), Mul(protocolFee, amount);
    var n, a: int := UNIT as int, amount;
    var x := n * a;
    ProductsCongruent(fee, protocolFee, amount);
    var y := Products(fee, protocolFee, amount);
    assert y == p as int + q as int + r as int;
    ModulusSize();
    if y == x {
      ThreeFloors(p, q, r, n, a);
    } else {
      FarApart(y, x);
      if y > x {
        FloorsAtLeast(p / n, p % n, q / n, q % n, r / n, r % n, n, a, y);
      } else {
        FloorsAtMost(p / n, p % n, q / n, q % n, r / n, r % n, n, a, y);
      }
    }
  }

  lemma FloorsAtLeast(p: int, x: int, q: int, y: int, r: int, z: int, n: int, a: int, total: int)
    requires 0 <= x < n && 0 <= y < n && 0 <= z < n
    requires n * p + x + (n * q + y) + (n * r + z) == total >= n * a + 3 * n
    ensures p + q + r > a
  {
    MulDistributesOver(n, p, q);
    MulDistributesOver(n, p + q, r);
    if p + q + r <= a {
      MulDistributesOver(n, p + q + r, a - (p + q + r));
    }
  }

  lemma FloorsAtMost(p: int, x: int, q: int, y: int, r: int, z: int, n: int, a: int, total: int)
    requires 0 <= x < n && 0 <= y < n && 0 <= z < n
    requires n * p + x + (n * q + y) + (n * r + z) == total < n * a - 3 * n
    ensures p + q + r < a - 2
  {
    MulDistributesOver(n, p, q);
    MulDistributesOver(n, p + q, r);
    if p + q + r >= a - 2 {
      MulDistributesOver(n, a - 2, p + q + r - (a - 2));
      MulDistributesOver(n, a, -2);
    }
  }

  /** 64-bit fees of at most everything fit every 64-bit amount exactly; fees of more fit no amount but zero. */
  lemma FeesFitIff(fee: Elem, protocolFee: Elem, amount: Elem)
    requires amount < 0x1_0000_0000_0000_0000
    requires fee < 0x1_0000_0000_0000_0000 && protocolFee < 0x1_0000_0000_0000_0000
    ensures FeesFit(fee, protocolFee, amount) <==> fee + protocolFee <= UNIT || amount == 0
    ensures FeesFit(fee, protocolFee, amount) <==> FeesExact(fee, protocolFee, amount)
  {
    hide F, Add, NetFraction;
    var x, y, z, a: int := UNIT - fee - protocolFee, fee as int, protocolFee as int, amount;
    NetFractionFits(fee, protocolFee);
    SmallProduct(y, a);
    SmallProduct(z, a);
    FSelf(fee);
    FSelf(protocolFee);
    FSelf(amount);
    FMul(x, a);
    FMul(y, a);
    FMul(z, a);
    FSelf(y * a);
    FSelf(z * a);
    MulSplits(x, y, z, a);
    SmallProduct(if x >= 0 then x else -x, a);
    assert x < 0 ==> -x * a == -(x * a);
    if x >= 0 || a == 0 {
      FSelf(x * a);
    } else {
      assert x * a < 0 by { NegativeProduct(x, a); }
      ReductionShrinks(x * a);
    }
  }

  lemma SmallProduct(x: int, y: int)
    requires 0 <= x < 0x2_0000_0000_0000_0000 && 0 <= y < 0x1_0000_0000_0000_0000
    ensures 0 <= x * y <= 0x2_0000_0000_0000_0000_0000_0000_0000_0000
  {
    var c, d := 0x2_0000_0000_0000_0000, 0x1_0000_0000_0000_0000;
    Primality.MulMonotone(0, 0, x, y);
    Primality.MulMonotone(x, y, c, d);
    assert c * d == 0x2_0000_0000_0000_0000_0000_0000_0000_0000;
  }

  lemma NegativeProduct(x: int, y: int)
    requires x < 0 && y > 0
    ensures x * y < 0
  {
  }

  function NotesNet(ns: Notes, mint: Elem): int {
    NoteNet(ns.party0, mint) + NoteNet(ns.party1, mint) + NoteNet(ns.relayer0, mint) + NoteNet(ns.relayer1, mint)
    + NoteNet(ns.protocol, mint)
  }

  /** In either direction the notes net to the rounding of the base and of the quote; gas nets to nothing. */
  lemma NotesNetExact(ns: Notes, m: Match, fee0: Fee, fee1: Fee, protocolFee: Elem, r0: Elem, r1: Elem, mint: Elem)
    requires IsBit(m.direction) && NotesValid(ns, m, fee0, fee1, protocolFee, r0, r1)
    ensures DirectionsAreBits(ns.party0) && DirectionsAreBits(ns.party1) && DirectionsAreBits(ns.relayer0)
    ensures DirectionsAreBits(ns.relayer1) && DirectionsAreBits(ns.protocol)
    ensures var (buyerFee, sellerFee) := if m.direction == 1 then (fee1, fee0) else (fee0, fee1);
      NotesNet(ns, mint) ==
        (if mint == m.baseMint then SideNet(buyerFee.percentage, protocolFee, m.baseAmount) else 0) +
        (if mint == m.quoteMint then SideNet(sellerFee.percentage, protocolFee, m.quoteAmount) else 0)
  {
    hide F, Share, NetFraction, Sub, Add, Selected, VolumesMatch;
    OneMinusBit(m.direction);
    var selling := VolumesMatch(m, protocolFee, ns.party1, fee1.percentage, ns.relayer1, ns.party0, fee0.percentage, ns.relayer0);
    var buying := VolumesMatch(m, protocolFee, ns.party0, fee0.percentage, ns.relayer0, ns.party1, fee1.percentage, ns.relayer1);
    SelectedByBit(Bit(selling), Bit(buying), m.direction);
    if m.direction == 1 {
      SidesNet(m, protocolFee, ns.party1, fee1, ns.relayer1, ns.party0, fee0, ns.relayer0, ns.protocol, mint);
    } else {
      SidesNet(m, protocolFee, ns.party0, fee0, ns.relayer0, ns.party1, fee1, ns.relayer1, ns.protocol, mint);
    }
  }

  /** A fixed-point fraction of an amount, reduced and rounded down. */
  function Percent(fraction: int, amount: Elem): nat {
    fraction * amount % P / 0x1_0000_0000
  }

  lemma ShareIsPercent(fraction: Elem, amount: Elem)
    ensures Share(fraction, amount) as int == Percent(fraction, amount)
  {
    hide F;
    FIsShift(fraction * amount);
  }

  lemma NetIsPercent(fee: Elem, protocolFee: Elem, amount: Elem)
    ensures Share(NetFraction(fee, protocolFee), amount) as int ==
      Percent(0x1_0000_0000 - fee - protocolFee, amount)
  {
    hide F, NetFraction;
    NetFractionFits(fee, protocolFee);
    FSelf(amount);
    FMul(0x1_0000_0000 - fee - protocolFee, amount);
    FIsShift((0x1_0000_0000 - fee - protocolFee) * amount);
    ShareIsPercent(NetFraction(fee, protocolFee), amount);
  }

  /**
   Each note on its own, in either direction. A party pays what it sells and its own gas and gets the rest of what it
   buys; its relayer gets that party's gas and percentage, in the asset that the party buys; the protocol gets its
   percentage of both assets and no gas.
   */
  lemma NoteNets(ns: Notes, m: Match, fee0: Fee, fee1: Fee, protocolFee: Elem, r0: Elem, r1: Elem, mint: Elem)
    requires IsBit(m.direction) && NotesValid(ns, m, fee0, fee1, protocolFee, r0, r1)
    ensures var (got0, amount0, sold0, given0) := if m.direction == 1 then (m.quoteMint, m.quoteAmount, m.baseMint, m.baseAmount)
        else (m.baseMint, m.baseAmount, m.quoteMint, m.quoteAmount);
      && NoteNet(ns.party0, mint) ==
           (if mint == got0 then Percent(0x1_0000_0000 - fee0.percentage - protocolFee, amount0) else 0)
           - (if mint == sold0 then given0 as int else 0) - (if mint == fee0.gasAddr then fee0.gasAmount as int else 0)
      && NoteNet(ns.relayer0, mint) ==
           (if mint == got0 then Percent(fee0.percentage, amount0) else 0)
           + (if mint == fee0.gasAddr then fee0.gasAmount as int else 0)
    ensures var (got1, amount1, sold1, given1) := if m.direction == 1 then (m.baseMint, m.baseAmount, m.quoteMint, m.quoteAmount)
        else (m.quoteMint, m.quoteAmount, m.baseMint, m.baseAmount);
      && NoteNet(ns.party1, mint) ==
           (if mint == got1 then Percent(0x1_0000_0000 - fee1.percentage - protocolFee, amount1) else 0)
           - (if mint == sold1 then given1 as int else 0) - (if mint == fee1.gasAddr then fee1.gasAmount as int else 0)
      && NoteNet(ns.relayer1, mint) ==
           (if mint == got1 then Percent(fee1.percentage, amount1) else 0)
           + (if mint == fee1.gasAddr then fee1.gasAmount as int else 0)
    ensures NoteNet(ns.protocol, mint) ==
      (if mint == m.baseMint then Percent(protocolFee, m.baseAmount) else 0)
      + (if mint == m.quoteMint then Percent(protocolFee, m.quoteAmount) else 0)
  {
    hide F, Share, NetFraction, Sub, Add, Selected, VolumesMatch, Percent;
    OneMinusBit(m.direction);
    var selling := VolumesMatch(m, protocolFee, ns.party1, fee1.percentage, ns.relayer1, ns.party0, fee0.percentage, ns.relayer0);
    var buying := VolumesMatch(m, protocolFee, ns.party0, fee0.percentage, ns.relayer0, ns.party1, fee1.percentage, ns.relayer1);
    SelectedByBit(Bit(selling), Bit(buying), m.direction);
    ShareIsPercent(protocolFee, m.baseAmount);
    ShareIsPercent(protocolFee, m.quoteAmount);
    if m.direction == 1 {
      VolumesArePercents(m, protocolFee, ns.party1, fee1.percentage, ns.relayer1, ns.party0, fee0.percentage, ns.relayer0);
    } else {
      VolumesArePercents(m, protocolFee, ns.party0, fee0.percentage, ns.relayer0, ns.party1, fee1.percentage, ns.relayer1);
    }
  }

  lemma VolumesArePercents(m: Match, protocolFee: Elem,
      buyer: Note, buyerFee: Elem, buyerRelayer: Note, seller: Note, sellerFee: Elem, sellerRelayer: Note)
    requires VolumesMatch(m, protocolFee, buyer, buyerFee, buyerRelayer, seller, sellerFee, sellerRelayer)
    ensures buyer.volume1 as int == Percent(0x1_0000_0000 - buyerFee - protocolFee, m.baseAmount)
    ensures seller.volume2 as int == Percent(0x1_0000_0000 - sellerFee - protocolFee, m.quoteAmount)
    ensures buyer.volume2 == m.quoteAmount && seller.volume1 == m.baseAmount
    ensures buyerRelayer.volume1 as int == Percent(buyerFee, m.baseAmount) && buyerRelayer.volume2 == 0
    ensures sellerRelayer.volume2 as int == Percent(sellerFee, m.quoteAmount) && sellerRelayer.volume1 == 0
  {
    hide Share, NetFraction, Percent;
    NetIsPercent(buyerFee, protocolFee, m.baseAmount);
    NetIsPercent(sellerFee, protocolFee, m.quoteAmount);
    ShareIsPercent(buyerFee, m.baseAmount);
    ShareIsPercent(sellerFee, m.quoteAmount);
  }

  /** Gas in a mint of its own goes from each party to its own relayer and nowhere else. */
  lemma GasStaysInPairs(ns: Notes, m: Match, fee0: Fee, fee1: Fee, protocolFee: Elem, r0: Elem, r1: Elem)
    requires IsBit(m.direction) && NotesValid(ns, m, fee0, fee1, protocolFee, r0, r1)
    requires fee0.gasAddr != fee1.gasAddr
    ensures fee0.gasAddr != m.baseMint && fee0.gasAddr != m.quoteMint ==>
      && NoteNet(ns.relayer0, fee0.gasAddr) == fee0.gasAmount as int == -NoteNet(ns.party0, fee0.gasAddr)
      && NoteNet(ns.party1, fee0.gasAddr) == NoteNet(ns.relayer1, fee0.gasAddr) == NoteNet(ns.protocol, fee0.gasAddr) == 0
    ensures fee1.gasAddr != m.baseMint && fee1.gasAddr != m.quoteMint ==>
      && NoteNet(ns.relayer1, fee1.gasAddr) == fee1.gasAmount as int == -NoteNet(ns.party1, fee1.gasAddr)
      && NoteNet(ns.party0, fee1.gasAddr) == NoteNet(ns.relayer0, fee1.gasAddr) == NoteNet(ns.protocol, fee1.gasAddr) == 0
  {
    hide NotesValid, NoteNet, Percent;
    NoteNets(ns, m, fee0, fee1, protocolFee, r0, r1, fee0.gasAddr);
    NoteNets(ns, m, fee0, fee1, protocolFee, r0, r1, fee1.gasAddr);
  }

  /** Only the party notes are match notes, and the five notes hash five prescribed randomness values. */
  lemma NoteLabels(ns: Notes, m: Match, fee0: Fee, fee1: Fee, protocolFee: Elem, r0: Elem, r1: Elem)
    requires NotesValid(ns, m, fee0, fee1, protocolFee, r0, r1)
    ensures ns.party0.type_ == ns.party1.type_ == 1 && ns.relayer0.type_ == ns.relayer1.type_ == ns.protocol.type_ == 0
    ensures ns.party0.randomness == r0 && ns.party1.randomness == r1
    ensures ns.relayer0.randomness as int == (r0 + 1) % P && ns.relayer1.randomness as int == (r1 + 1) % P
    ensures ns.protocol.randomness as int == (r0 + r1) % P
  {
    hide Share, NetFraction, Sub, Selected, VolumesMatch;
  }

  lemma SidesNet(m: Match, protocolFee: Elem, buyer: Note, buyerFee: Fee, buyerRelayer: Note,
      seller: Note, sellerFee: Fee, sellerRelayer: Note, protocol: Note, mint: Elem)
    requires VolumesMatch(m, protocolFee, buyer, buyerFee.percentage, buyerRelayer, seller, sellerFee.percentage, sellerRelayer)
    requires protocol.volume1 == Share(protocolFee, m.baseAmount) && protocol.volume2 == Share(protocolFee, m.quoteAmount)
    requires Frame(buyer, m, 0, 1, buyerFee.gasAddr, buyerFee.gasAmount, 1, buyer.type_, buyer.randomness)
    requires Frame(seller, m, 1, 0, sellerFee.gasAddr, sellerFee.gasAmount, 1, seller.type_, seller.randomness)
    requires Frame(buyerRelayer, m, 0, 0, buyerFee.gasAddr, buyerFee.gasAmount, 0, buyerRelayer.type_, buyerRelayer.randomness)
    requires Frame(sellerRelayer, m, 0, 0, sellerFee.gasAddr, sellerFee.gasAmount, 0, sellerRelayer.type_, sellerRelayer.randomness)
    requires Frame(protocol, m, 0, 0, 0, 0, 0, protocol.type_, protocol.randomness)
    ensures NoteNet(buyer, mint) + NoteNet(seller, mint) + NoteNet(buyerRelayer, mint) + NoteNet(sellerRelayer, mint)
        + NoteNet(protocol, mint) ==
      (if mint == m.baseMint then SideNet(buyerFee.percentage, protocolFee, m.baseAmount) else 0) +
      (if mint == m.quoteMint then SideNet(sellerFee.percentage, protocolFee, m.quoteAmount) else 0)
  {
    hide Share, NetFraction;
  }

  // ---- match, notes, settlement --------------------------------------------------------

  /** The five notes settled in order, each on its wallet; wallets may coincide. */
  function Settlements(ns: Notes, targets: seq<nat>): (steps: seq<Step>)
    requires |targets| == 5
    ensures |steps| == 5
  {
    [Step(targets[0], Settling(ns.party0)), Step(targets[1], Settling(ns.party1)), Step(targets[2], Settling(ns.relayer0)),
     Step(targets[3], Settling(ns.relayer1)), Step(targets[4], Settling(ns.protocol))]
  }

  lemma TotalOfFive(ns: Notes, targets: seq<nat>, mint: Elem)
    requires |targets| == 5
    ensures TotalNet(Settlements(ns, targets), mint) == NotesNet(ns, mint)
  {
    hide NoteNet;
    var s := Settlements(ns, targets);
    assert s[..4][..3] == s[..3] && s[..3][..2] == s[..2] && s[..2][..1] == s[..1] && s[..1][..0] == [];
    assert TotalNet(s[..1], mint) == NoteNet(ns.party0, mint);
    assert TotalNet(s[..2], mint) == TotalNet(s[..1], mint) + NoteNet(ns.party1, mint);
    assert TotalNet(s[..3], mint) == TotalNet(s[..2], mint) + NoteNet(ns.relayer0, mint);
    assert TotalNet(s[..4], mint) == TotalNet(s[..3], mint) + NoteNet(ns.relayer1, mint);
  }

  /** Each side's fees fit the amount it receives. */
  ghost predicate FeesFitMatch(m: Match, fee0: Fee, fee1: Fee, protocolFee: Elem) {
    var (buyerFee, sellerFee) := if m.direction == 1 then (fee1, fee0) else (fee0, fee1);
    FeesFit(buyerFee.percentage, protocolFee, m.baseAmount) && FeesFit(sellerFee.percentage, protocolFee, m.quoteAmount)
  }

  ghost predicate FeesExactMatch(m: Match, fee0: Fee, fee1: Fee, protocolFee: Elem) {
    var (buyerFee, sellerFee) := if m.direction == 1 then (fee1, fee0) else (fee0, fee1);
    FeesExact(buyerFee.percentage, protocolFee, m.baseAmount) && FeesExact(sellerFee.percentage, protocolFee, m.quoteAmount)
  }

  /**
   Settling the five notes of a match, on any wallets that cover them, never creates any mint if the fees fit. If they
   are exact and slots are kept it destroys at most two units of the base and two of the quote, and every other mint
   is conserved.
   */
  lemma MatchConserves(ns: Notes, m: Match, fee0: Fee, fee1: Fee, protocolFee: Elem, r0: Elem, r1: Elem,
      targets: seq<nat>, ledgers: seq<seq<Wallet>>, mint: Elem)
    requires IsBit(m.direction) && NotesValid(ns, m, fee0, fee1, protocolFee, r0, r1)
    requires FeesFitMatch(m, fee0, fee1, protocolFee)
    requires mint != 0 && |targets| == 5
    requires LedgerRun(ledgers, Settlements(ns, targets))
    requires AllCovered(ledgers, Settlements(ns, targets), mint)
    ensures TotalHeld(ledgers[5], mint) <= TotalHeld(ledgers[0], mint)
    ensures AllKept(ledgers, Settlements(ns, targets), mint) && FeesExactMatch(m, fee0, fee1, protocolFee) ==>
      TotalHeld(ledgers[5], mint) >= TotalHeld(ledgers[0], mint)
        - (if mint == m.baseMint then 2 else 0) - (if mint == m.quoteMint then 2 else 0)
  {
    hide NotesValid, Applied, ActionNet, NotesNet, TotalHeld, SideNet, Covers, HasSlot, BalanceOf, LedgerStep, FeesFit, FeesExact;
    NotesNetExact(ns, m, fee0, fee1, protocolFee, r0, r1, mint);
    LedgerRunNet(ledgers, Settlements(ns, targets), mint);
    TotalOfFive(ns, targets, mint);
    var (buyerFee, sellerFee) := if m.direction == 1 then (fee1, fee0) else (fee0, fee1);
    SideNetBound(buyerFee.percentage, protocolFee, m.baseAmount);
    SideNetBound(sellerFee.percentage, protocolFee, m.quoteAmount);
  }

  /**
   A match of nothing whose ten shares are all claimed as P - 2 with remainder 2^33: the constraints accept the
   notes, remainder tests included, and the notes create 3 (P - 2) units of the base.
   */
  lemma WrongSharesCreate(base: Elem, quote: Elem, gas: Elem, r0: Elem, r1: Elem)
    requires base != quote
    ensures var m, fee := Match(quote, base, 0, 0, 0), Fee(gas, 0, 0);
      var wrong := Claim(P - 2, 0x2_0000_0000);
      var side := SideClaims(wrong, wrong, wrong, wrong);
      var x: Elem := P - 2;
      var ns := Notes(
        Note(base, x, 0, quote, 0, 1, gas, 0, 1, 1, r0), Note(base, 0, 1, quote, x, 0, gas, 0, 1, 1, r1),
        Note(base, x, 0, quote, 0, 0, gas, 0, 0, 0, Add(r0, 1)), Note(base, 0, 0, quote, x, 0, gas, 0, 0, 0, Add(r1, 1)),
        Note(base, x, 0, quote, x, 0, 0, 0, 0, 0, Add(r0, r1)));
      && NotesAccepted(ns, m, fee, fee, 0, r0, r1, NoteClaims(side, side, wrong, wrong), true)
      && NotesNet(ns, base) == 3 * (P - 2) && NotesNet(ns, quote) == 3 * (P - 2)
  {
    hide Add, Sub, Mul, DivisionPasses, Selected, NetFraction;
    WrongQuotientPasses();
    WrongClaim(NetFraction(0, 0));
    WrongClaim(0);
    OneMinusBit(0);
    SelectedByBit(0, 1, 0);
    SelectedByBit(1, 1, 0);
  }

  lemma WrongClaim(fraction: Elem)
    ensures ClaimOk(Claim(P - 2, 0x2_0000_0000), fraction, 0, true)
  {
    hide Add, Sub, Mul, Pow2;
    MulOne(fraction);
    WrongQuotientPasses();
  }

  /** The constraints of the notes circuit themselves accept those notes, all bit wires being the prover's own. */
  method AcceptWrongShares() returns (cs: ConstraintSystem, ns: NoteVars, ghost w: Assignment)
    ensures Satisfies(cs.constraints, w) && Honest(cs.hints, w) && Plausible(cs.unchecked, w)
    ensures NotesNet(NotesAt(ns, w), 1) == 3 * (P - 2) && NotesNet(NotesAt(ns, w), 2) == 3 * (P - 2)
  {
    hide Satisfies, Honest, Plausible, NotesAccepted, NotesNet, Recorded, InOrder, Add, NotesAt, MatchAt, FeeAt, At, ClaimsAt,
      ClaimsFree;
    ns := NoteVars(
      NoteVar(1, 4, 0, 2, 0, 1, 3, 0, 1, 1, 0), NoteVar(1, 0, 1, 2, 4, 0, 3, 0, 1, 1, 0),
      NoteVar(1, 4, 0, 2, 0, 0, 3, 0, 0, 0, 1), NoteVar(1, 0, 0, 2, 4, 0, 3, 0, 0, 0, 1),
      NoteVar(1, 4, 0, 2, 4, 0, 0, 0, 0, 0, 0));
    var m, fee := MatchVar(2, 1, 0, 0, 0), FeeVar(3, 0, 0);
    cs := new ConstraintSystem(5);
    var c := ValidateNotes(cs, ns, m, fee, fee, 0, 0, 0);
    ghost var input: Assignment := [0, 1, 2, 3, P - 2];
    w := ChosenAssignment(cs.hints, input, P - 2, 0x2_0000_0000);
    HonestIsPlausible(cs.hints, cs.unchecked, w);
    assert Satisfies([], w) by { SatisfiesNothing(w); }
    InputsAt(input, w);
    WrongClaims(c, cs.hints, w);
    WrongNotesAt(ns, m, fee, w);
    WrongSharesCreate(1, 2, 3, 0, 0);
    assert Add(0, 1) == 1 && Add(0, 0) == 0 by { FSelf(0); FSelf(1); FAdd(0, 1); FAdd(0, 0); }
  }

  lemma InputsAt(input: Assignment, w: Assignment)
    requires |input| == 5 <= |w| && w[..5] == input
    ensures At(w, 0) == input[0] && At(w, 1) == input[1] && At(w, 2) == input[2] && At(w, 3) == input[3] && At(w, 4) == input[4]
  {
    forall i: nat | i < 5 ensures w[i] == input[i] { assert w[..5][i] == w[i]; }
  }

  lemma WrongClaims(c: NoteClaimVars, hints: seq<Hint>, w: Assignment)
    requires ClaimsFree(c, hints)
    requires forall h :: h in hints && h.Chosen? ==> At(w, h.wire) == if h.part.AsQuotient? then P - 2 else 0x2_0000_0000
    ensures var wrong := Claim(P - 2, 0x2_0000_0000);
      var side := SideClaims(wrong, wrong, wrong, wrong);
      ClaimsAt(c, w) == NoteClaims(side, side, wrong, wrong)
  {
    hide At;
    WrongSide(c.buying, hints, w);
    WrongSide(c.selling, hints, w);
    WrongAt(c.base, hints, w);
    WrongAt(c.quote, hints, w);
  }

  lemma WrongSide(s: SideVars, hints: seq<Hint>, w: Assignment)
    requires SidesFree(s, hints)
    requires forall h :: h in hints && h.Chosen? ==> At(w, h.wire) == if h.part.AsQuotient? then P - 2 else 0x2_0000_0000
    ensures var wrong := Claim(P - 2, 0x2_0000_0000);
      SidesAt(s, w) == SideClaims(wrong, wrong, wrong, wrong)
  {
    hide At, ClaimAt;
    WrongAt(s.buyerBase, hints, w);
    WrongAt(s.sellerQuote, hints, w);
    WrongAt(s.relayerBase, hints, w);
    WrongAt(s.relayerQuote, hints, w);
  }

  lemma WrongAt(c: ClaimVar, hints: seq<Hint>, w: Assignment)
    requires ClaimFree(c, hints)
    requires forall h :: h in hints && h.Chosen? ==> At(w, h.wire) == if h.part.AsQuotient? then P - 2 else 0x2_0000_0000
    ensures ClaimAt(c, w) == Claim(P - 2, 0x2_0000_0000)
  {
    hide At;
    assert At(w, Chosen(c.q, AsQuotient).wire) == P - 2;
    assert At(w, Chosen(c.r, AsRemainder).wire) == 0x2_0000_0000;
  }

  lemma WrongNotesAt(ns: NoteVars, m: MatchVar, fee: FeeVar, w: Assignment)
    requires ns == NoteVars(
      NoteVar(1, 4, 0, 2, 0, 1, 3, 0, 1, 1, 0), NoteVar(1, 0, 1, 2, 4, 0, 3, 0, 1, 1, 0),
      NoteVar(1, 4, 0, 2, 0, 0, 3, 0, 0, 0, 1), NoteVar(1, 0, 0, 2, 4, 0, 3, 0, 0, 0, 1),
      NoteVar(1, 4, 0, 2, 4, 0, 0, 0, 0, 0, 0))
    requires m == MatchVar(2, 1, 0, 0, 0) && fee == FeeVar(3, 0, 0)
    requires At(w, 0) == 0 && At(w, 1) == 1 && At(w, 2) == 2 && At(w, 3) == 3 && At(w, 4) == P - 2
    ensures NotesAt(ns, w) == Notes(
      Note(1, P - 2, 0, 2, 0, 1, 3, 0, 1, 1, 0), Note(1, 0, 1, 2, P - 2, 0, 3, 0, 1, 1, 0),
      Note(1, P - 2, 0, 2, 0, 0, 3, 0, 0, 0, 1), Note(1, 0, 0, 2, P - 2, 0, 3, 0, 0, 0, 1),
      Note(1, P - 2, 0, 2, P - 2, 0, 0, 0, 0, 0, 0))
    ensures MatchAt(m, w) == Match(2, 1, 0, 0, 0) && FeeAt(fee, w) == Fee(3, 0, 0)
  {
    hide At;
  }

  /** The rounding bound is attained. */
  lemma TwoUnitsLost()
    ensures SideNet(0x5555_5555, 0x5555_5555, 2) == -2
  {
    hide F, NetFraction;
    NetFractionFits(0x5555_5555, 0x5555_5555);
    FSelf(0x5555_5556);
    FSelf(0xAAAA_AAAC);
    FSelf(0xAAAA_AAAA);
  }
}
