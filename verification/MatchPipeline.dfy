/** From a checked match, through its notes, to settlement: the circuits' statements together conserve value. */
module MatchPipeline {
  import opened Numbers
  import opened ResidueField
  import opened ScalarField
  import opened MpcBits
  import opened ConstraintSystems
  import opened ZkGadgets
  import opened WalletUpdate
  import opened Settle
  import opened MatchNotes
  import opened Conservation
  import MatchCheck
  import Engine = MatchEngine
  import Commitments
  import Solvency
  import StateCircuits
  import opened ValidCommitments

  /** The part of a match result that its notes depend on. */
  function MatchOf(r: Engine.MatchResult): Match {
    Match(r.quoteMint, r.baseMint, r.quoteAmount, r.baseAmount, r.direction)
  }

  /** A trade: what a party gives, gets and pays for gas. */
  datatype Trade = Trade(sold: Elem, soldAmount: Elem, bought: Elem, boughtAmount: Elem, gas: Elem, gasAmount: Elem)

  function TradeNet(t: Trade, mint: Elem): int {
    (if mint == t.bought then t.boughtAmount as int else 0) - (if mint == t.sold then t.soldAmount as int else 0)
    - (if mint == t.gas then t.gasAmount as int else 0)
  }

  ghost predicate Paid(t: Trade, balances: seq<Balance>) {
    forall mint: Elem :: BalanceOf(balances, mint) + TradeNet(t, mint) >= 0
  }

  /**
   Covering the sale and covering the gas, each on its own, covers the settlement exactly when they are not the same
   mint or the balance holds both.
   */
  lemma CoveredIff(t: Trade, balances: seq<Balance>)
    requires t.sold != t.bought
    requires BalanceOf(balances, t.sold) >= t.soldAmount && BalanceOf(balances, t.gas) >= t.gasAmount
    ensures Paid(t, balances) <==> (t.sold == t.gas ==> BalanceOf(balances, t.sold) >= t.soldAmount + t.gasAmount)
  {
    hide BalanceOf;
    if t.sold == t.gas && BalanceOf(balances, t.sold) < t.soldAmount + t.gasAmount {
      assert BalanceOf(balances, t.sold) + TradeNet(t, t.sold) < 0;
    }
  }

  /**
   Where the two separate covers do not cover both in one mint, every settlement of the trade creates value, and one
   that keeps the slot turns the shortfall into a balance of P less the shortfall.
   */
  lemma UncoveredTradeCreates(t: Trade, pre: Wallet, post: Wallet, n: Note)
    requires Settled(pre, post, n) && DirectionsAreBits(n) && NoteNet(n, t.sold) == TradeNet(t, t.sold)
    requires t.sold == t.gas && t.sold != t.bought && t.sold != 0
    requires t.soldAmount <= BalanceOf(pre.balances, t.sold) < t.soldAmount as int + t.gasAmount as int
    ensures BalanceOf(post.balances, t.sold) > BalanceOf(pre.balances, t.sold) + TradeNet(t, t.sold)
    ensures Solvency.HasSlot(post.balances, t.sold) ==>
      BalanceOf(post.balances, t.sold) == P - (t.soldAmount as int + t.gasAmount as int - BalanceOf(pre.balances, t.sold))
  {
    hide BalanceOf, Settled, NoteNet, Solvency.HasSlot;
    SettlementNet(pre, post, n, t.sold);
  }

  /** What the first party trades; the second party's trade swaps sold and bought. */
  function TradeOf(sells: bool, m: Match, fee: Fee, bought: Elem): Trade {
    if sells then Trade(m.baseMint, m.baseAmount, m.quoteMint, bought, fee.gasAddr, fee.gasAmount)
    else Trade(m.quoteMint, m.quoteAmount, m.baseMint, bought, fee.gasAddr, fee.gasAmount)
  }

  function Bought(sells: bool, n: Note): Elem {
    if sells then n.volume2 else n.volume1
  }

  /** The party notes are these trades, and the other three notes only credit. */
  lemma NotesAreTrades(ns: Notes, m: Match, fee0: Fee, fee1: Fee, protocolFee: Elem, r0: Elem, r1: Elem, mint: Elem)
    requires IsBit(m.direction) && NotesValid(ns, m, fee0, fee1, protocolFee, r0, r1)
    ensures var sells := m.direction == 1;
      && NoteNet(ns.party0, mint) == TradeNet(TradeOf(sells, m, fee0, Bought(sells, ns.party0)), mint)
      && NoteNet(ns.party1, mint) == TradeNet(TradeOf(!sells, m, fee1, Bought(!sells, ns.party1)), mint)
      && NoteNet(ns.relayer0, mint) >= 0 && NoteNet(ns.relayer1, mint) >= 0 && NoteNet(ns.protocol, mint) >= 0
  {
    hide Share, NetFraction, Sub, Add, Selected, VolumesMatch;
    OneMinusBit(m.direction);
    var selling := VolumesMatch(m, protocolFee, ns.party1, fee1.percentage, ns.relayer1, ns.party0, fee0.percentage, ns.relayer0);
    var buying := VolumesMatch(m, protocolFee, ns.party0, fee0.percentage, ns.relayer0, ns.party1, fee1.percentage, ns.relayer1);
    SelectedByBit(Bit(selling), Bit(buying), m.direction);
    if m.direction == 1 {
      SoldVolumes(m, protocolFee, ns.party1, fee1.percentage, ns.relayer1, ns.party0, fee0.percentage, ns.relayer0);
    } else {
      SoldVolumes(m, protocolFee, ns.party0, fee0.percentage, ns.relayer0, ns.party1, fee1.percentage, ns.relayer1);
    }
  }

  lemma SoldVolumes(m: Match, protocolFee: Elem,
      buyer: Note, buyerFee: Elem, buyerRelayer: Note, seller: Note, sellerFee: Elem, sellerRelayer: Note)
    requires VolumesMatch(m, protocolFee, buyer, buyerFee, buyerRelayer, seller, sellerFee, sellerRelayer)
    ensures buyer.volume2 == m.quoteAmount && seller.volume1 == m.baseAmount
  {
    hide Share, NetFraction;
  }

  // ---- what the commitments say of the wallets -----------------------------------------

  lemma {:induction false} BalanceAtLeast(bs: seq<Balance>, k: nat)
    requires k < |bs|
    ensures BalanceOf(bs, bs[k].mint) >= bs[k].amount
  {
    var n := |bs| - 1;
    if k < n {
      BalanceAtLeast(bs[..n], k);
    }
  }

  /** The statement of VALID COMMITMENTS about a party's balance, order and fee. */
  ghost predicate Committed(c: CommitmentsWires, w: Assignment, balances: seq<Balance>) {
    && AllContained(c, w) && MintsAgree(c, w) && FeeCovered(c, w)
    && balances == BalancesAt(c.state.wallet.balances, w)
  }

  function EngineOrder(o: Order): Engine.Order {
    Engine.Order(o.quoteMint, o.baseMint, o.side, o.price, o.amount)
  }

  function FeeOf(f: Commitments.WalletFee): Fee {
    Fee(f.gasAddr, f.gasAmount, f.percentage)
  }

  /** The amount does not wrap past the balance it is checked against; amounts up to P - 2^64 never do. */
  ghost predicate Unwrapped(amount: Elem, balance: Elem) {
    amount + Pow2(64) <= balance + P
  }

  /**
   A wallet opened by VALID COMMITMENTS holds the balance it was opened with. It holds its gas if the gas amount does
   not wrap past the fee balance, and with one slot per mint only then.
   */
  lemma CommittedHolds(c: CommitmentsWires, w: Assignment, balances: seq<Balance>)
    requires Committed(c, w, balances)
    ensures BalanceOf(balances, At(w, c.balance.mint)) >= At(w, c.balance.amount)
    ensures Unwrapped(At(w, c.fee.gasAmount), At(w, c.feeBalance.amount)) ==>
      BalanceOf(balances, At(w, c.fee.gasAddr)) >= At(w, c.fee.gasAmount)
    ensures UniqueMints(balances) && At(w, c.fee.gasAddr) != 0 ==>
      (BalanceOf(balances, At(w, c.fee.gasAddr)) >= At(w, c.fee.gasAmount) <==>
       Unwrapped(At(w, c.fee.gasAmount), At(w, c.feeBalance.amount)))
    ensures exists i: nat :: OnlyAt(BalanceAt(c.balance, w), balances, i)
  {
    hide BalanceOf, At, AllContained, FeeCovered, Selected, Pow2, BalancesAt, OrdersAt;
    CommitmentsMean(c, w);
    var i: nat :| OnlyAt(BalanceAt(c.balance, w), balances, i);
    BalanceAtLeast(balances, i);
    var k: nat :| OnlyAt(BalanceAt(c.feeBalance, w), balances, k);
    BalanceAtLeast(balances, k);
    PowerBelowModulus(64);
    if UniqueMints(balances) && At(w, c.fee.gasAddr) != 0 {
      Solvency.OneSlot(balances, k);
    }
  }

  /** The party's wallet holds what it sells and its gas, together if they share a mint. */
  ghost predicate CanSettle(t: Trade, balances: seq<Balance>) {
    && BalanceOf(balances, t.sold) >= t.soldAmount && BalanceOf(balances, t.gas) >= t.gasAmount
    && (t.sold == t.gas ==> BalanceOf(balances, t.sold) >= t.soldAmount + t.gasAmount)
  }

  /** Whether or not it buys the mint that it sells. */
  lemma CanSettlePays(t: Trade, balances: seq<Balance>)
    requires CanSettle(t, balances)
    ensures Paid(t, balances)
  {
    hide BalanceOf;
  }

  lemma AllSettlementsCovered(ns: Notes, m: Match, fee0: Fee, fee1: Fee, protocolFee: Elem, r0: Elem, r1: Elem,
      targets: seq<nat>, ledgers: seq<seq<Wallet>>, mint: Elem)
    requires IsBit(m.direction) && NotesValid(ns, m, fee0, fee1, protocolFee, r0, r1)
    requires |targets| == 5 && targets[0] != targets[1] && LedgerRun(ledgers, Settlements(ns, targets))
    requires targets[0] < |ledgers[0]| && targets[1] < |ledgers[0]|
    requires var sells := m.direction == 1;
      && CanSettle(TradeOf(sells, m, fee0, Bought(sells, ns.party0)), ledgers[0][targets[0]].balances)
      && CanSettle(TradeOf(!sells, m, fee1, Bought(!sells, ns.party1)), ledgers[0][targets[1]].balances)
    ensures AllCovered(ledgers, Settlements(ns, targets), mint)
  {
    hide NotesValid, Applied, NoteNet, BalanceOf, TradeNet, Bought;
    var steps, sells := Settlements(ns, targets), m.direction == 1;
    NotesAreTrades(ns, m, fee0, fee1, protocolFee, r0, r1, mint);
    var t0, t1 := TradeOf(sells, m, fee0, Bought(sells, ns.party0)), TradeOf(!sells, m, fee1, Bought(!sells, ns.party1));
    CanSettlePays(t0, ledgers[0][targets[0]].balances);
    CanSettlePays(t1, ledgers[0][targets[1]].balances);
    assert LedgerStep(ledgers[0], ledgers[1], steps[0]);
    assert ledgers[1][targets[1]] == ledgers[0][targets[1]];
    forall k | 0 <= k < |steps| ensures Covers(ledgers[k][steps[k].target], steps[k].action, mint) {
      assert k == 0 || k == 1 || k == 2 || k == 3 || k == 4;
    }
  }

  /** The amount that a party gives. */
  function Sold(r: Engine.MatchResult, sells: bool): Elem {
    if sells then r.baseAmount else r.quoteAmount
  }

  /** If sale and gas share a mint, the committed balance holds both. */
  ghost predicate SameMintSum(c: CommitmentsWires, w: Assignment, sold: Elem) {
    At(w, c.balance.mint) == At(w, c.fee.gasAddr) ==>
      At(w, c.balance.amount) as int >= sold as int + At(w, c.fee.gasAmount) as int
  }

  /** What no circuit states of a party: neither sold amount nor gas wraps, and a shared mint holds both. */
  ghost predicate Payable(c: CommitmentsWires, w: Assignment, sold: Elem) {
    && Unwrapped(sold, At(w, c.balance.amount)) && Unwrapped(At(w, c.fee.gasAmount), At(w, c.feeBalance.amount))
    && SameMintSum(c, w, sold)
  }

  /** A committed party of a checked match can settle its side if, and with one slot per mint only if, it is Payable. */
  lemma CommittedCanSettleIff(c: CommitmentsWires, w: Assignment, balances: seq<Balance>, t: Trade)
    requires Committed(c, w, balances)
    requires t.sold == At(w, c.balance.mint) && MatchCheck.Within(At(w, c.balance.amount), t.soldAmount, 64)
    requires t.gas == At(w, c.fee.gasAddr) && t.gasAmount == At(w, c.fee.gasAmount)
    ensures Payable(c, w, t.soldAmount) ==> CanSettle(t, balances)
    ensures UniqueMints(balances) && t.sold != 0 && t.gas != 0 && CanSettle(t, balances) ==> Payable(c, w, t.soldAmount)
  {
    hide BalanceOf, At, AllContained, FeeCovered, Selected, Pow2, BalancesAt, OrdersAt;
    CommittedHolds(c, w, balances);
    PowerBelowModulus(64);
    var i: nat :| OnlyAt(BalanceAt(c.balance, w), balances, i);
    if UniqueMints(balances) && t.sold != 0 {
      Solvency.OneSlot(balances, i);
    }
  }

  /** The balances that VALID COMMITMENTS opens are those that the crossing check asks for, by pair and sides alone. */
  lemma CommittedMintsAgree(c0: CommitmentsWires, w0: Assignment, c1: CommitmentsWires, w1: Assignment, r: Engine.MatchResult)
    requires MintsAgree(c0, w0) && MintsAgree(c1, w1) && IsBit(r.direction)
    requires MatchCheck.PairChecked(EngineOrder(OrderAt(c0.order, w0)), EngineOrder(OrderAt(c1.order, w1)), r)
    ensures At(w0, c0.balance.mint) == Selected(r.baseMint, r.quoteMint, r.direction)
    ensures At(w1, c1.balance.mint) == Selected(r.quoteMint, r.baseMint, r.direction)
    ensures At(w0, c0.balance.mint) == if r.direction == 1 then r.baseMint else r.quoteMint
    ensures At(w1, c1.balance.mint) == if r.direction == 1 then r.quoteMint else r.baseMint
  {
    hide At, Add, Selected;
    MatchCheck.SidesSum(At(w0, c0.order.side), At(w1, c1.order.side));
    SelectedByBit(r.baseMint, r.quoteMint, r.direction);
    SelectedByBit(r.quoteMint, r.baseMint, r.direction);
    SelectedByBit(r.baseMint, r.quoteMint, At(w1, c1.order.side));
  }

  /** What the crossing check says of the two sides, for every result with a binary direction. */
  lemma CheckedSides(o1: Engine.Order, o2: Engine.Order, b1: Balance, b2: Balance, r: Engine.MatchResult)
    requires MatchCheck.Checked(o1, o2, b1, b2, r) && IsBit(r.direction)
    ensures var sells := r.direction == 1;
      && b1.mint == (if sells then r.baseMint else r.quoteMint) && b2.mint == (if sells then r.quoteMint else r.baseMint)
      && MatchCheck.Within(b1.amount, Sold(r, sells), 64) && MatchCheck.Within(b2.amount, Sold(r, !sells), 64)
  {
    hide MatchCheck.Checked, MatchCheck.Within, Selected, F, Add, Sub, Pow2, Engine.HalfMod;
    MatchCheck.CheckedIff(o1, o2, b1, b2, r);
    SelectedByBit(r.baseMint, r.quoteMint, r.direction);
    SelectedByBit(r.quoteMint, r.baseMint, r.direction);
    SelectedByBit(r.baseAmount, r.quoteAmount, r.direction);
    SelectedByBit(r.quoteAmount, r.baseAmount, r.direction);
  }

  /** VALID COMMITMENTS accepts gas of P - 5 against a fee balance of zero. */
  lemma GasWraps() returns (c: CommitmentsWires, w: Assignment, balances: seq<Balance>)
    ensures Committed(c, w, balances) && UniqueMints(balances)
    ensures At(w, c.fee.gasAddr) == 3 && At(w, c.fee.gasAmount) == P - 5 && BalanceOf(balances, 3) == 0
  {
    hide Selected, Pow2;
    w := [1, 7, 3, 0, 2, P - 5];
    var sold, gas := BalanceVar(0, 1), BalanceVar(2, 3);
    var order, fee := OrderVar(4, 0, 0, 1, 1, 3), Commitments.WalletFeeVar(3, 2, 5, 3);
    var wallet := WalletVar([sold, gas], [order], KeyVars(3, 3, 3, 3), 3);
    c := CommitmentsWires(StateCircuits.StateVar(wallet, [fee]), StateCircuits.OpeningVar([], []), sold, gas, order, fee, 3, 3, 3, 3, 3);
    balances := BalancesAt(wallet.balances, w);
    assert balances == [Balance(1, 7), Balance(3, 0)];
    OneOfTwo(Balance(1, 7), Balance(3, 0));
    OneOfOne(OrderAt(order, w));
    OneOfOne(WalletFeeAt(fee, w));
    assert OrdersAt(wallet.orders, w) == [OrderAt(order, w)] && Commitments.FeesAt([fee], w) == [WalletFeeAt(fee, w)];
    SelectedByBit(1, 2, 1);
    Pow2Literals();
    MatchCheck.SubWithinIff(0, P - 5, 64);
    Solvency.OneSlot(balances, 1);
  }

  lemma OneOfOne<T>(x: T)
    ensures Matches(x, [x]) == 1
  {
    assert [x][..0] == [];
  }

  lemma OneOfTwo<T>(x: T, y: T)
    requires x != y
    ensures Matches(x, [x, y]) == 1 && Matches(y, [x, y]) == 1
  {
    assert [x, y][..1] == [x] && [x][..0] == [];
  }

  /** Both parties trade P - 5 units at price one, without fees. */
  function WrappedNotes(): Notes {
    var a: Elem := P - 5;
    var s := Share(NetFraction(0, 0), a);
    Notes(
      Note(1, a, 1, 2, s, 0, 3, 0, 1, 1, 0), Note(1, s, 0, 2, a, 1, 3, 0, 1, 1, 0),
      Note(1, 0, 0, 2, 0, 0, 3, 0, 0, 0, 1), Note(1, 0, 0, 2, 0, 0, 3, 0, 0, 0, 1),
      Note(1, 0, 0, 2, 0, 0, 0, 0, 0, 0, 0))
  }

  /** The constraints accept these notes of that match with the prover's own quotients, and the fees fit. */
  lemma WrappedNotesAccepted()
    ensures var m, fee := Match(2, 1, P - 5, P - 5, 1), Fee(3, 0, 0);
      && NotesAccepted(WrappedNotes(), m, fee, fee, 0, 0, 0, FloorClaims(m, fee, fee, 0), true)
      && FeesFitMatch(m, fee, fee, 0)
  {
    hide NotesAccepted, NotesValid, FeesFitMatch, WrappedNotes, FloorClaims;
    var m, fee := Match(2, 1, P - 5, P - 5, 1), Fee(3, 0, 0);
    WrappedIsNoted();
    HonestNotesIff(WrappedNotes(), m, fee, fee, 0, 0, 0);
  }

  /** The crossing check accepts P - 5 units from balances of zero. */
  lemma WrappedAmountChecked()
    ensures MatchCheck.Checked(Engine.Order(2, 1, 1, 0x1_0000_0000, P - 5), Engine.Order(2, 1, 0, 0x1_0000_0000, P - 5),
      Balance(1, 0), Balance(2, 0), Engine.MatchResult(2, 1, P - 5, P - 5, 1, 0x1_0000_0000, 0, 0))
  {
    hide Selected, F, Add, Sub, Mul, MatchCheck.Checked, Pow2;
    var a: Elem := P - 5;
    MatchCheck.CheckedIff(Engine.Order(2, 1, 1, 0x1_0000_0000, a), Engine.Order(2, 1, 0, 0x1_0000_0000, a),
      Balance(1, 0), Balance(2, 0), Engine.MatchResult(2, 1, a, a, 1, 0x1_0000_0000, 0, 0));
    SelectedByBit(0x1_0000_0000, 0x1_0000_0000, 1);
    SelectedByBit(1, 2, 1);
    SelectedByBit(2, 1, 1);
    SelectedByBit(a, a, 1);
    Pow2Literals();
    FSelf(0x1_0000_0000);
    FSelf(0x2_0000_0000);
    FAdd(0x1_0000_0000, 0x1_0000_0000);
    MatchCheck.SubIsDifference(a, a);
    MulCommutes(a, 0x2_0000_0000);
  }

  lemma WrappedIsNoted()
    ensures var m, fee := Match(2, 1, P - 5, P - 5, 1), Fee(3, 0, 0);
      NotesValid(WrappedNotes(), m, fee, fee, 0, 0, 0) && FeesFitMatch(m, fee, fee, 0)
  {
    hide Selected, F, Add, Sub, Mul, NetFraction;
    var a: Elem := P - 5;
    MulOne(a);
    OneMinusBit(1);
    FSelf(0);
    FSelf(1);
    FAdd(0, 1);
    FAdd(0, 0);
    SelectedByBit(1, 0, 1);
    SelectedByBit(1, 1, 1);
    assert UNIT as int * a as int >= P;
  }

  /** Settling the seller's note then turns a balance of zero into one of five. */
  lemma WrappedAmountCreates(keys: Keys)
    ensures Settled(Wallet([Balance(1, 0)], [], keys, 0), Wallet([Balance(1, 5)], [], keys, 2), WrappedNotes().party0)
    ensures BalanceOf([Balance(1, 0)], 1) == 0 && BalanceOf([Balance(1, 5)], 1) == 5
  {
    hide F, Add, Share, NetFraction;
    var n := WrappedNotes().party0;
    FSelf(0);
    FSelf(2);
    FAdd(0, 2);
    Solvency.OneSlot([Balance(1, 0)], 0);
    Solvency.OneSlot([Balance(1, 5)], 0);
    SettledIsReduced([Balance(1, 0)], 1, n);
    assert NoteNet(n, 1) == 5 - P;
    FCongruent(5 - P, 5, -1);
    FSelf(5);
  }

  /**
   From the statements of the circuits to conservation. Two wallets opened by VALID COMMITMENTS, a match that passed
   the crossing check on their orders and balances, and accepted notes: settling the notes creates no mint, and with
   exact fees and slots kept at most two units of base and two of quote are lost. Prices, order amounts and balances
   are arbitrary. What no circuit states is a binary direction, two different wallets, exact claims, fees that fit and
   Payable of both parties.
   */
  lemma CommittedMatchConserves(c0: CommitmentsWires, w0: Assignment, c1: CommitmentsWires, w1: Assignment,
      r: Engine.MatchResult, ns: Notes, claims: NoteClaims, protocolFee: Elem, r0: Elem, r1: Elem,
      targets: seq<nat>, ledgers: seq<seq<Wallet>>, mint: Elem)
    requires |targets| == 5 && targets[0] != targets[1] && LedgerRun(ledgers, Settlements(ns, targets)) && mint != 0
    requires targets[0] < |ledgers[0]| && targets[1] < |ledgers[0]|
    requires Committed(c0, w0, ledgers[0][targets[0]].balances) && Committed(c1, w1, ledgers[0][targets[1]].balances)
    requires MatchCheck.Checked(EngineOrder(OrderAt(c0.order, w0)), EngineOrder(OrderAt(c1.order, w1)),
      BalanceAt(c0.balance, w0), BalanceAt(c1.balance, w1), r)
    requires IsBit(r.direction)
    requires var fee0, fee1 := FeeOf(WalletFeeAt(c0.fee, w0)), FeeOf(WalletFeeAt(c1.fee, w1));
      && NotesAccepted(ns, MatchOf(r), fee0, fee1, protocolFee, r0, r1, claims, false) && ClaimsExact(claims, r.direction)
      && FeesFitMatch(MatchOf(r), fee0, fee1, protocolFee)
    requires Payable(c0, w0, Sold(r, r.direction == 1)) && Payable(c1, w1, Sold(r, r.direction != 1))
    ensures TotalHeld(ledgers[5], mint) <= TotalHeld(ledgers[0], mint)
    ensures var fee0, fee1 := FeeOf(WalletFeeAt(c0.fee, w0)), FeeOf(WalletFeeAt(c1.fee, w1));
      AllKept(ledgers, Settlements(ns, targets), mint) && FeesExactMatch(MatchOf(r), fee0, fee1, protocolFee) ==>
      TotalHeld(ledgers[5], mint) >= TotalHeld(ledgers[0], mint)
        - (if mint == r.baseMint then 2 else 0) - (if mint == r.quoteMint then 2 else 0)
  {
    hide NotesValid, NotesAccepted, ClaimsExact, MatchCheck.Checked, MatchCheck.Within, Applied, NoteNet, BalanceOf, TotalHeld,
      LedgerStep, Covers, Solvency.HasSlot, Pow2, Committed, At, CanSettle, Payable, FeesFitMatch, FeesExactMatch;
    var m, fee0, fee1 := MatchOf(r), FeeOf(WalletFeeAt(c0.fee, w0)), FeeOf(WalletFeeAt(c1.fee, w1));
    CheckedSides(EngineOrder(OrderAt(c0.order, w0)), EngineOrder(OrderAt(c1.order, w1)),
      BalanceAt(c0.balance, w0), BalanceAt(c1.balance, w1), r);
    AcceptedNotesIff(ns, m, fee0, fee1, protocolFee, r0, r1, claims);
    var sells := r.direction == 1;
    CommittedCanSettleIff(c0, w0, ledgers[0][targets[0]].balances, TradeOf(sells, m, fee0, Bought(sells, ns.party0)));
    CommittedCanSettleIff(c1, w1, ledgers[0][targets[1]].balances, TradeOf(!sells, m, fee1, Bought(!sells, ns.party1)));
    AllSettlementsCovered(ns, m, fee0, fee1, protocolFee, r0, r1, targets, ledgers, mint);
    MatchConserves(ns, m, fee0, fee1, protocolFee, r0, r1, targets, ledgers, mint);
  }
}
