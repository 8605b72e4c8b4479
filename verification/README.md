# A verified model of the Renegade dark-pool core

Renegade matches private orders in a two-party computation and moves wallets by zero-knowledge proofs. This
project models the arithmetic and the state transitions of that core in Dafny and proves what they compute, on
all inputs, in four layers.

1. **Integer arithmetic under blinding.** The gadgets of `circuits/src/mpc_gadgets` work on shares in a prime
   field. A share is modelled by its plaintext and the preprocessing randomness is an explicit argument, so "the
   answer does not depend on the blinding" is a theorem. The centre is one exact condition: an opening is harmless
   if and only if its wrap count around the modulus is a multiple of 2^m. The matching engine is then proved equal to
   a plain integer matcher, field by field.
2. **Circuits.** `ConstraintSystem` is the mutable constraint system of the proof library: gadgets append wires
   and constraints. Every gadget contract has two halves. *Soundness*: what each satisfying assignment means.
   *Completeness*: the prover's own assignment satisfies the constraints exactly when the meaning holds. The circuits
   of wallet update, settlement, match notes, order crossing and commitments are built from these gadgets.
3. **Consequences.** Solvency over every run of updates and settlements, conservation from commitments through match
   and notes to settlement, nullifiers that never repeat along a chain, openings that bind to the state tree.
4. **The bus.** A reference-counted topic mesh whose readers behave as one plain queue each.

The modulus of the scalar field is a constant `P` (`M` in `ResidueField`), known only to be a prime between 2^252
and 2^253; every theorem holds for each such modulus. That the modulus of `crypto/src/fields.rs` is one is itself
proved (`RistrettoCertificate`).

| file | contents |
|---|---|
| `Numbers`, `Primality`, `RistrettoCertificate`, `ResidueField`, `ScalarField` | powers of two, division, primality by element order, the field |
| `MpcBits`, `MpcModulo`, `MpcArithmetic`, `MpcComparators` | the MPC gadgets |
| `MatchEngine`, `ExactTapes`, `MatchOutcome` | the matching engine, the plain matcher, existence of exact randomness, the engine against the crossing check |
| `ConstraintSystem`, `ZkGadgets`, `ZkExponent`, `ZkPoseidon`, `ZkMerkle` | constraint systems and gadgets |
| `PoseidonSponge`, `Fermat`, `PoseidonPermutation` | the native sponge, the block sponge, inverse powers, the inverse permutation |
| `WalletUpdate`, `Settle`, `MatchNotes`, `MatchCheck`, `Commitments`, `StateCircuits`, `ValidCommitments` | the circuits |
| `Solvency`, `Conservation`, `OrderHistory`, `MatchPipeline`, `Nullifiers` | theorems across circuits and over runs |
| `SystemBus` | the pub/sub bus |

## Reading the contracts

- `Satisfies(constraints, w)`: the assignment `w` satisfies the constraints. `Honest(hints, w)`: every allocated
  wire carries the value that the prover's code assigns, except quotients and remainders, which stay free.
  `Plausible(unchecked, w)`: the bit wires that the source allocates without constraining them are binary.
  Where a soundness clause needs `Plausible`, the constraints alone do not give it. `HonestAssignment` shows that the
  prover's assignment exists for all inputs and chosen quotients, so the completeness clauses are never empty.
- `NotesAccepted(..., claims, tested)`: what the constraints say of the notes; a claim is a chosen quotient and
  remainder, and `tested` adds the remainder test with the prover's bits. `NotesValid`: the notes carry the floors.
- `trace`, `Live`, `Waiting`: the subscriptions, pending polls, publications and drops that a bus has seen, and the
  readers and waiting tasks they leave. The bus invariant ties its wakers to them at every step.
- `KeepsLowBits(t, m)`: reducing the integer `t` modulo `P` leaves its `m` low bits alone. `EqTapeExact`,
  `CmpTapeExact` and `MatchTapeExact` say this of all openings of a gadget, and that the inverse pairs cancel.

## Where the code differs from its comments

The model follows the code; each point is a theorem below.

- `prefix_product_impl` cancels with `b_k` where the telescoped product ends in `b_(k+1)^-1`.
- `pow(a, 0)` is zero.
- `price_overlap` is strict when order 1 buys, so equal prices cross in one order of the parties only.
- `eq::<64>` compares mints modulo 2^64; the circuit check compares them entirely.
- The execution price is the sum of the prices times the field inverse of two. It is the midpoint if and only if the
  sum is even; an odd sum gives a value above 2^251. The quote amount is the floor if and only if amount times price
  sum is even, and the circuit accepts it only if 2^33 divides that product.
- `less_than_zero` ignores its width parameter: it tests bits 250 and 251.
- The hash gadget's `squeeze` does not advance its index, so every squeeze returns the first output; the native
  sponge advances.
- A settlement has no range check. Sale and gas are checked against the balance separately, which covers both in one
  mint only if the balance holds their sum; otherwise every accepted settlement wraps the balance upwards
  (`SettlementNet`, `UncoveredSettlementCreates`, `UncoveredTradeCreates`).
- A settlement takes the volume of the note off the order. For the buyer that is the amount after fees, so a fully
  matched buy order is not emptied unless no fee was charged (`BuyerOrderFilled`); a sell order is (`SellerOrderFilled`).
- Wallet commitments leave out order timestamps, so no circuit ties an update to the timestamps that the last one set
  (`TimestampsAreFree`); the rule is kept over runs that do carry them (`TimestampIsLastChange`).
- The greater-or-equal gadget compares around the modulus, and no circuit bounds gas, order amounts, prices or sides.
  VALID COMMITMENTS therefore accepts gas of P - 5 against a fee balance of zero (`GasWraps`), and the crossing check
  a trade of P - 5 units between empty balances, whose settlement creates value (`WrappedAmountChecked`,
  `WrappedAmountCreates`). The test means what it says exactly for amounts up to P - 2^64 (`CoverBoundExact`); what it
  means otherwise is `CheckedIff`, `CommitmentsMean` and `CommittedCanSettleIff`. All of these speak of binary bit wires.
- The range gadget never constrains its bit wires to be binary, so its constraint accepts every field element
  (`RangeAcceptsAll`). The 64-bit bounds of the solvency results hold for binary wires.
- The division gadget does not force the floor: 0 / 2^32 is accepted with quotient P - 2 and remainder 2^33
  (`AcceptWrongQuotient`). The quotient is the floor if and only if r < b and b q + r does not wrap (`QuotientIff`).
  Without that condition on the ten shares the five notes of a match can create value (`WrongSharesCreate`); with it
  they are the notes of the match (`AcceptedNotesIff`).

## Model

| member | source | states |
|---|---|---|
| `RistrettoCertificate.PrimeRistretto` | crypto/src/fields.rs:15 | the modulus literal of the scalar field is prime (an order certificate checked step by step, nothing assumed) |
| `MpcBits.Scalar2ToMIsPower` | circuits/src/lib.rs:94-101 | below 253 bits the scalar is 2^m, exactly and without reduction |
| `MpcBits.Scalar2ToMExact` | circuits/src/lib.rs:94-104 | the scalar stands for 2^m in the field if and only if m is below 253; from there on it is zero, which no power of two is |
| `MpcBits.ScalarFromBitsLe` | circuits/src/mpc_gadgets/bits.rs:24-39 | the loop computes the little-endian value of any vector, reduced to the field |
| `MpcBits.RippleAddValue` | circuits/src/mpc_gadgets/bits.rs:105-127 | value(sum) + 2^n carry = value(a) + value(b) + carry in, all outputs bits, by induction over the vectors |
| `MpcBits.BitAddImpl` | circuits/src/mpc_gadgets/bits.rs:105-127 | the loop refines the recursive adder and so adds integers |
| `MpcBits.BitLtIsLess` | circuits/src/mpc_gadgets/bits.rs:212-227 | the borrow of the inverted addition is strict integer less-than, empty vectors included |
| `MpcBits.LowBitsKeptIff` | circuits/src/mpc_gadgets/bits.rs:144-199 | unblinding modulo 2^m is exact if and only if the wrap count of the opened integer is a multiple of 2^m (the modulus is odd) |
| `MpcBits.NoWrapKeepsLowBits` | circuits/src/mpc_gadgets/bits.rs:144-199 | an opening that does not wrap satisfies that condition |
| `MpcBits.ToBitsLeExact` | circuits/src/mpc_gadgets/bits.rs:161-199 | for every signed input and every blinding the result is a bit vector of known value, and it is the two's complement of the input if and only if the opening keeps its low bits |
| `MpcBits.ToBitsLePublic` | circuits/src/mpc_gadgets/bits.rs:154-159 | a public input yields all 256 bits whatever D is |
| `MpcModulo.Mod2mExact` | circuits/src/mpc_gadgets/modulo.rs:23-69 | for every signed input and blinding the result is (x - wraps P) mod 2^m, which is x mod 2^m if and only if the opening keeps its low bits |
| `MpcModulo.Mod2mWide` | circuits/src/mpc_gadgets/modulo.rs:23-69 | from 253 bits on the input is returned unchanged |
| `MpcModulo.TruncateExact` | circuits/src/mpc_gadgets/modulo.rs:72-85 | truncation is the floor of the signed quotient if and only if the opening keeps its low bits |
| `MpcArithmetic.Telescopes` | circuits/src/mpc_gadgets/arithmetic.rs:54-80 | the accumulator after k opened values is b_0 a_0 ... a_(k-1) b_k^-1 |
| `MpcArithmetic.PrefixProductExact` | circuits/src/mpc_gadgets/arithmetic.rs:78-103 | the k-th result is the prefix product times b_k b_(k+1)^-1 |
| `MpcArithmetic.PrefixProductIff` | circuits/src/mpc_gadgets/arithmetic.rs:78-103 | it is the prefix product if and only if b_k = b_(k+1) or the product is zero |
| `MpcArithmetic.PrefixProductImpl` | circuits/src/mpc_gadgets/arithmetic.rs:42-103 | the loops select these values for every list of prefix indices |
| `MpcArithmetic.PowIsExp` | circuits/src/mpc_gadgets/arithmetic.rs:106-122 | recursive squaring is x^n if and only if n is not 0 |
| `MpcArithmetic.ScalarExpIsExp` | circuits/src/mpc_gadgets/poseidon.rs:30-46 | recursive squaring is x^a for every a |
| `MpcComparators.MonomialsVanish` | circuits/src/mpc_gadgets/comparators.rs:183-202 | the product of (i - s)/i for i = 1..n is 1 at s = 0 and 0 at s = 1..n |
| `MpcComparators.ConstantRoundOrExact` | circuits/src/mpc_gadgets/comparators.rs:183-202 | the exact value, residue of the inverse pairs included |
| `MpcComparators.KaryOrExact` | circuits/src/mpc_gadgets/comparators.rs:137-173 | the exact value for every blinding and every inverse pairs |
| `MpcComparators.KaryOrIsOr` | circuits/src/mpc_gadgets/comparators.rs:137-173 | OR of any non-empty bit list when the opening keeps its bits and the last pair cancels |
| `MpcComparators.KaryOrIff` | circuits/src/mpc_gadgets/comparators.rs:137-173 | for every blinding and all valid pairs: the OR if and only if the opened count is zero for no ones only, and the last pair cancels when there are none |
| `MpcComparators.EqZeroDecides` | circuits/src/mpc_gadgets/comparators.rs:44-50 | decides x = 0 modulo 2^D for a shared input |
| `MpcComparators.EqZeroIff` | circuits/src/mpc_gadgets/comparators.rs:44-50 | for every randomness: the test decides x = 0 modulo 2^D if and only if the opened count of the recovered bits is zero exactly then, and the last pair cancels at zero |
| `MpcComparators.EqZeroPublicDecides` | circuits/src/mpc_gadgets/comparators.rs:44-50 | decides x = 0 entirely for a public input, whatever D is |
| `MpcComparators.EqDecides` | circuits/src/mpc_gadgets/comparators.rs:55-72 | eq and ne decide equality modulo 2^D |
| `MpcComparators.LessThanZeroExact` | circuits/src/mpc_gadgets/comparators.rs:21-39 | the test reads two bits of the floor quotient by 2^250 |
| `MpcComparators.LessThanZeroDecides` | circuits/src/mpc_gadgets/comparators.rs:21-39 | the sign is right on [-3 2^250, 2^250) |
| `MpcComparators.LessThanZeroIff` | circuits/src/mpc_gadgets/comparators.rs:21-39 | among all signed readings of a field element, the sign is right there and nowhere else |
| `MpcComparators.OrderDecides` | circuits/src/mpc_gadgets/comparators.rs:77-128 | the four order tests give the integer answers, negative differences included |
| `MpcComparators.MinDecides` | circuits/src/mpc_gadgets/comparators.rs:212-225 | min and argmin, ties to the second |
| `MpcComparators.CondSelectVec` | circuits/src/mpc_gadgets/comparators.rs:240-274 | the batched loop returns a for selector 1 and b for selector 0 |
| `MatchEngine.ComputeMatchIsPlainMatch` | circuits/src/mpc_circuits/match.rs:25-112 | for all orders in range and all exact randomness, every field of the result equals the plain integer matcher |
| `MatchOutcome.NoMatchIsZero` | circuits/src/mpc_circuits/match.rs:31-96 | orders whose base or quote mints differ modulo 2^64, on one side, or whose prices do not cross as coded give eight zeros |
| `MatchOutcome.MatchIsMinimum` | circuits/src/mpc_circuits/match.rs:25-96 | all other orders in range trade the smaller amount of their pair, with its index and difference, at half the price sum; price and quote are exact integers when the sum and the product are even |
| `MatchOutcome.CheckedIsMatched` | circuits/src/mpc_circuits/match.rs:25-96 | if any result passes the crossing check for two orders of different prices, the engine matches them |
| `MatchOutcome.MatchedIsCrossed` | circuits/src/mpc_circuits/match.rs:25-96 | a match of orders with 64-bit mints is on one pair, between opposite sides, at crossing prices |
| `MatchEngine.ExecutionPriceIsHalf` | circuits/src/mpc_circuits/match.rs:54-56 | the price is the field half of the sum |
| `MatchEngine.OverlapDecides` | circuits/src/mpc_circuits/match.rs:99-112 | prices cross when order 1 sells and p1 <= p2, or buys and p1 > p2 |
| `ExactTapes.ExactMatchTape` | circuits/src/mpc_circuits/match.rs:25-96 | randomness that makes every gadget of a match exact exists for all orders |
| `ExactTapes.ExactBitsBlind` | circuits/src/mpc_gadgets/bits.rs:161-199 | an exact blinding exists for every input |
| `ExactTapes.ExactModBlind` | circuits/src/mpc_gadgets/modulo.rs:34-69 | an exact blinding exists for every input |
| `MatchCheck.MidpointWithinLimits` | circuits/src/mpc_circuits/match.rs:54-56 | the execution price lies between sell and buy limit if and only if the price sum is even; otherwise it exceeds 2^251 |
| `MatchCheck.QuoteFloorIff` | circuits/src/mpc_circuits/match.rs:58-61 | the quote is the floor of amount times midpoint if and only if amount times price sum is even |
| `MatchCheck.CrossesSymmetry` | circuits/src/mpc_circuits/match.rs:99-112 | the crossing test is symmetric in the orders except at equal prices, where order 1 must sell |
| `ZkGadgets.EqZero` | circuits/src/zk_gadgets/comparators.rs:36-68 | in every satisfying assignment the output is 1 if the input is zero and 0 otherwise |
| `ZkGadgets.EqVec` | circuits/src/zk_gadgets/comparators.rs:144-164 | the output decides equality of vectors of any length below P |
| `ZkGadgets.ConstrainEqVec` | circuits/src/zk_gadgets/comparators.rs:169-181 | accepted if and only if the vectors are equal |
| `ZkGadgets.NotEqual` | circuits/src/zk_gadgets/comparators.rs:190-198 | the complement of equality |
| `ZkGadgets.Or` | circuits/src/zk_gadgets/gates.rs:21-33 | the output is one if and only if an input is one, for arbitrary field inputs |
| `ZkGadgets.Select` | circuits/src/zk_gadgets/select.rs:29-39 | the mux polynomial of its inputs |
| `ZkGadgets.SelectVec` | circuits/src/zk_gadgets/select.rs:162-181 | the mux polynomial position by position |
| `MpcBits.SelectedByBit` | circuits/src/zk_gadgets/select.rs:29-39 | a if the selector is 1, b if it is 0 |
| `ZkGadgets.ConstrainRange` | circuits/src/zk_gadgets/comparators.rs:216-260 | satisfied if and only if the bit wires recompose to the value; with binary wires only below 2^D, with the prover's own wires exactly below 2^D |
| `ZkGadgets.RangeAcceptsAll` | circuits/src/zk_gadgets/comparators.rs:242-259 | wires that are not binary recompose to every field element at every positive width, so the range check alone bounds nothing |
| `ZkGadgets.GreaterThanEqZero` | circuits/src/zk_gadgets/comparators.rs:205-214 | the output is a bit that is one if and only if the bit wires recompose to the value; with the prover's wires exactly below 2^D |
| `ZkGadgets.CheckDivision` | circuits/src/zk_gadgets/arithmetic.rs:70-75 | the constraints on any quotient and remainder wires: a = b q + r in the field, and bits that do not recompose to r - b; with the prover's bits, accepted if and only if both hold of the values |
| `ZkGadgets.DivRem` | circuits/src/zk_gadgets/arithmetic.rs:46-78 | for every satisfying assignment, whatever quotient the prover chose: a = b q + r, and q is the floor if and only if r < b and b q + r does not wrap; with the prover's bits the remainder test means r < b or r >= b + 2^D |
| `ZkGadgets.QuotientIff` | circuits/src/zk_gadgets/arithmetic.rs:46-78 | for all field elements with a = b q + r and b not zero: q is the floor if and only if r < b and b q + r < P |
| `ZkGadgets.RemainderTestIff` | circuits/src/zk_gadgets/comparators.rs:469-490 | with the prover's bits, the test r < b passes if and only if r < b or r >= b + 2^D |
| `ZkGadgets.RemainderTestVoid` | circuits/src/zk_gadgets/comparators.rs:469-490 | with other binary bits the test passes for every remainder |
| `ZkGadgets.FloorPasses` | circuits/src/zk_gadgets/arithmetic.rs:55-75 | the quotient and remainder that the gadget computes pass, for every divisor of D bits |
| `ZkGadgets.AcceptWrongQuotient` | circuits/src/zk_gadgets/arithmetic.rs:46-78 | the appended constraints accept 0 / 2^32 with quotient P - 2 and remainder 2^33, all bit wires being the prover's own |
| `WalletUpdate.ConstrainUniqueMints` | circuits/src/zk_circuits/valid_wallet_update.rs:259-276 | accepted if and only if the mints are pairwise distinct or zero |
| `WalletUpdate.ValidateTransfers` | circuits/src/zk_circuits/valid_wallet_update.rs:172-256 | unique mints, every new amount the old balance of its mint plus the external less the internal transfer, transferred mints present, and amounts below 2^64 |
| `WalletUpdate.ConstrainUniquePairs` | circuits/src/zk_circuits/valid_wallet_update.rs:295-318 | accepted if and only if the mint pairs are distinct, except that an all-zero order may repeat |
| `WalletUpdate.ConstrainTimestamps` | circuits/src/zk_circuits/valid_wallet_update.rs:324-350 | an order that is otherwise unchanged keeps its timestamp, a changed one carries the current one |
| `OrderHistory.UpdateStamps` | circuits/src/zk_circuits/valid_wallet_update.rs:324-350 | field by field: the timestamp stays if pair, side, amount and price stay, and becomes the current time otherwise |
| `OrderHistory.TimestampIsLastChange` | circuits/src/zk_circuits/valid_wallet_update.rs:324-350 | over every run of updates the timestamp of a slot is the time of the last update that changed its pair, side, amount or price |
| `OrderHistory.TimestampIsFirst` | circuits/src/zk_circuits/valid_wallet_update.rs:324-350 | if none did, it is the slot's first timestamp |
| `OrderHistory.UpdatedPairsDiffer` | circuits/src/zk_circuits/valid_wallet_update.rs:295-318 | no two orders of an updated wallet share a pair, except that an order of five zeros may repeat |
| `WalletUpdate.UpdateCircuit` | circuits/src/zk_circuits/valid_wallet_update.rs:97-122 | the transition part of the circuit accepts exactly the updates that keep keys, step the randomness by two and apply the transfers and the order rules |
| `StateCircuits.ValidWalletUpdate` | circuits/src/zk_circuits/valid_wallet_update.rs:64-124 | the whole circuit: the above, and the old wallet's commitment opens to the root, its nullifiers, its root key and the new commitment are the public ones |
| `StateCircuits.UpdateIsSpentNext` | circuits/src/zk_circuits/valid_wallet_update.rs:64-124 | what is spent at the index of the published commitment is the updated wallet up to timestamps, or named vectors collide; the published key is its root key |
| `StateCircuits.TimestampsAreFree` | circuits/src/zk_gadgets/commitments.rs:37-50 | replacing the timestamp of any order leaves the commitment as it is |
| `Solvency.StepExact` | circuits/src/zk_circuits/valid_wallet_update.rs:172-256 | the new balance is old + in - out up to a multiple of P; a dropped mint had no outflow |
| `Solvency.StepSolventIff` | circuits/src/zk_circuits/valid_wallet_update.rs:172-256 | for every volume, an accepted update creates nothing if and only if the wallet covers its outflow |
| `Solvency.StepSolvent` | circuits/src/zk_circuits/valid_wallet_update.rs:172-256 | with outflow at most P - 2^64 an accepted update creates nothing, and loses nothing while the slot is kept |
| `Solvency.RunSolvent` | circuits/src/zk_circuits/valid_wallet_update.rs:172-276 | over every run of accepted updates: balance + all withdrawn + all transferred out <= initial balance + all deposited, slots dropped or reordered at will |
| `Solvency.LargeVolumeCreates` | circuits/src/zk_circuits/valid_wallet_update.rs:172-256 | an internal transfer of P - 1 units is accepted and raises a balance, so the bound on volumes is needed |
| `Settle.ConstrainMintsUnique` | circuits/src/zk_circuits/valid_settle.rs:170-188 | accepted if and only if mints are pairwise distinct or zero |
| `Settle.ValidateBalanceUpdates` | circuits/src/zk_circuits/valid_settle.rs:192-250 | every new amount is the old balance of its mint plus the three signed note terms |
| `Settle.ValidateOrderUpdates` | circuits/src/zk_circuits/valid_settle.rs:255-290 | every order keeps its fields, and its amount drops by the volume when it is the matched pair of a match note |
| `OrderHistory.OrderFilled` | circuits/src/zk_circuits/valid_settle.rs:255-290 | in integers: a match note takes its base volume off the orders on its pair, around the modulus if it exceeds the amount; all other fields, orders and notes leave orders alone |
| `OrderHistory.FillsAddUp` | circuits/src/zk_circuits/valid_settle.rs:255-290 | over every run of settlements, remaining amount plus volumes filled is the first amount, modulo P, and exactly if no more was filled |
| `OrderHistory.MatchFillsOneOrder` | circuits/src/zk_circuits/valid_settle.rs:255-290 | a match on a real pair fills at most one order of an updated wallet |
| `OrderHistory.SellerOrderFilled` | circuits/src/zk_circuits/valid_settle.rs:255-290 | after a checked match the seller's order ends at zero if the match names it as the smaller one, and at the stated difference otherwise, for all amounts and claims |
| `OrderHistory.BuyerOrderFilled` | circuits/src/zk_circuits/valid_settle.rs:255-290 | the buyer's order that the match names keeps what the fees took, so it ends at zero if and only if no fee was charged |
| `Settle.ConstrainSameFields` | circuits/src/zk_circuits/valid_settle.rs:293-315 | accepted if and only if the orders agree but for the amount |
| `Settle.SettleCircuit` | circuits/src/zk_circuits/valid_settle.rs:61-93 | the transition part accepts exactly the settlements of the note |
| `StateCircuits.ConstrainRedeemed` | circuits/src/zk_circuits/valid_settle.rs:113-152 | the note commitment opens to the root and gives the redeem nullifier |
| `StateCircuits.RedeemedOnce` | circuits/src/zk_circuits/valid_settle.rs:113-152 | one note under one key has one redeem nullifier; different notes or keys share it only if their hashed vectors or the hashed pairs collide |
| `StateCircuits.ValidSettle` | circuits/src/zk_circuits/valid_settle.rs:61-155 | the whole circuit: the above, both openings, the three nullifiers, the new commitment, the settle key preimage and the note type |
| `StateCircuits.SettlementIsSpentNext` | circuits/src/zk_circuits/valid_settle.rs:61-155 | what is spent at the index of the published commitment is the settled wallet up to timestamps, or named vectors collide |
| `MatchNotes.ConstrainShare` | circuits/src/zk_gadgets/fixed_point.rs:387-396 | a claimed quotient and remainder of fraction times amount by the fixed-point one, in every satisfying assignment; accepted if and only if the claim passes the division constraints |
| `MatchNotes.VolumeConstraints` | circuits/src/zk_circuits/valid_match_encryption.rs:318-484 | the indicator that all eight volumes of a direction carry the claimed shares, in every satisfying assignment |
| `MatchNotes.ValidateNotes` | circuits/src/zk_circuits/valid_match_encryption.rs:196-308 | in every satisfying assignment the five notes carry claimed shares and the mints, directions, gas terms, types and randomness of the match; accepted if and only if they do and the claims pass |
| `MatchNotes.AcceptedNotesIff` | circuits/src/zk_circuits/valid_match_encryption.rs:196-308 | accepted notes are exactly the floor shares of the match if and only if every claim they carry has a remainder below one and does not wrap |
| `MatchNotes.HonestNotesIff` | circuits/src/zk_circuits/valid_match_encryption.rs:196-308 | with the quotients that the prover's code computes, the constraints accept the notes of the match and no others |
| `Conservation.SettledIsReduced` | circuits/src/zk_circuits/valid_settle.rs:192-250 | a settled amount is the reduction of balance plus signed note volumes |
| `Conservation.SettlementNet` | circuits/src/zk_circuits/valid_settle.rs:192-250 | every accepted settlement credits at most the note if and only if the wallet covers the note; with the slot kept, exactly the note, or the shortfall below P when it does not |
| `Conservation.UncoveredSettlementCreates` | circuits/src/zk_circuits/valid_settle.rs:192-250 | an accepted settlement of five sold and five gas in one mint turns a balance of 5 into P - 5 |
| `Conservation.ActionNetIff` | circuits/src/zk_circuits/valid_settle.rs:192-250 | the same equivalence for updates and settlements alike |
| `Conservation.LedgerRunNet` | circuits/src/zk_circuits/valid_settle.rs:192-250 | over every run that mixes updates and settlements on any wallets, all covered, the ledger changes by at most deposits less withdrawals plus notes, exactly if slots are kept |
| `Conservation.PayableRunSolvent` | circuits/src/zk_circuits/valid_wallet_update.rs:172-256 | in such runs the update circuit enforces its own cover, so only settlements have to be covered |
| `Conservation.SideNetBound` | circuits/src/zk_circuits/valid_match_encryption.rs:318-484 | for all fees and amounts: the shares create nothing if and only if the three products, each reduced to the field, sum to at most the amount, and lose 0 to 2 units if and only if they sum to it |
| `Conservation.FeesFitIff` | circuits/src/zk_circuits/valid_match_encryption.rs:318-484 | for 64-bit fees and amounts both are the case if and only if the fees take at most everything, or the amount is zero |
| `Conservation.NotesNetExact` | circuits/src/zk_circuits/valid_match_encryption.rs:196-308 | in both directions the five notes net to the rounding of base and quote, and gas nets to nothing |
| `Conservation.NoteNets` | circuits/src/zk_circuits/valid_match_encryption.rs:196-308 | each of the five notes in integers, per mint and direction: a party pays what it sells and its gas and gets the rest of what it buys, its relayer gets that party's gas and percentage, the protocol its percentages and no gas |
| `Conservation.GasStaysInPairs` | circuits/src/zk_circuits/valid_match_encryption.rs:196-308 | gas in a mint of its own goes from each party to its own relayer and to nobody else |
| `Conservation.NoteLabels` | circuits/src/zk_circuits/valid_match_encryption.rs:196-308 | type 1 for the party notes only, and the randomness r0, r1, r0 + 1, r1 + 1, r0 + r1 |
| `Conservation.MatchConserves` | circuits/src/zk_circuits/valid_match_encryption.rs:196-308 | for all amounts, settling the five notes on covering wallets creates no mint if the fees fit; with exact fees and slots kept it destroys at most 2 units each of base and quote and conserves every other mint |
| `Conservation.WrongSharesCreate` | circuits/src/zk_circuits/valid_match_encryption.rs:196-308 | for a match of nothing, the constraints accept notes whose inexact claims create 3 (P - 2) units of base and of quote |
| `Conservation.AcceptWrongShares` | circuits/src/zk_circuits/valid_match_encryption.rs:196-308 | the appended constraints of the notes circuit have such a satisfying assignment, all bit wires being the prover's own |
| `Conservation.TwoUnitsLost` | circuits/src/zk_circuits/valid_match_encryption.rs:318-396 | the bound of two is attained |
| `MatchPipeline.CoveredIff` | circuits/src/zk_circuits/valid_commitments.rs:87-107 | covering sale and gas separately covers the settlement if and only if they differ in mint or the balance holds both |
| `MatchPipeline.UncoveredTradeCreates` | circuits/src/zk_circuits/valid_settle.rs:192-250 | on the failing side, every accepted settlement of the trade creates value |
| `MatchPipeline.NotesAreTrades` | circuits/src/zk_circuits/valid_match_encryption.rs:196-308 | the party notes are the two sides of the trade and the other notes only credit |
| `MatchPipeline.CommittedMintsAgree` | circuits/src/zk_circuits/valid_commitments.rs:87-95 | the balances that VALID COMMITMENTS opens are of the mints that the crossing check asks for, from pair and sides alone |
| `MatchPipeline.CommittedHolds` | circuits/src/zk_circuits/valid_commitments.rs:83-107 | a wallet that satisfies VALID COMMITMENTS holds the opened balance; it holds its gas if the gas amount does not wrap past the fee balance and, with one slot per mint, only then |
| `MatchPipeline.GasWraps` | circuits/src/zk_circuits/valid_commitments.rs:98-107 | the statement holds of a gas amount of P - 5 against a fee balance of zero |
| `MatchPipeline.CommittedCanSettleIff` | circuits/src/zk_circuits/valid_commitments.rs:83-107 | a committed party of a checked match can settle its side if, and with one slot per mint only if, neither sold amount nor gas wraps and a shared mint holds both |
| `MatchPipeline.WrappedAmountChecked` | circuits/src/zk_circuits/valid_match_mpc.rs:98-267 | the crossing check accepts a trade of P - 5 units between balances of zero |
| `MatchPipeline.WrappedNotesAccepted` | circuits/src/zk_circuits/valid_match_encryption.rs:196-308 | the notes of that trade are accepted with the prover's own quotients, and the fees fit |
| `MatchPipeline.WrappedAmountCreates` | circuits/src/zk_circuits/valid_settle.rs:192-250 | settling the seller's note of that trade turns a balance of zero into one of five |
| `MatchPipeline.CommittedMatchConserves` | circuits/src/zk_circuits/valid_match_mpc.rs:98-267 | from VALID COMMITMENTS of both parties, the crossing check and accepted notes to the settled wallets, for all prices, amounts and balances: with exact claims, fees that fit and amounts that do not wrap, no mint is created and, with exact fees and slots kept, at most 2 units each of base and quote are lost |
| `MatchCheck.MatchingEngineCheck` | circuits/src/zk_circuits/valid_match_mpc.rs:98-267 | accepts exactly the assignments that satisfy the five groups of field relations |
| `MatchCheck.ConstrainAmounts` | circuits/src/zk_circuits/valid_match_mpc.rs:160-205 | binary index, difference selected by it and below 2^32, doubled base amount |
| `MatchCheck.ConstrainCoverage` | circuits/src/zk_circuits/valid_match_mpc.rs:214-264 | balance mints and 64-bit differences by direction |
| `MatchCheck.SubWithinIff` | circuits/src/zk_gadgets/comparators.rs:395-401 | the greater-or-equal test on all field elements: b <= a < b + 2^D, or a + P < b + 2^D |
| `MatchCheck.CoverBoundExact` | circuits/src/zk_gadgets/comparators.rs:395-401 | it means b <= a for every a if and only if b is at most P - 2^D |
| `MatchCheck.CheckedIff` | circuits/src/zk_circuits/valid_match_mpc.rs:98-267 | for all orders, balances and results the check is: sides that sum to one, the prices, amounts and balances compared around the modulus, base the amount that the index names, midpoint and quote modulo P; for values in range that is: opposite sides, sell <= buy < sell + 2^64, base = min, correct argmin with a 32-bit difference, 2^33 quote = base (p1 + p2), and balances that cover |
| `MatchOutcome.CheckedInIntegers` | circuits/src/zk_circuits/valid_match_mpc.rs:98-267 | the whole check spelled out over the integers, both directions, for values in range |
| `MatchOutcome.CheckedPriceWithinLimits` | circuits/src/zk_circuits/valid_match_mpc.rs:98-267 | a checked execution price lies between the two limits if and only if the price sum is even |
| `MatchCheck.EngineResultChecked` | circuits/src/zk_circuits/valid_match_mpc.rs:98-267 | the engine's result on crossing orders passes the check if and only if mints agree entirely, differences are in range, the quote is exact and the balances cover |
| `MatchCheck.ProverFormsAgree` | circuits/src/zk_circuits/valid_match_mpc.rs:272-419 | for every field element, read as a signed difference down to 2^D - P: the bit wires of the multiprover and the single-prover form pass the recomposition for the same values, and are then the same bits |
| `ZkExponent.Exp` | circuits/src/zk_gadgets/arithmetic.rs:89-109 | x^alpha in every satisfying assignment |
| `ZkExponent.AllBitsZero` | circuits/src/zk_gadgets/arithmetic.rs:329-345 | whether the bits sum to zero |
| `ZkExponent.ExpPrivateImpl` | circuits/src/zk_gadgets/arithmetic.rs:286-325 | x to the exponent that any binary wires spell |
| `ZkExponent.ExpFixedBaseImpl` | circuits/src/zk_gadgets/arithmetic.rs:242-283 | the same for a constant base |
| `ZkExponent.ToBits` | circuits/src/zk_gadgets/bits.rs:40-64 | with binary wires, exactly the digits of the value |
| `ZkExponent.ExpPrivate` | circuits/src/zk_gadgets/arithmetic.rs:227-238 | x^alpha for an exponent of d bits |
| `ZkExponent.ExpFixedBase` | circuits/src/zk_gadgets/arithmetic.rs:211-224 | g^alpha for an exponent of d bits |
| `ZkExponent.Encrypt` | circuits/src/zk_gadgets/elgamal.rs:39-66 | the ciphertext is (g^r, pk^r m) |
| `ZkExponent.DecryptRecovers` | circuits/src/zk_gadgets/elgamal.rs:39-66 | c2 (c1^sk)^-1 recovers every plaintext encrypted under g^sk |
| `PoseidonSponge.PendingIsBlockSponge` | circuits/src/mpc_gadgets/poseidon.rs:214-245 | permuting the lazy state gives the block sponge: each rate-sized block added, then a permutation, at least one |
| `PoseidonSponge.RoundShape` | circuits/src/mpc_gadgets/poseidon.rs:256-305 | which elements a round powers: all in the first and last half of the full rounds, the first one in between |
| `PoseidonSponge.ShortHash` | circuits/src/mpc_gadgets/poseidon.rs:214-248 | the hash of one block is the element behind the capacity of the permuted state of zeros, block and zeros |
| `PoseidonSponge.Hasher.Absorb` | circuits/src/mpc_gadgets/poseidon.rs:214-228 | appends one input to what the state stands for |
| `PoseidonSponge.Hasher.AbsorbBatch` | circuits/src/mpc_gadgets/poseidon.rs:231-233 | appends a vector, so chunking does not matter |
| `PoseidonSponge.Hasher.Squeeze` | circuits/src/mpc_gadgets/poseidon.rs:239-248 | the i-th squeeze is the i-th output of the block sponge |
| `PoseidonSponge.Hasher.SqueezeBatch` | circuits/src/mpc_gadgets/poseidon.rs:251-253 | n consecutive outputs |
| `PoseidonSponge.Hasher.Permute` | circuits/src/mpc_gadgets/poseidon.rs:256-281 | the three loops are the fold of all rounds, round i using constants i |
| `PoseidonSponge.Hasher.ApplySBox` | circuits/src/mpc_gadgets/poseidon.rs:296-305 | x^alpha on every element, or on the first in a partial round |
| `PoseidonSponge.Hasher.ApplyMds` | circuits/src/mpc_gadgets/poseidon.rs:309-324 | the matrix-vector product |
| `PoseidonPermutation.IdentityUndoes` | circuits/src/mpc_gadgets/poseidon.rs:309-324 | a matrix whose product with the mixing matrix is the identity undoes the mixing layer |
| `Fermat.FermatLittle` | crypto/src/hash.rs:36-41 | x^(P - 1) = 1 for every non-zero x, by the product over a permutation of the non-zero elements |
| `PoseidonPermutation.PowersUndone` | crypto/src/hash.rs:36-41 | exponents that are inverse modulo P - 1 give s-boxes that undo each other on every element |
| `PoseidonPermutation.FiveHasInverseIff` | crypto/src/hash.rs:36-41 | the default exponent 5 has such an inverse if and only if 5 does not divide P - 1 |
| `PoseidonPermutation.DefaultSBoxInvertible` | crypto/src/hash.rs:36-41 | over the modulus of the source some power undoes the fifth power on every element |
| `PoseidonPermutation.PermutationIsBijection` | circuits/src/mpc_gadgets/poseidon.rs:256-281 | with an inverse matrix and an exponent inverse modulo P - 1, the reversed rounds undo the permutation on both sides |
| `ZkPoseidon.PoseidonGadget.Permute` | circuits/src/zk_gadgets/poseidon.rs:177-204 | the same permutation in every satisfying assignment |
| `ZkPoseidon.PoseidonGadget.Absorb` | circuits/src/zk_gadgets/poseidon.rs:85-105 | the state combinations carry the lazy sponge over the absorbed combinations |
| `ZkPoseidon.PoseidonGadget.Squeeze` | circuits/src/zk_gadgets/poseidon.rs:119-131 | every squeeze, the second and later ones included, returns the first output of the block sponge |
| `ZkPoseidon.Hash` | circuits/src/zk_gadgets/merkle.rs:164-175 | absorb, then squeeze: the sponge hash of the inputs |
| `ZkMerkle.SelectLeftRight` | circuits/src/zk_gadgets/merkle.rs:116-146 | the two children by the field formula |
| `ZkMerkle.ComputeRoot` | circuits/src/zk_gadgets/merkle.rs:51-75 | the fold of the leaf along the opening in every satisfying assignment |
| `ZkMerkle.OpeningClimbs` | circuits/src/zk_gadgets/merkle.rs:51-75 | folding a leaf over its siblings, least significant index bit first, gives the root of every complete tree |
| `ZkMerkle.OpeningBinds` | circuits/src/zk_gadgets/merkle.rs:51-75 | a binary-indexed opening of the tree's height to its root is the tree's own opening, or two different pairs with one hash are exhibited |
| `StateCircuits.ConstrainRoot` | circuits/src/zk_gadgets/merkle.rs:95-110 | accepted if and only if the leaf opens to the root |
| `StateCircuits.SpentIsLeaf` | circuits/src/zk_circuits/valid_wallet_update.rs:79-87 | a spent wallet is committed at the opened index of the state tree, or a collision is exhibited |
| `Commitments.WalletCommit` | circuits/src/zk_gadgets/commitments.rs:29-84 | the hash of balances, orders, fees, keys and randomness in this order |
| `Commitments.PreimageFixesWallet` | circuits/src/zk_gadgets/commitments.rs:37-80 | among wallets of one shape the hashed vector determines exactly everything but the order timestamps |
| `Commitments.PreimageBalance` | circuits/src/zk_gadgets/commitments.rs:37-80 | where each balance is hashed |
| `Commitments.PreimageOrder` | circuits/src/zk_gadgets/commitments.rs:37-80 | where each order is hashed, and that its timestamp is not |
| `Commitments.PreimageFee` | circuits/src/zk_gadgets/commitments.rs:37-80 | where each fee is hashed |
| `Commitments.PreimageTail` | circuits/src/zk_gadgets/commitments.rs:37-80 | the keys and the randomness close the vector |
| `Commitments.NoteCommit` | circuits/src/zk_gadgets/commitments.rs:93-119 | the hash of the note's eleven fields and the recipient key |
| `Commitments.NotePreimageFixes` | circuits/src/zk_gadgets/commitments.rs:93-119 | the hashed vector determines the note and its receiver |
| `StateCircuits.ConstrainSpent` | circuits/src/zk_gadgets/commitments.rs:128-151 | accepted if and only if the wallet opens to the root and the wires are H(C, r) and H(C, r + 1) |
| `Nullifiers.ChainRandomness` | circuits/src/zk_circuits/valid_wallet_update.rs:104 | along every chain of updates and settlements the i-th randomness is the first plus 2 i |
| `Nullifiers.ChainKeys` | circuits/src/zk_circuits/valid_wallet_update.rs:97-104 | along every chain of updates and settlements the four keys never change |
| `Nullifiers.RandomnessRepeats` | circuits/src/zk_gadgets/commitments.rs:128-151 | two nullifiers of a chain of any length hash the same randomness if and only if P divides their distance |
| `Nullifiers.NullifiersDistinct` | circuits/src/zk_circuits/valid_settle.rs:81-84 | on chains shorter than (P + 1)/2 wallets all spend and match nullifiers differ, or two of the hashed pairs collide |
| `ValidCommitments.OneMatch` | circuits/src/zk_circuits/valid_commitments.rs:121-178 | a count of one means exactly one position |
| `ValidCommitments.ConstrainOnce` | circuits/src/zk_circuits/valid_commitments.rs:121-138 | accepted if and only if exactly one vector of the list equals the item |
| `ValidCommitments.ContainsBalance` | circuits/src/zk_circuits/valid_commitments.rs:121-138 | the balance occurs exactly once |
| `ValidCommitments.ContainsOrder` | circuits/src/zk_circuits/valid_commitments.rs:141-158 | the order, timestamp included, occurs exactly once |
| `ValidCommitments.ContainsFee` | circuits/src/zk_circuits/valid_commitments.rs:161-178 | the fee occurs exactly once |
| `ValidCommitments.Circuit` | circuits/src/zk_circuits/valid_commitments.rs:57-118 | the whole circuit: opened wallet, match nullifier, key and randomness hashes, the four memberships, mints and gas cover |
| `ValidCommitments.CommittedIsNullified` | circuits/src/zk_circuits/valid_commitments.rs:70-80 | the nullifier of a commitment is the match nullifier that updating or settling the same wallet reveals, and its settle key the one whose secret the settlement knows |
| `ValidCommitments.CommitmentsMean` | circuits/src/zk_circuits/valid_commitments.rs:83-107 | for all amounts: one slot each for balance, fee balance, order and fee, the mint that a binary side sells, and gas compared with the fee balance around the modulus, which for a 64-bit fee balance is gas within it or above it by more than P - 2^64 |
| `SystemBus.TopicReader.HasNext` | core/src/system_bus.rs:82-96 | answers whether a message waits and loses nothing, buffered or not |
| `SystemBus.TopicReader.PollBus` | core/src/system_bus.rs:105-125 | delivers the head of the reader's queue, or leaves a waker when it is empty |
| `SystemBus.TopicFabric.NewReader` | core/src/system_bus.rs:193-201 | a reader with an empty queue; the count steps by one modulo 2^16 |
| `SystemBus.TopicFabric.WriteMessage` | core/src/system_bus.rs:204-213 | appends the message and wakes every waiting task |
| `SystemBus.SystemBus.constructor` | core/src/system_bus.rs:233-237 | the empty bus satisfies the invariant |
| `SystemBus.SystemBus.Publish` | core/src/system_bus.rs:250-265 | keeps the invariant; every reader of the topic, and no other, queues the message; wakes exactly the polls pending on the topic, in order |
| `SystemBus.SystemBus.Subscribe` | core/src/system_bus.rs:268-291 | keeps the invariant, and with it every waiting task of a registered topic; a new topic starts with none; the new reader sees exactly what is published from now on |
| `SystemBus.SystemBus.HasNext` | core/src/system_bus.rs:82-96 | keeps the invariant and every queue |
| `SystemBus.SystemBus.PollNext` | core/src/system_bus.rs:105-125 | keeps the invariant; delivers to this reader only, each message once and in order, or records the waker |
| `SystemBus.SystemBus.Drop` | core/src/system_bus.rs:139-156 | keeps the invariant; the topic is deregistered with its last reader |
| `SystemBus.SystemBus.NumListeners` | core/src/system_bus.rs:294-301 | the number of live readers |
| `SystemBus.SystemBus.HasListeners` | core/src/system_bus.rs:307-309 | true if and only if some live reader listens to the topic |
| `SystemBus.NextPublicationWakes` | core/src/system_bus.rs:105-125 | over every interleaving of steps, the waker of a pending poll is woken by the next publication on its topic while the reader lives |
| `SystemBus.WokenWasPending` | core/src/system_bus.rs:204-213 | whoever a publication wakes had a poll pending since the last publication on that topic |

## Left out

- Secret sharing, MACs, Beaver multiplication, the network and the fabric: only opened plaintexts matter here.
- Pedersen commitments, transcripts, `prove`/`verify` and the bulletproofs backend: a proof is modelled by the assignment it vouches for.
- The order in which terms are added to a linear combination: combinations are compared by their value.
- Concrete Poseidon constants and collision resistance: parameters are arbitrary, and binding results exhibit the colliding pairs instead of assuming there are none.
- The f32 logarithm that `kary_or` uses to size its count, and 32-bit shift overflow: the model takes the exact bit length.
- `check_encryptions` and `validate_note_commitments` of VALID MATCH ENCRYPTION, and `input_consistency_check` of VALID MATCH MPC: nine uses of `Encrypt`, five of `NoteCommit` and a few of `Hash`, with no new property.
- `circuits/src/types`: field shuffling.
- `zk_gadgets/edwards.rs` and `nonnative.rs`: curve points and non-native arithmetic.
- Fees are not constrained by update or settlement, so nothing is claimed about how they change.
- Lock-level interleavings of the bus and the scheduling of woken tasks: each method is one atomic step.
- Configuration, workers, HTTP API, gossip and tracing.
- MpcComparators.KaryOrIsOr: assumes that the last two inverse pairs cancel and the opening keeps its bits; KaryOrExact has the value without these assumptions.
- MatchEngine.ComputeMatchIsPlainMatch: holds for exact randomness, since wrap-around in an opening changes the answer; ExactTapes shows such randomness exists for all orders.
- ZkGadgets.ConstrainRange: the bit wires are not constrained to be binary by the source, so the bound needs binary wires; RangeAcceptsAll shows why.
- ZkGadgets.DivRem: the source does not force the floor, so the contract states the condition under which it is one.
- ZkExponent.ToBits: for widths below 253 bits; wider decompositions of one scalar are not unique.
- ZkGadgets.SelectVec: covers both the single-prover and the multiprover gadget, which append the same constraints.
- MatchCheck.MatchingEngineCheck: one method stands for both prover forms; the values they compare are shared, so they differ only in the values of the bit wires, which ProverFormsAgree compares. A public value would yield 256 bits in the multiprover form.
- StateCircuits.ConstrainRoot: openings with as many siblings as index bits.
- SystemBus.SystemBus.Publish: a publication to a full topic blocks; the step is modelled once there is room.
- SystemBus.SystemBus.Subscribe: fewer than 2^16 readers on a topic, since the count wraps.
- Commitments.PreimageFixesWallet: about the hashed vector, not the hash.
- Solvency.RunSolvent: assumes outgoing volumes of at most P - 2^64, which 64-bit volumes satisfy; StepSolventIff has the exact condition of one step.
- OrderHistory.TimestampIsLastChange: runs in which each update starts from the wallet that the last one ended with, timestamps included; commitments do not bind them.
- OrderHistory.BuyerOrderFilled: assumes 64-bit amounts and fees of at most everything; NoteNets has the volume otherwise.
- Conservation.MatchConserves: assumes a binary direction, fees that fit and that the debited wallets cover their notes; SideNetBound and SettlementNet show what happens otherwise.
- MatchPipeline.CommittedMatchConserves: assumes what no circuit states, namely a binary direction, two different party wallets, exact claims, fees that fit, sold and gas amounts that do not wrap past the balances they are checked against, and sale plus gas within the balance when they share a mint; the commitments and the crossing check are taken as their constraints read with binary bit wires.
- PoseidonPermutation.PermutationIsBijection: the inverse of the mixing matrix is a parameter, since the concrete constants are left out.
