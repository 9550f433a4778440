# IkubChain club pallets in Dafny

IkubChain is a Substrate parachain for investment clubs. Its runtime logic sits in four FRAME pallets:

- **ikub-treasury** keeps a recorded balance per club. It runs multi-signature withdrawals (Pending → Approved → Executed, with a time lock, a duplicate-free signer list and a signer cap). It also runs contribution cycles (Open → Closed → Distributed, with one active cycle per club) and pays out returns by pull-style proportional claims.
- **ikub-governance** creates proposals with a voting window and a bounded list of active ids. It takes one weighted vote per account and proposal, and finalises a proposal as Passed, Rejected or Expired.
- **ikub-disputes** opens disputes between an initiator and a subject. It takes one piece of evidence and one vote per account, and resolves a dispute by counting votes.
- **ikub-members** lets an account join or leave a club, with a member count capped per club.

Each pallet is a module and a `class Pallet` with one field per storage map (`frame.dfy` holds the shared machine-width types and saturating arithmetic). Each dispatchable is a method that returns `Pass` or `Fail(error)`. Every method is modelled as one atomic transition. When it fails, no storage change is visible (`r.Fail? ==> unchanged(this)`), as FRAME discards the writes of a failed call. Where the source writes a counter before a check that can still fail, the method restores the counter before failing.

Some inputs come from outside the pallet, so each method takes them as parameters: the caller, the block number `now`, and the outcome of each currency-pallet call (`transferOk`, `reserveOk`, `freeBalance`). Configuration constants are a `Config` value given to the constructor (for members, the cap alone), so every proof holds for any configuration. The repository defines two sets of values, and `parachain/runtime/src/lib.rs` and `parachain/node/src/runtime.rs` disagree on several of them: MinSignatures (3 and 2), MinContribution (1000 and 10^12), DefaultContributionPeriod (10000 and 100800 blocks), MaxVotingDuration (100000 and 100800 blocks) and MinProposalDeposit (1000 and 10^13). Both set MaxSigners to 10, MaxProposalsPerClub to 100 and MaxMembersPerClub to 1000.

Each pallet's `Valid()` is an invariant that every method preserves. Among other things it states:

- every stored record sits under its own key with an issued id;
- withdrawal signer lists are duplicate-free and within MaxSigners, and a request becomes Approved only when an approval brings its signer count to MinSignatures; the requester's own signature never approves it;
- a cycle is Open exactly when it is its club's active cycle;
- a cycle's total is the clamped sum of its contribution records;
- each proposal tally is the clamped sum of the recorded vote weights;
- each dispute count is the number of votes for that choice;
- each club's member count is its number of members and is at most the cap.

Ledgers of voters and contributors are kept in ghost fields.

## Model

| member | source | states |
|---|---|---|
| Frame.SaturatingAdd | parachain/pallets/ikub-treasury/src/lib.rs:286 | the exact sum when it fits the type, the type's maximum otherwise, and never less than either operand |
| Frame.SaturatingSub | parachain/pallets/ikub-treasury/src/lib.rs:423 | the exact difference when it is non-negative, zero otherwise |
| Treasury.Sign | parachain/pallets/ikub-treasury/src/lib.rs:355-377 | the approval checks in order (WithdrawalNotPending, AlreadySigned, InsufficientSignatures at MaxSigners); success exactly when all pass; the approver appended; after this approval, Approved exactly when the signer count has reached MinSignatures, Pending otherwise; nothing else changes; a well-formed request stays well formed (duplicate-free, within the cap) |
| Treasury.ClaimShare | parachain/pallets/ikub-treasury/src/lib.rs:667-683 | zero when the total is zero or the u128 product overflows; otherwise floor(amount·returns/total), bracketed from both sides; at most the returns when amount ≤ total |
| Treasury.ShareWithinReturns | parachain/pallets/ikub-treasury/src/lib.rs:668-683 | a share with share·total ≤ amount·returns is at most the returns when amount ≤ total |
| Treasury.SumAmountsOtherCycle | parachain/pallets/ikub-treasury/src/lib.rs:524-538 | writing a contribution record of another cycle leaves a cycle's sum of records unchanged |
| Treasury.SumAmountsUpdate | parachain/pallets/ikub-treasury/src/lib.rs:524-538 | rewriting one contributor's record changes the cycle's sum by exactly the difference in that record |
| Treasury.AmountWithinSum | parachain/pallets/ikub-treasury/src/lib.rs:524-542 | one contributor's record is at most the sum of the cycle's records |
| Treasury.PayoutScaled | parachain/pallets/ikub-treasury/src/lib.rs:668-683 | the shares paid to a list of contributors, times the total, are at most their summed records times the returns |
| Treasury.PayoutWithoutTotal | parachain/pallets/ikub-treasury/src/lib.rs:668-683 | with a zero total every share, and so every payout, is zero |
| Treasury.PayoutWithinReturns | parachain/pallets/ikub-treasury/src/lib.rs:649-701 | if the records add up to at most the total, one claim per contributor pays out at most the returns |
| Treasury.FreshCycleId | parachain/pallets/ikub-treasury/src/lib.rs:455-457 | the id the cycle counter hands out next is not yet stored, unless the counter is saturated |
| Treasury.OpenKeepsCycles | parachain/pallets/ikub-treasury/src/lib.rs:441-485 | storing the next cycle as Open and pointing the active pointer at it keeps every cycle well formed |
| Treasury.OpenKeepsLedger | parachain/pallets/ikub-treasury/src/lib.rs:464-476 | storing a fresh cycle with a zero total and no contributors keeps every cycle's total equal to the clamped sum of its records |
| Treasury.UpdateKeepsCycles | parachain/pallets/ikub-treasury/src/lib.rs:542-544 | rewriting a cycle with another well-formed one keeps the cycle invariant |
| Treasury.UpdateKeepsLedger | parachain/pallets/ikub-treasury/src/lib.rs:620-621 | changing a cycle's status or returns, but not its total, keeps the contribution ledger |
| Treasury.CloseKeepsCycles | parachain/pallets/ikub-treasury/src/lib.rs:582-584 | closing the active cycle and removing the pointer keeps the cycle invariant (the club then has no Open cycle) |
| Treasury.CreditedRecord | parachain/pallets/ikub-treasury/src/lib.rs:527-539 | a first contribution creates a record for the contributor with the amount at the current block; a later one keeps the contributor and the block and raises the stored amount by the new amount, to exactly the sum when it fits in u128, to u128::MAX otherwise |
| Treasury.CreditKeepsCycleLedger | parachain/pallets/ikub-treasury/src/lib.rs:520-542 | crediting a record (new, or raised with saturation) and the total (with saturation) keeps the total equal to the clamped sum of records, the list duplicate-free and equal to the record holders |
| Treasury.ContributeKeepsLedger | parachain/pallets/ikub-treasury/src/lib.rs:490-554 | the writes of `contribute` keep the ledger invariant for every cycle |
| Treasury.ContributionWithinTotal | parachain/pallets/ikub-treasury/src/lib.rs:520-542 | every record is at most its cycle's total_contributions, for cycle ids other than a re-issued u64::MAX |
| Treasury.ClaimsWithinReturns | parachain/pallets/ikub-treasury/src/lib.rs:649-701 | a cycle's contributors, each claiming once, receive at most the cycle's returns in all, while the total is below u128::MAX and for cycle ids other than a re-issued u64::MAX |
| Treasury.Pallet.constructor | parachain/pallets/ikub-treasury/src/lib.rs:106-188 | every storage map starts empty and the invariant holds |
| Treasury.Pallet.Deposit | parachain/pallets/ikub-treasury/src/lib.rs:277-295 | a successful transfer raises the club's balance by the amount, saturating; a failed one changes nothing |
| Treasury.Pallet.RequestWithdrawal | parachain/pallets/ikub-treasury/src/lib.rs:300-344 | InsufficientBalance when balance < amount; success exactly when the balance covers it and MaxSigners > 0; a Pending request under the old counter with the requester as sole signer and unlock_at = now + delay (saturating); counter + 1; the id was free |
| Treasury.Pallet.ApproveWithdrawal | parachain/pallets/ikub-treasury/src/lib.rs:349-386 | WithdrawalNotFound for a missing request; otherwise exactly the outcome and new record of `Sign` |
| Treasury.Pallet.ExecuteWithdrawal | parachain/pallets/ikub-treasury/src/lib.rs:391-436 | the checks in order (not Approved → WithdrawalNotPending, before unlock → WithdrawalNotReady, balance short → InsufficientBalance, transfer failure); on success the balance drops by exactly the amount and the request becomes Executed; only an Approved request with a quorum is executed |
| Treasury.Pallet.OpenContributionCycle | parachain/pallets/ikub-treasury/src/lib.rs:441-485 | CycleNotClosed exactly when an active cycle exists; otherwise an Open cycle under the old counter with zero totals, end = now + period or default (saturating), minimum or default; active pointer set; counter + 1 |
| Treasury.Pallet.Contribute | parachain/pallets/ikub-treasury/src/lib.rs:490-554 | CycleNotFound without an active cycle; the active cycle is Open; CycleNotOpen after its end, ContributionBelowMinimum, transfer failure; on success the record, the cycle total and the balance each rise by the amount, saturating |
| Treasury.Pallet.RecordContribution | parachain/pallets/ikub-treasury/src/lib.rs:518-544 | the record and cycle writes of a successful contribution, keeping the cycle and ledger invariants |
| Treasury.Pallet.CloseCycle | parachain/pallets/ikub-treasury/src/lib.rs:559-593 | CycleNotFound without an active cycle; CycleNotClosed until the window has passed; then Closed and the active pointer removed |
| Treasury.Pallet.DistributeReturns | parachain/pallets/ikub-treasury/src/lib.rs:598-644 | CycleNotFound, CycleNotClosed unless Closed, NoReturnsToDistribute for zero; then the returns are stored and the cycle is Distributed; no balance changes |
| Treasury.Pallet.ClaimReturns | parachain/pallets/ikub-treasury/src/lib.rs:649-701 | the checks in order; the share is `ClaimShare` of the record; a zero share fails; on success the balance drops by the share (saturating) and the share is at most the cycle's returns |
| Treasury.ExecuteTwice | parachain/pallets/ikub-treasury/src/lib.rs:401-426 | after a successful execution, executing the same request again fails with WithdrawalNotPending |
| Treasury.ClaimTwice | parachain/pallets/ikub-treasury/src/lib.rs:649-701 | no claim is recorded: after a successful claim the same claim succeeds again with the same share, and the balance is debited twice |
| Governance.AddVote | parachain/pallets/ikub-governance/src/lib.rs:409-413 | the chosen tally rises by the weight, saturating; the other two tallies and every other field are unchanged |
| Governance.Verdict | parachain/pallets/ikub-governance/src/lib.rs:452-484 | Expired exactly when all tallies are zero; Passed exactly when aye > nay; Rejected exactly when aye ≤ nay with some vote cast (ties reject); the approval threshold plays no part |
| Governance.Retain | parachain/pallets/ikub-governance/src/lib.rs:486-489 | the list without the id: every other id keeps its multiplicity, every occurrence of the id is gone, so the length drops by exactly the id's count; unchanged when the id is absent |
| Governance.RetainAppend | parachain/pallets/ikub-governance/src/lib.rs:486-489 | retaining from a concatenation concatenates the retained parts, so the kept ids stay in their order |
| Governance.ChoiceTotalNewVoter | parachain/pallets/ikub-governance/src/lib.rs:379-406 | a vote by an account outside a voter list does not change the list's total for any choice |
| Governance.ChoiceTotalOtherProposal | parachain/pallets/ikub-governance/src/lib.rs:406 | a vote on another proposal does not change a proposal's totals |
| Governance.VoteKeepsTallyLedger | parachain/pallets/ikub-governance/src/lib.rs:400-413 | recording a new vote and adding its weight keeps each tally equal to the clamped sum of the recorded weights |
| Governance.FreshProposalId | parachain/pallets/ikub-governance/src/lib.rs:303-306 | the id the proposal counter hands out next is not yet stored, unless the counter is saturated |
| Governance.CreateKeepsProposals | parachain/pallets/ikub-governance/src/lib.rs:300-341 | storing a new Active proposal and appending its id keeps every proposal well formed and the active list bounded |
| Governance.CreateKeepsVotes | parachain/pallets/ikub-governance/src/lib.rs:329-338 | a new proposal with zero tallies and no voters keeps the vote ledger |
| Governance.UpdateKeepsProposals | parachain/pallets/ikub-governance/src/lib.rs:415 | rewriting a proposal with another well-formed one keeps the proposal invariant |
| Governance.FinalizeKeepsProposals | parachain/pallets/ikub-governance/src/lib.rs:456-489 | setting the verdict keeps the invariant: Expired leaves the active list alone, Passed and Rejected remove the id |
| Governance.VoteKeepsVotes | parachain/pallets/ikub-governance/src/lib.rs:356-426 | the writes of `vote` keep the vote ledger of every proposal |
| Governance.UpdateKeepsVotes | parachain/pallets/ikub-governance/src/lib.rs:456-483 | changing a proposal without touching its tallies keeps the vote ledger |
| Governance.TallyIsRecordedPower | parachain/pallets/ikub-governance/src/lib.rs:400-413 | an unsaturated tally is exactly the summed weight of the votes for that choice, each voter counted once, for proposal ids other than a re-issued u64::MAX |
| Governance.Pallet.constructor | parachain/pallets/ikub-governance/src/lib.rs:157-204 | every storage map starts empty and the invariant holds |
| Governance.Pallet.CreateProposal | parachain/pallets/ikub-governance/src/lib.rs:275-351 | the checks in order (InvalidVotingDuration, InvalidApprovalThreshold, reserve failure, MaxProposalsExceeded for a full list or an over-long title or description); on success an Active proposal under the old counter with zero tallies, the configured deposit and voting_end = now + duration (saturating); id appended; counter + 1 |
| Governance.Pallet.CastVote | parachain/pallets/ikub-governance/src/lib.rs:356-426 | ProposalNotFound, ProposalNotActive, VotingPeriodEnded after voting_end, AlreadyVoted; on success the vote is stored with the free balance as weight and added to exactly the chosen tally |
| Governance.Pallet.FinalizeProposal | parachain/pallets/ikub-governance/src/lib.rs:431-492 | ProposalNotFound, ProposalNotActive, VotingPeriodEnded until voting_end has passed; then the status is the `Verdict`; Passed and Rejected leave the active list, Expired stays in it |
| Governance.Pallet.RecordVerdict | parachain/pallets/ikub-governance/src/lib.rs:456-489 | the writes of a successful finalisation: the verdict stored with nothing else in the record changed; an Expired id stays in the active list, any other verdict retains it out of the list; the invariant is kept |
| Governance.FinalizeIsFinal | parachain/pallets/ikub-governance/src/lib.rs:367-370 | after a successful finalisation, a vote and a second finalisation both fail with ProposalNotActive |
| Disputes.AddBallot | parachain/pallets/ikub-disputes/src/lib.rs:282-286 | the chosen count rises by exactly one; the other counts and every other field are unchanged |
| Disputes.HasVotes | parachain/pallets/ikub-disputes/src/lib.rs:319-326 | the saturating sum of the counts is non-zero exactly when some count is |
| Disputes.Winner | parachain/pallets/ikub-disputes/src/lib.rs:329-336 | the initiator exactly when it has strictly more votes than the subject; the subject otherwise, ties included |
| Disputes.BallotCountNewVoter | parachain/pallets/ikub-disputes/src/lib.rs:279 | a vote by an account outside a voter list does not change the list's count for any choice |
| Disputes.BallotCountOtherDispute | parachain/pallets/ikub-disputes/src/lib.rs:279 | a vote on another dispute does not change a dispute's counts |
| Disputes.BallotKeepsLedger | parachain/pallets/ikub-disputes/src/lib.rs:273-288 | recording a new vote and incrementing its count keeps each count equal to the number of votes for that choice |
| Disputes.FreshDisputeId | parachain/pallets/ikub-disputes/src/lib.rs:173-175 | the id the dispute counter hands out next is not yet stored, unless the counter is saturated |
| Disputes.OpenKeepsDisputes | parachain/pallets/ikub-disputes/src/lib.rs:173-193 | storing a new Open dispute under the old counter and bumping the counter keeps every dispute well formed |
| Disputes.UpdateKeepsDisputes | parachain/pallets/ikub-disputes/src/lib.rs:288 | rewriting a dispute with a well-formed one (the vote update at lib.rs:288, the resolution at lib.rs:340) keeps every dispute well formed |
| Disputes.OpenKeepsBallots | parachain/pallets/ikub-disputes/src/lib.rs:178-193 | a new dispute with zero counts and no voters keeps the ballot ledger |
| Disputes.BallotKeepsBallots | parachain/pallets/ikub-disputes/src/lib.rs:251-298 | the writes of `vote_on_dispute` keep the ballot ledger of every dispute |
| Disputes.UpdateKeepsBallots | parachain/pallets/ikub-disputes/src/lib.rs:338-340 | changing a dispute without touching its counts keeps the ballot ledger |
| Disputes.CountIsBallots | parachain/pallets/ikub-disputes/src/lib.rs:267-286 | each count is exactly the number of accounts that voted that way, each voter listed once and exactly the accounts with a vote, for dispute ids other than a re-issued u64::MAX |
| Disputes.Pallet.constructor | parachain/pallets/ikub-disputes/src/lib.rs:71-123 | every storage map starts empty and the invariant holds |
| Disputes.Pallet.OpenDispute | parachain/pallets/ikub-disputes/src/lib.rs:165-203 | InvalidDispute exactly for a description over 1024 bytes; otherwise an Open dispute under the old counter with zero counts and no resolution block; counter + 1; the id was free |
| Disputes.Pallet.SubmitEvidence | parachain/pallets/ikub-disputes/src/lib.rs:208-246 | DisputeNotFound, DisputeNotOpen unless Open or InMediation, EvidenceAlreadySubmitted, InvalidDispute over 2048 bytes; on success one new entry and no earlier entry changed |
| Disputes.Pallet.VoteOnDispute | parachain/pallets/ikub-disputes/src/lib.rs:251-298 | DisputeNotFound, DisputeNotOpen unless Open or InArbitration, AlreadyVoted; on success the vote is stored and exactly the chosen count rises by one |
| Disputes.Pallet.ResolveDispute | parachain/pallets/ikub-disputes/src/lib.rs:303-349 | DisputeNotFound, DisputeNotOpen unless Open or InArbitration, DisputeNotResolvable with no votes; on success Resolved with resolved_at = now and the winner's account given by `Winner` |
| Disputes.ResolveIsFinal | parachain/pallets/ikub-disputes/src/lib.rs:262-265 | after a successful resolution, a vote and a second resolution both fail with DisputeNotOpen |
| Members.NewProfile | parachain/pallets/ikub-members/src/lib.rs:106-114 | a new member's profile names the account, the club and the join block, with zero reputation and statistics |
| Members.JoinKeepsMembers | parachain/pallets/ikub-members/src/lib.rs:105-117 | admitting a non-member below the cap keeps each count equal to the club's number of members and at most the cap; the saturating increment is exact |
| Members.LeaveKeepsMembers | parachain/pallets/ikub-members/src/lib.rs:140-141 | removing a member keeps each count equal to the number of members; the saturating decrement is exact |
| Members.Pallet.constructor | parachain/pallets/ikub-members/src/lib.rs:37-57 | both maps start empty and the invariant holds |
| Members.Pallet.JoinClub | parachain/pallets/ikub-members/src/lib.rs:88-125 | AlreadyMember, then MaxMembersReached at the cap; on success a zeroed profile is inserted and the count rises by exactly one; no count exceeds the cap |
| Members.Pallet.LeaveClub | parachain/pallets/ikub-members/src/lib.rs:129-149 | NotMember exactly for a non-member; on success the profile is removed and the count, which was positive, falls by exactly one |
| Members.InsertThenRemove | parachain/pallets/ikub-members/src/lib.rs:116-141 | removing a freshly inserted profile gives back the old profiles, and restoring a club's count after overwriting it gives back every club's count |
| Members.JoinThenLeave | parachain/pallets/ikub-members/src/lib.rs:116-141 | a successful join followed by a leave of the same account succeeds and restores the profiles and every club's count |

## Left out

- Origins: `ensure_signed` is not modelled. Each method takes the already-authenticated caller, and unsigned origins are not modelled.
- Events (`deposit_event`) are not modelled, except that the winner of `resolve_dispute` is returned. Weights, call indices and the empty `on_initialize` hooks are also left out.
- The currency pallet is not modelled. `transfer`, `reserve` and `free_balance` become the parameters `transferOk`, `reserveOk` and `freeBalance`; a failure is returned as `TransferFailed` or `ReserveFailed`. Reserved deposits and account balances are not tracked.
- `treasury_account_id` (treasury lib.rs:716-723), which derives the treasury account from the club id, is not part of this model; transfers only need their outcome.
- Voting mechanisms: the source gives every mechanism the voter's free balance as weight, and so does the model. No quadratic, conviction or delegated formula is modelled.
- Dispute statuses InMediation, InArbitration and Closed, proposal status Cancelled and withdrawal status Cancelled are never entered by any call. The invariants state this; the status checks that accept them are still modelled.
- Governance `approval_threshold` is validated and stored but never read, as in the source. The error `InsufficientDeposit` is declared but never returned, so it has no path.
- The comment "Remove from active proposals" at ikub-governance/src/lib.rs:486 reads as if every finalised proposal leaves the active list. The Expired branch returns at lib.rs:456-461, before the `retain` at lib.rs:486-489, so an expired id stays listed and keeps counting toward MaxProposalsPerClub. The model follows the code.
- `claim_returns` writes no claimed flag, so the same contribution can be claimed again. The model allows this too, and `Treasury.ClaimTwice` states it.
- Treasury.ClaimsWithinReturns: holds only while the cycle's total is below u128::MAX. After saturation the total is smaller than the sum of the records, so claims may exceed the returns.
- Treasury.Pallet.ClaimReturns: the bound share ≤ returns is stated only for cycle ids below u64::MAX.
- Id counters saturate at u64::MAX and then hand out u64::MAX again, overwriting that record. The invariants exempt that one id per club, and so do Treasury.ClaimsWithinReturns, Treasury.ContributionWithinTotal, Governance.TallyIsRecordedPower and Disputes.CountIsBallots.
- Disputes.Pallet.VoteOnDispute: requires the chosen count to be below u32::MAX. The source's plain `+= 1` would panic or wrap at 2^32 votes, and the model does not cover that overflow.
- Governance.TallyIsRecordedPower: states exact equality only for tallies below u128::MAX. The ledger invariant gives the clamped sum in general.
- The analytics and cross-chain pallets, the runtime and node wiring, and the frontend are not part of this model. Runtime files are used only for constant values.
