/** The club treasury pallet: a recorded balance per club, multi-signature
    withdrawals with a time lock, contribution cycles, and pull-style proportional
    returns. One class field per storage item; one method per dispatchable. */
module Treasury {
  import opened Frame

  type WithdrawalId = U64
  type CycleId = U64
  type WithdrawalKey = (ClubId, WithdrawalId)
  type CycleKey = (ClubId, CycleId)
  type ContributionKey = (ClubId, CycleId, AccountId)

  datatype WithdrawalStatus = Pending | Approved | Executed | Cancelled

  datatype WithdrawalRequest = WithdrawalRequest(
    id: WithdrawalId,
    clubId: ClubId,
    recipient: AccountId,
    amount: Balance,
    unlockAt: BlockNumber,
    status: WithdrawalStatus,
    signatures: seq<AccountId>,  // BoundedVec<AccountId, MaxSigners>
    createdAt: BlockNumber)

  datatype CycleStatus = Open | Closed | Distributed

  datatype ContributionCycle = ContributionCycle(
    id: CycleId,
    clubId: ClubId,
    startBlock: BlockNumber,
    endBlock: BlockNumber,
    totalContributions: Balance,
    returnAmount: Balance,
    status: CycleStatus,
    minimumContribution: Balance)

  datatype Contribution = Contribution(contributor: AccountId, amount: Balance, contributedAt: BlockNumber)

  datatype Error =
    | InsufficientBalance
    | WithdrawalNotFound
    | WithdrawalNotPending
    | AlreadySigned
    | InsufficientSignatures
    | WithdrawalNotReady
    | CycleNotFound
    | CycleNotOpen
    | ContributionBelowMinimum
    | CycleNotClosed
    | NoReturnsToDistribute
    | TransferFailed  // an error of the currency pallet, propagated unchanged

  /** The pallet's configuration constants. */
  datatype Config = Config(
    maxSigners: U32,
    minSignatures: U32,
    minContribution: Balance,
    defaultContributionPeriod: BlockNumber)

  // ---------------------------------------------------------------------------
  // Withdrawal records

  /** What every stored withdrawal request satisfies: a non-empty, duplicate-free
      signer list within MaxSigners; a Pending request holds only its requester or
      fewer than MinSignatures signers, an Approved or Executed one at least
      MinSignatures and at least two (an approval approves it, never the
      requester's own signature); and no cancellation (no call sets it). */
  predicate WellFormedRequest(w: WithdrawalRequest, config: Config) {
    && 1 <= |w.signatures| <= config.maxSigners
    && NoDuplicates(w.signatures)
    && w.createdAt <= w.unlockAt
    && (w.status == Pending ==> |w.signatures| == 1 || |w.signatures| < config.minSignatures)
    && (w.status == Approved || w.status == Executed ==>
          2 <= |w.signatures| && config.minSignatures <= |w.signatures|)
    && w.status != Cancelled
  }

  /** The record-level effect of `approve_withdrawal` once the request is found:
      the status, duplicate and capacity checks in the source's order, the push onto
      the bounded signer list, and the quorum test right after it. */
  function Sign(w: WithdrawalRequest, approver: AccountId, config: Config): (r: Result<WithdrawalRequest, Error>)
    ensures w.status != Pending ==> r == Failure(WithdrawalNotPending)
    ensures w.status == Pending && approver in w.signatures ==> r == Failure(AlreadySigned)
    ensures w.status == Pending && approver !in w.signatures && config.maxSigners <= |w.signatures| ==>
              r == Failure(InsufficientSignatures)
    ensures r.Success? <==>
              w.status == Pending && approver !in w.signatures && |w.signatures| < config.maxSigners
    ensures r.Success? ==>
              && r.value.signatures == w.signatures + [approver]
              && (r.value.status == Approved <==> config.minSignatures <= |r.value.signatures|)
              && (r.value.status != Approved ==> r.value.status == Pending)
              && r.value.(signatures := w.signatures, status := w.status) == w
    ensures r.Success? && WellFormedRequest(w, config) ==> WellFormedRequest(r.value, config)
  {
    if w.status != Pending then Failure(WithdrawalNotPending)
    else if approver in w.signatures then Failure(AlreadySigned)
    else if config.maxSigners <= |w.signatures| then Failure(InsufficientSignatures)
    else
      var signatures := w.signatures + [approver];
      Success(w.(signatures := signatures,
                 status := if config.minSignatures <= |signatures| then Approved else Pending))
  }

  // ---------------------------------------------------------------------------
  // Proportional returns

  lemma MultiplyMonotone(a: nat, b: nat, c: nat)
    requires a <= b
    ensures a * c <= b * c
  {}

  lemma DivisionBounds(p: nat, t: nat)
    requires 0 < t
    ensures (p / t) * t <= p < (p / t + 1) * t
  {}

  /** Floor division by a positive divisor, characterised by its bounds. */
  lemma QuotientBounds(p: nat, t: nat)
    requires 0 < t
    ensures (p / t) * t <= p < (p / t + 1) * t
    ensures p / t <= p
  {
    var q := p / t;
    DivisionBounds(p, t);
    MultiplyMonotone(1, t, q);
  }

  /** The share `claim_returns` pays: floor(amount * returnAmount / total), computed in
      u128 with `checked_mul`/`checked_div`, and 0 when the product overflows or
      the total is 0. */
  function ClaimShare(amount: Balance, returnAmount: Balance, total: Balance): (share: Balance)
    ensures total == 0 ==> share == 0
    ensures U128_MAX < amount * returnAmount ==> share == 0
    ensures share * total <= amount * returnAmount
    ensures 0 < total && amount * returnAmount <= U128_MAX ==> amount * returnAmount < (share + 1) * total
    ensures amount <= total ==> share <= returnAmount
  {
    if 0 < total then
      var product := amount * returnAmount;
      if product <= U128_MAX then
        QuotientBounds(product, total);
        var share := product / total;
        ShareWithinReturns(amount, returnAmount, total, share);
        share
      else 0
    else 0
  }

  lemma CancelFactor(x: nat, y: nat, t: nat)
    requires 0 < t && x * t <= y * t
    ensures x <= y
  {}

  lemma ShareWithinReturns(amount: nat, returnAmount: nat, total: nat, share: nat)
    requires 0 < total && share * total <= amount * returnAmount
    ensures amount <= total ==> share <= returnAmount
  {
    if amount <= total {
      MultiplyMonotone(amount, total, returnAmount);
      assert share * total <= returnAmount * total;
      CancelFactor(share, returnAmount, total);
    }
  }

  /** The recorded amount of `account` in cycle `key` (0 without a record). */
  function AmountOf(contributions: map<ContributionKey, Contribution>, key: CycleKey, account: AccountId): Balance {
    var k := (key.0, key.1, account);
    if k in contributions then contributions[k].amount else 0
  }

  /** The recorded amounts of `accounts` in cycle `key`, summed without bound. */
  ghost function SumAmounts(contributions: map<ContributionKey, Contribution>, key: CycleKey, accounts: seq<AccountId>): nat
    decreases |accounts|
  {
    if accounts == [] then 0
    else SumAmounts(contributions, key, accounts[..|accounts| - 1])
         + AmountOf(contributions, key, accounts[|accounts| - 1])
  }

  /** What `accounts` receive if each of them claims once from cycle `key`. */
  ghost function TotalPayout(contributions: map<ContributionKey, Contribution>, key: CycleKey,
                             accounts: seq<AccountId>, returnAmount: Balance, total: Balance): nat
    decreases |accounts|
  {
    if accounts == [] then 0
    else TotalPayout(contributions, key, accounts[..|accounts| - 1], returnAmount, total)
         + ClaimShare(AmountOf(contributions, key, accounts[|accounts| - 1]), returnAmount, total)
  }

  /** Writing a contribution record of another cycle leaves a cycle's sum alone. */
  lemma {:induction false} SumAmountsOtherCycle(contributions: map<ContributionKey, Contribution>, key: CycleKey,
                                                accounts: seq<AccountId>, k: ContributionKey, c: Contribution)
    requires (k.0, k.1) != key
    ensures SumAmounts(contributions[k := c], key, accounts) == SumAmounts(contributions, key, accounts)
    decreases |accounts|
  {
    if accounts != [] {
      SumAmountsOtherCycle(contributions, key, accounts[..|accounts| - 1], k, c);
    }
  }

  /** Writing the record of `account` in cycle `key` changes the cycle's sum over a
      duplicate-free list by exactly the change of that one amount. */
  lemma {:induction false} SumAmountsUpdate(contributions: map<ContributionKey, Contribution>, key: CycleKey,
                                            accounts: seq<AccountId>, account: AccountId, c: Contribution)
    requires NoDuplicates(accounts)
    ensures account in accounts ==>
              SumAmounts(contributions[(key.0, key.1, account) := c], key, accounts) + AmountOf(contributions, key, account)
              == SumAmounts(contributions, key, accounts) + c.amount
    ensures account !in accounts ==>
              SumAmounts(contributions[(key.0, key.1, account) := c], key, accounts)
              == SumAmounts(contributions, key, accounts)
    decreases |accounts|
  {
    if accounts != [] {
      var init, last := accounts[..|accounts| - 1], accounts[|accounts| - 1];
      assert accounts == init + [last];
      SumAmountsUpdate(contributions, key, init, account, c);
      if last == account {
        forall i | 0 <= i < |init|
          ensures init[i] != account
        {
          assert init[i] == accounts[i];
        }
      }
    }
  }

  /** Each listed contributor's amount is at most the cycle's sum. */
  lemma {:induction false} AmountWithinSum(contributions: map<ContributionKey, Contribution>, key: CycleKey,
                                           accounts: seq<AccountId>, account: AccountId)
    requires account in accounts
    ensures AmountOf(contributions, key, account) <= SumAmounts(contributions, key, accounts)
    decreases |accounts|
  {
    var init, last := accounts[..|accounts| - 1], accounts[|accounts| - 1];
    assert accounts == init + [last];
    if account != last {
      AmountWithinSum(contributions, key, init, account);
    }
  }

  lemma {:induction false} PayoutScaled(contributions: map<ContributionKey, Contribution>, key: CycleKey,
                                        accounts: seq<AccountId>, returnAmount: Balance, total: Balance)
    ensures TotalPayout(contributions, key, accounts, returnAmount, total) * total
            <= SumAmounts(contributions, key, accounts) * returnAmount
    decreases |accounts|
  {
    if accounts != [] {
      var init, last := accounts[..|accounts| - 1], accounts[|accounts| - 1];
      PayoutScaled(contributions, key, init, returnAmount, total);
      var p := TotalPayout(contributions, key, init, returnAmount, total);
      var s := SumAmounts(contributions, key, init);
      var a := AmountOf(contributions, key, last);
      var share := ClaimShare(a, returnAmount, total);
      AddScaled(p, share, s, a, total, returnAmount);
    }
  }

  lemma AddScaled(p: nat, q: nat, s: nat, a: nat, t: nat, r: nat)
    requires p * t <= s * r && q * t <= a * r
    ensures (p + q) * t <= (s + a) * r
  {
    assert (p + q) * t == p * t + q * t;
    assert (s + a) * r == s * r + a * r;
  }

  lemma {:induction false} PayoutWithoutTotal(contributions: map<ContributionKey, Contribution>, key: CycleKey,
                                              accounts: seq<AccountId>, returnAmount: Balance)
    ensures TotalPayout(contributions, key, accounts, returnAmount, 0) == 0
    decreases |accounts|
  {
    if accounts != [] {
      PayoutWithoutTotal(contributions, key, accounts[..|accounts| - 1], returnAmount);
    }
  }

  /** Pull-style distribution never pays out more than the returns: if the recorded
      amounts add up to at most the cycle's total, one claim per contributor pays
      at most `returnAmount` in all (rounding only loses). */
  lemma PayoutWithinReturns(contributions: map<ContributionKey, Contribution>, key: CycleKey,
                            accounts: seq<AccountId>, returnAmount: Balance, total: Balance)
    requires SumAmounts(contributions, key, accounts) <= total
    ensures TotalPayout(contributions, key, accounts, returnAmount, total) <= returnAmount
  {
    if total == 0 {
      PayoutWithoutTotal(contributions, key, accounts, returnAmount);
    } else {
      var p := TotalPayout(contributions, key, accounts, returnAmount, total);
      PayoutScaled(contributions, key, accounts, returnAmount, total);
      MultiplyMonotone(SumAmounts(contributions, key, accounts), total, returnAmount);
      CancelFactor(p, returnAmount, total);
    }
  }

  /** The bookkeeping step of `contribute` on a cycle whose total is the clamped sum
      of its records: adding `amount` to one record (saturating) and to the total
      (saturating) keeps the total equal to the clamped sum. */
  lemma LedgerStep(sum: nat, before: nat, amount: Balance, total: Balance)
    requires before <= sum && before <= U128_MAX
    requires total == Min(sum, U128_MAX)
    ensures Min(sum - before + SaturatingAdd(before, amount, U128_MAX), U128_MAX)
            == SaturatingAdd(total, amount, U128_MAX)
  {}

  // ---------------------------------------------------------------------------
  // Storage invariants, stated on the storage values

  /** A stored cycle sits under its own key with an issued id and a non-empty
      window; returns are set exactly when it is Distributed; it is Open exactly
      when it is its club's active cycle. */
  ghost predicate CycleWellFormed(k: CycleKey, c: ContributionCycle, active: map<ClubId, CycleId>,
                                  counts: map<ClubId, CycleId>) {
    && c.clubId == k.0
    && c.id == k.1
    && IssuedId(k.1, CountOf(counts, k.0))
    && c.startBlock <= c.endBlock
    && (c.status == Distributed <==> 0 < c.returnAmount)
    && (c.status == Open <==> k.0 in active && active[k.0] == k.1)
  }

  /** Every cycle is well formed and every active pointer names a stored cycle, so
      a club has at most one Open cycle. */
  ghost predicate CyclesInvariant(cycles: map<CycleKey, ContributionCycle>, active: map<ClubId, CycleId>,
                                  counts: map<ClubId, CycleId>) {
    && (forall k {:trigger cycles[k]} :: k in cycles ==> CycleWellFormed(k, cycles[k], active, counts))
    && (forall club {:trigger active[club]} :: club in active ==> (club, active[club]) in cycles)
  }

  /** The contributors of one cycle are listed once each, exactly the accounts
      with a record, and the cycle's total is their sum clamped at u128::MAX. */
  ghost predicate CycleLedger(contributions: map<ContributionKey, Contribution>, key: CycleKey,
                              accounts: seq<AccountId>, total: Balance) {
    && NoDuplicates(accounts)
    && (forall a :: (key.0, key.1, a) in contributions <==> a in accounts)
    && total == Min(SumAmounts(contributions, key, accounts), U128_MAX)
  }

  /** Every contribution record belongs to a stored cycle and names its own
      contributor; every cycle below id u64::MAX keeps its ledger (a saturated
      counter re-issues u64::MAX over the stale records of that id). */
  ghost predicate LedgerInvariant(contributions: map<ContributionKey, Contribution>,
                                  contributors: map<CycleKey, seq<AccountId>>,
                                  cycles: map<CycleKey, ContributionCycle>) {
    && (forall k {:trigger contributions[k]} :: k in contributions ==>
          (k.0, k.1) in cycles && contributions[k].contributor == k.2)
    && (forall key :: key in cycles ==> key in contributors)
    && (forall key {:trigger contributors[key]} :: key in cycles && key in contributors && key.1 < U64_MAX ==>
          CycleLedger(contributions, key, contributors[key], cycles[key].totalContributions))
  }

  /** The counter's next id is not yet stored, unless the counter is saturated. */
  lemma FreshCycleId(cycles: map<CycleKey, ContributionCycle>, active: map<ClubId, CycleId>,
                     counts: map<ClubId, CycleId>, club: ClubId)
    requires CyclesInvariant(cycles, active, counts)
    ensures CountOf(counts, club) < U64_MAX ==> (club, CountOf(counts, club)) !in cycles
  {
    var key := (club, CountOf(counts, club));
    if key in cycles {
      assert CycleWellFormed(key, cycles[key], active, counts);
    }
  }

  /** Opening a cycle under the next id of a club without an active cycle keeps the
      cycle invariant. */
  lemma OpenKeepsCycles(cycles: map<CycleKey, ContributionCycle>, active: map<ClubId, CycleId>,
                        counts: map<ClubId, CycleId>, club: ClubId, c: ContributionCycle)
    requires CyclesInvariant(cycles, active, counts) && club !in active
    requires c.clubId == club && c.id == CountOf(counts, club) && c.startBlock <= c.endBlock
    requires c.status == Open && c.returnAmount == 0
    ensures CyclesInvariant(cycles[(club, c.id) := c], active[club := c.id],
                            counts[club := SaturatingAdd(c.id, 1, U64_MAX)])
  {
    var cycles', active', counts' := cycles[(club, c.id) := c], active[club := c.id],
                                     counts[club := SaturatingAdd(c.id, 1, U64_MAX)];
    forall k | k in cycles'
      ensures CycleWellFormed(k, cycles'[k], active', counts')
    {
      if k != (club, c.id) {
        assert CycleWellFormed(k, cycles[k], active, counts);
      }
    }
  }

  /** A new cycle with an empty ledger and a zero total keeps the ledger invariant. */
  lemma OpenKeepsLedger(contributions: map<ContributionKey, Contribution>,
                        contributors: map<CycleKey, seq<AccountId>>,
                        cycles: map<CycleKey, ContributionCycle>, key: CycleKey, c: ContributionCycle)
    requires LedgerInvariant(contributions, contributors, cycles)
    requires key.1 < U64_MAX ==> key !in cycles
    requires c.totalContributions == 0
    ensures LedgerInvariant(contributions, contributors[key := []], cycles[key := c])
  {
  }

  /** Rewriting one cycle into another well-formed one keeps the cycle invariant. */
  lemma UpdateKeepsCycles(cycles: map<CycleKey, ContributionCycle>, active: map<ClubId, CycleId>,
                          counts: map<ClubId, CycleId>, key: CycleKey, c: ContributionCycle)
    requires CyclesInvariant(cycles, active, counts) && key in cycles
    requires CycleWellFormed(key, c, active, counts)
    ensures CyclesInvariant(cycles[key := c], active, counts)
  {
    forall k | k in cycles
      ensures CycleWellFormed(k, cycles[k], active, counts)
    {
    }
  }

  /** Rewriting one cycle without touching its total keeps the ledger invariant. */
  lemma UpdateKeepsLedger(contributions: map<ContributionKey, Contribution>,
                          contributors: map<CycleKey, seq<AccountId>>,
                          cycles: map<CycleKey, ContributionCycle>, key: CycleKey, c: ContributionCycle)
    requires LedgerInvariant(contributions, contributors, cycles) && key in cycles
    requires c.totalContributions == cycles[key].totalContributions
    ensures LedgerInvariant(contributions, contributors, cycles[key := c])
  {
    var cycles' := cycles[key := c];
    forall k | k in cycles' && k in contributors && k.1 < U64_MAX
      ensures CycleLedger(contributions, k, contributors[k], cycles'[k].totalContributions)
    {
      assert cycles'[k].totalContributions == cycles[k].totalContributions;
    }
  }

  /** Closing the active cycle of `club` (status Closed, pointer removed) keeps the
      cycle invariant. */
  lemma CloseKeepsCycles(cycles: map<CycleKey, ContributionCycle>, active: map<ClubId, CycleId>,
                         counts: map<ClubId, CycleId>, club: ClubId)
    requires CyclesInvariant(cycles, active, counts) && club in active
    ensures (club, active[club]) in cycles
    ensures var key := (club, active[club]);
            CyclesInvariant(cycles[key := cycles[key].(status := Closed)], active - {club}, counts)
  {
    var key := (club, active[club]);
    var cycles', active' := cycles[key := cycles[key].(status := Closed)], active - {club};
    forall k | k in cycles'
      ensures CycleWellFormed(k, cycles'[k], active', counts)
    {
      assert CycleWellFormed(k, cycles[k], active, counts);
    }
  }

  /** The contributor's record once `contribute` credits `amount`: a new record on
      the first contribution, otherwise the stored one with its amount raised,
      saturating (its block stays that of the first contribution). */
  function CreditedRecord(contributions: map<ContributionKey, Contribution>, key: ContributionKey, amount: Balance,
                          now: BlockNumber): (c: Contribution)
    ensures key !in contributions ==> c.contributor == key.2 && c.amount == amount && c.contributedAt == now
    ensures key in contributions ==>
      && c.contributor == contributions[key].contributor
      && c.contributedAt == contributions[key].contributedAt
      && contributions[key].amount <= c.amount
      && (c.amount == contributions[key].amount + amount || c.amount == U128_MAX)
      && (contributions[key].amount + amount <= U128_MAX ==> c.amount == contributions[key].amount + amount)
    ensures amount <= c.amount
  {
    if key in contributions
    then contributions[key].(amount := SaturatingAdd(contributions[key].amount, amount, U128_MAX))
    else Contribution(key.2, amount, now)
  }

  /** The bookkeeping of `contribute` on one cycle's ledger: the contributor's
      record (new, or its amount raised with saturation) and the total raised with
      saturation keep the total equal to the clamped sum; a first contribution
      appends the contributor. */
  lemma CreditKeepsCycleLedger(contributions: map<ContributionKey, Contribution>, key: CycleKey,
                               accounts: seq<AccountId>, total: Balance, contributor: AccountId,
                               amount: Balance, record: Contribution, accounts': seq<AccountId>, total': Balance)
    requires CycleLedger(contributions, key, accounts, total)
    requires (key.0, key.1, contributor) in contributions ==>
               && record.amount == SaturatingAdd(contributions[(key.0, key.1, contributor)].amount, amount, U128_MAX)
               && accounts' == accounts
    requires (key.0, key.1, contributor) !in contributions ==>
               && record.amount == amount
               && accounts' == accounts + [contributor]
    requires total' == SaturatingAdd(total, amount, U128_MAX)
    ensures CycleLedger(contributions[(key.0, key.1, contributor) := record], key, accounts', total')
  {
    var k := (key.0, key.1, contributor);
    var cs' := contributions[k := record];
    var sum := SumAmounts(contributions, key, accounts);
    SumAmountsUpdate(contributions, key, accounts, contributor, record);
    if k in contributions {
      AmountWithinSum(contributions, key, accounts, contributor);
      LedgerStep(sum, contributions[k].amount, amount, total);
    } else {
      AppendKeepsNoDuplicates(accounts, contributor);
      assert accounts'[..|accounts'| - 1] == accounts;
      assert SumAmounts(cs', key, accounts') == sum + amount;
      LedgerStep(sum, 0, amount, total);
    }
  }

  /** `contribute` keeps the ledger invariant: the credited cycle by
      `CreditKeepsCycleLedger`, every other cycle because its records, list and
      total are untouched. */
  lemma ContributeKeepsLedger(contributions: map<ContributionKey, Contribution>,
                              contributors: map<CycleKey, seq<AccountId>>,
                              cycles: map<CycleKey, ContributionCycle>, key: CycleKey, contributor: AccountId,
                              amount: Balance, record: Contribution,
                              contributors': map<CycleKey, seq<AccountId>>, total': Balance)
    requires LedgerInvariant(contributions, contributors, cycles) && key in cycles
    requires record.contributor == contributor
    requires (key.0, key.1, contributor) in contributions ==>
               && record.amount == SaturatingAdd(contributions[(key.0, key.1, contributor)].amount, amount, U128_MAX)
               && contributors' == contributors
    requires (key.0, key.1, contributor) !in contributions ==>
               && record.amount == amount
               && contributors' == contributors[key := contributors[key] + [contributor]]
    requires total' == SaturatingAdd(cycles[key].totalContributions, amount, U128_MAX)
    ensures LedgerInvariant(contributions[(key.0, key.1, contributor) := record], contributors',
                            cycles[key := cycles[key].(totalContributions := total')])
  {
    var k := (key.0, key.1, contributor);
    var cs' := contributions[k := record];
    var cycles' := cycles[key := cycles[key].(totalContributions := total')];
    forall other | other in cycles' && other in contributors' && other.1 < U64_MAX && other != key
      ensures CycleLedger(cs', other, contributors'[other], cycles'[other].totalContributions)
    {
      SumAmountsOtherCycle(contributions, other, contributors[other], k, record);
      assert CycleLedger(contributions, other, contributors[other], cycles[other].totalContributions);
    }
    if key.1 < U64_MAX {
      assert CycleLedger(contributions, key, contributors[key], cycles[key].totalContributions);
      CreditKeepsCycleLedger(contributions, key, contributors[key], cycles[key].totalContributions, contributor,
                             amount, record, contributors'[key], total');
    }
  }

  /** Every record of a cycle below id u64::MAX is at most the cycle's total, so a
      single claim never exceeds the cycle's returns. */
  lemma ContributionWithinTotal(contributions: map<ContributionKey, Contribution>,
                                contributors: map<CycleKey, seq<AccountId>>,
                                cycles: map<CycleKey, ContributionCycle>, k: ContributionKey)
    requires LedgerInvariant(contributions, contributors, cycles)
    requires k in contributions && k.1 < U64_MAX
    ensures (k.0, k.1) in cycles && contributions[k].amount <= cycles[(k.0, k.1)].totalContributions
  {
    var key := (k.0, k.1);
    assert CycleLedger(contributions, key, contributors[key], cycles[key].totalContributions);
    AmountWithinSum(contributions, key, contributors[key], k.2);
  }

  /** Pull-style distribution is solvent: while a cycle's total has not saturated,
      its contributors claiming once each receive at most the cycle's returns. */
  lemma ClaimsWithinReturns(contributions: map<ContributionKey, Contribution>,
                            contributors: map<CycleKey, seq<AccountId>>,
                            cycles: map<CycleKey, ContributionCycle>, key: CycleKey)
    requires LedgerInvariant(contributions, contributors, cycles)
    requires key in cycles && key.1 < U64_MAX && cycles[key].totalContributions < U128_MAX
    ensures key in contributors
    ensures TotalPayout(contributions, key, contributors[key], cycles[key].returnAmount,
                        cycles[key].totalContributions) <= cycles[key].returnAmount
  {
    assert CycleLedger(contributions, key, contributors[key], cycles[key].totalContributions);
    PayoutWithinReturns(contributions, key, contributors[key], cycles[key].returnAmount,
                        cycles[key].totalContributions);
  }

  // ---------------------------------------------------------------------------
  // The pallet's storage and dispatchables

  class Pallet {
    const config: Config

    var treasuryBalances: map<ClubId, Balance>                        // ValueQuery
    var withdrawalRequests: map<WithdrawalKey, WithdrawalRequest>
    var withdrawalCount: map<ClubId, WithdrawalId>                    // ValueQuery
    var contributionCycles: map<CycleKey, ContributionCycle>
    var activeCycle: map<ClubId, CycleId>
    var cycleCount: map<ClubId, CycleId>                              // ValueQuery
    var contributions: map<ContributionKey, Contribution>

    /** For each cycle, its contributors in the order of their first contribution. */
    ghost var contributors: map<CycleKey, seq<AccountId>>

    function TreasuryBalance(club: ClubId): Balance
      reads this`treasuryBalances
    {
      if club in treasuryBalances then treasuryBalances[club] else 0
    }

    ghost predicate Valid()
      reads this
    {
      && WithdrawalsValid()
      && CyclesInvariant(contributionCycles, activeCycle, cycleCount)
      && LedgerInvariant(contributions, contributors, contributionCycles)
    }

    /** Every request is well formed, stored under its own key, with an issued id. */
    ghost predicate WithdrawalsValid()
      reads this`withdrawalRequests, this`withdrawalCount
    {
      forall k {:trigger withdrawalRequests[k]} :: k in withdrawalRequests ==>
        && WellFormedRequest(withdrawalRequests[k], config)
        && withdrawalRequests[k].clubId == k.0
        && withdrawalRequests[k].id == k.1
        && IssuedId(k.1, CountOf(withdrawalCount, k.0))
    }

    constructor (config: Config)
      ensures Valid() && this.config == config
      ensures treasuryBalances == map[] && withdrawalRequests == map[] && withdrawalCount == map[]
      ensures contributionCycles == map[] && activeCycle == map[] && cycleCount == map[] && contributions == map[]
    {
      this.config := config;
      treasuryBalances, withdrawalRequests, withdrawalCount := map[], map[], map[];
      contributionCycles, activeCycle, cycleCount := map[], map[], map[];
      contributions, contributors := map[], map[];
    }

    /** `deposit`: the currency transfer into the club's treasury account, then the
        recorded balance rises by `amount` (saturating). */
    method Deposit(account: AccountId, club: ClubId, amount: Balance, transferOk: bool) returns (r: Outcome<Error>)
      requires Valid()
      modifies this`treasuryBalances
      ensures Valid()
      ensures r == if transferOk then Pass else Fail(TransferFailed)
      ensures r.Pass? ==> treasuryBalances == old(treasuryBalances)[club := SaturatingAdd(old(TreasuryBalance(club)), amount, U128_MAX)]
      ensures r.Fail? ==> unchanged(this)
    {
      if !transferOk {
        return Fail(TransferFailed);
      }
      treasuryBalances := treasuryBalances[club := SaturatingAdd(TreasuryBalance(club), amount, U128_MAX)];
      r := Pass;
    }

    /** `request_withdrawal`: allocates the next id and stores a Pending request signed
        by the requester alone. The counter is written before the signer push that
        can still fail (MaxSigners = 0); the failure rolls it back. */
    method RequestWithdrawal(requester: AccountId, club: ClubId, recipient: AccountId, amount: Balance,
                             unlockDelay: BlockNumber, now: BlockNumber) returns (r: Outcome<Error>)
      requires Valid()
      modifies this`withdrawalRequests, this`withdrawalCount
      ensures Valid()
      ensures TreasuryBalance(club) < amount ==> r == Fail(InsufficientBalance)
      ensures amount <= TreasuryBalance(club) && config.maxSigners == 0 ==> r == Fail(InsufficientSignatures)
      ensures r.Pass? <==> amount <= TreasuryBalance(club) && 0 < config.maxSigners
      ensures r.Fail? ==> unchanged(this)
      ensures r.Pass? ==>
        var id := old(CountOf(withdrawalCount, club));
        && withdrawalCount == old(withdrawalCount)[club := SaturatingAdd(id, 1, U64_MAX)]
        && withdrawalRequests == old(withdrawalRequests)[(club, id) :=
             WithdrawalRequest(id, club, recipient, amount, SaturatingAdd(now, unlockDelay, U32_MAX),
                               Pending, [requester], now)]
        && (id < U64_MAX ==> (club, id) !in old(withdrawalRequests))
    {
      var balance := TreasuryBalance(club);
      if balance < amount {
        return Fail(InsufficientBalance);
      }
      var savedCount := withdrawalCount;
      var id := CountOf(withdrawalCount, club);
      withdrawalCount := withdrawalCount[club := SaturatingAdd(id, 1, U64_MAX)];
      var unlockAt := SaturatingAdd(now, unlockDelay, U32_MAX);
      if config.maxSigners == 0 {
        // `signatures.try_push(requester)` on a list bounded by 0 fails; the
        // dispatch error discards the counter write.
        withdrawalCount := savedCount;
        return Fail(InsufficientSignatures);
      }
      var w := WithdrawalRequest(id, club, recipient, amount, unlockAt, Pending, [requester], now);
      withdrawalRequests := withdrawalRequests[(club, id) := w];
      r := Pass;
    }

    /** `approve_withdrawal`: adds one distinct signer and approves exactly when the
        quorum is reached (see `Sign`). */
    method ApproveWithdrawal(approver: AccountId, club: ClubId, id: WithdrawalId) returns (r: Outcome<Error>)
      requires Valid()
      modifies this`withdrawalRequests
      ensures Valid()
      ensures (club, id) !in old(withdrawalRequests) ==> r == Fail(WithdrawalNotFound)
      ensures (club, id) in old(withdrawalRequests) ==>
        match Sign(old(withdrawalRequests[(club, id)]), approver, config)
        case Failure(e) => r == Fail(e)
        case Success(w) => r == Pass && withdrawalRequests == old(withdrawalRequests)[(club, id) := w]
      ensures r.Fail? ==> unchanged(this)
    {
      if (club, id) !in withdrawalRequests {
        return Fail(WithdrawalNotFound);
      }
      var signed := Sign(withdrawalRequests[(club, id)], approver, config);
      if signed.Failure? {
        return Fail(signed.error);
      }
      withdrawalRequests := withdrawalRequests[(club, id) := signed.value];
      r := Pass;
    }

    /** `execute_withdrawal`: quorum, time lock and balance are independent gates; on
        success the recorded balance drops by exactly the amount and the request
        becomes Executed, so it cannot be executed again. */
    method ExecuteWithdrawal(caller: AccountId, club: ClubId, id: WithdrawalId, now: BlockNumber, transferOk: bool)
      returns (r: Outcome<Error>)
      requires Valid()
      modifies this`withdrawalRequests, this`treasuryBalances
      ensures Valid()
      ensures (club, id) !in old(withdrawalRequests) ==> r == Fail(WithdrawalNotFound)
      ensures (club, id) in old(withdrawalRequests) ==>
        var w := old(withdrawalRequests[(club, id)]);
        && r == (if w.status != Approved then Fail(WithdrawalNotPending)
                 else if now < w.unlockAt then Fail(WithdrawalNotReady)
                 else if old(TreasuryBalance(club)) < w.amount then Fail(InsufficientBalance)
                 else if !transferOk then Fail(TransferFailed)
                 else Pass)
        && (r.Pass? ==>
              && treasuryBalances == old(treasuryBalances)[club := old(TreasuryBalance(club)) - w.amount]
              && withdrawalRequests == old(withdrawalRequests)[(club, id) := w.(status := Executed)])
      ensures r.Pass? ==> (club, id) in old(withdrawalRequests) && old(withdrawalRequests[(club, id)]).status == Approved
      ensures r.Pass? ==> config.minSignatures <= |withdrawalRequests[(club, id)].signatures|
      ensures r.Fail? ==> unchanged(this)
    {
      if (club, id) !in withdrawalRequests {
        return Fail(WithdrawalNotFound);
      }
      var w := withdrawalRequests[(club, id)];
      if w.status != Approved {
        return Fail(WithdrawalNotPending);
      }
      if now < w.unlockAt {
        return Fail(WithdrawalNotReady);
      }
      var balance := TreasuryBalance(club);
      if balance < w.amount {
        return Fail(InsufficientBalance);
      }
      if !transferOk {
        return Fail(TransferFailed);
      }
      treasuryBalances := treasuryBalances[club := SaturatingSub(balance, w.amount)];
      withdrawalRequests := withdrawalRequests[(club, id) := w.(status := Executed)];
      r := Pass;
    }

    /** `open_contribution_cycle`: refused while the club has an active cycle;
        otherwise allocates the next cycle id, opens it from `now` for the given or
        default period with the given or default minimum, and makes it active. */
    method OpenContributionCycle(caller: AccountId, club: ClubId, period: Option<BlockNumber>,
                                 minimum: Option<Balance>, now: BlockNumber) returns (r: Outcome<Error>)
      requires Valid()
      modifies this`contributionCycles, this`activeCycle, this`cycleCount, this`contributors
      ensures Valid()
      ensures r == if club in old(activeCycle) then Fail(CycleNotClosed) else Pass
      ensures r.Fail? ==> unchanged(this)
      ensures r.Pass? ==>
        var id := old(CountOf(cycleCount, club));
        && cycleCount == old(cycleCount)[club := SaturatingAdd(id, 1, U64_MAX)]
        && contributionCycles == old(contributionCycles)[(club, id) :=
             ContributionCycle(id, club, now,
                               SaturatingAdd(now, period.GetOr(config.defaultContributionPeriod), U32_MAX),
                               0, 0, Open, minimum.GetOr(config.minContribution))]
        && activeCycle == old(activeCycle)[club := id]
        && (id < U64_MAX ==> (club, id) !in old(contributionCycles))
    {
      if club in activeCycle {
        return Fail(CycleNotClosed);
      }
      var id := CountOf(cycleCount, club);
      var endBlock := SaturatingAdd(now, period.GetOr(config.defaultContributionPeriod), U32_MAX);
      var cycle := ContributionCycle(id, club, now, endBlock, 0, 0, Open, minimum.GetOr(config.minContribution));
      FreshCycleId(contributionCycles, activeCycle, cycleCount, club);
      OpenKeepsCycles(contributionCycles, activeCycle, cycleCount, club, cycle);
      OpenKeepsLedger(contributions, contributors, contributionCycles, (club, id), cycle);
      cycleCount := cycleCount[club := SaturatingAdd(id, 1, U64_MAX)];
      contributionCycles := contributionCycles[(club, id) := cycle];
      activeCycle := activeCycle[club := id];
      contributors := contributors[(club, id) := []];
      r := Pass;
    }

    /** `contribute`: into the club's active cycle while its window is open and at
        least its minimum. The contributor's record (created on the first
        contribution), the cycle's total and the treasury balance each rise by
        `amount`, saturating. */
    method Contribute(contributor: AccountId, club: ClubId, amount: Balance, now: BlockNumber, transferOk: bool)
      returns (r: Outcome<Error>)
      requires Valid()
      modifies this`contributions, this`contributionCycles, this`treasuryBalances, this`contributors
      ensures Valid()
      ensures club !in activeCycle ==> r == Fail(CycleNotFound)
      ensures club in activeCycle ==>
        var id := activeCycle[club];
        var key := (club, id, contributor);
        var cycle := old(contributionCycles[(club, id)]);
        && cycle.status == Open
        && r == (if cycle.endBlock < now then Fail(CycleNotOpen)
                 else if amount < cycle.minimumContribution then Fail(ContributionBelowMinimum)
                 else if !transferOk then Fail(TransferFailed)
                 else Pass)
        && (r.Pass? ==>
              && contributions == old(contributions)[key := CreditedRecord(old(contributions), key, amount, now)]
              && contributionCycles == old(contributionCycles)[(club, id) :=
                   cycle.(totalContributions := SaturatingAdd(cycle.totalContributions, amount, U128_MAX))]
              && treasuryBalances == old(treasuryBalances)[club := SaturatingAdd(old(TreasuryBalance(club)), amount, U128_MAX)])
      ensures r.Fail? ==> unchanged(this)
    {
      if club !in activeCycle {
        return Fail(CycleNotFound);
      }
      var id := activeCycle[club];
      // The lookup of the cycle and its status check cannot fail: the cycle
      // invariant ties the active pointer to a stored Open cycle.
      assert (club, id) in contributionCycles;
      assert CycleWellFormed((club, id), contributionCycles[(club, id)], activeCycle, cycleCount);
      var cycle := contributionCycles[(club, id)];
      if cycle.endBlock < now {
        return Fail(CycleNotOpen);
      }
      if amount < cycle.minimumContribution {
        return Fail(ContributionBelowMinimum);
      }
      if !transferOk {
        return Fail(TransferFailed);
      }
      RecordContribution(contributor, club, id, amount, now);
      treasuryBalances := treasuryBalances[club := SaturatingAdd(TreasuryBalance(club), amount, U128_MAX)];
      r := Pass;
    }

    /** The ledger writes of a successful `contribute` into the cycle `(club, id)`. */
    method RecordContribution(contributor: AccountId, club: ClubId, id: CycleId, amount: Balance, now: BlockNumber)
      requires CyclesInvariant(contributionCycles, activeCycle, cycleCount)
      requires LedgerInvariant(contributions, contributors, contributionCycles)
      requires (club, id) in contributionCycles
      modifies this`contributions, this`contributionCycles, this`contributors
      ensures CyclesInvariant(contributionCycles, activeCycle, cycleCount)
      ensures LedgerInvariant(contributions, contributors, contributionCycles)
      ensures var key := (club, id, contributor);
        contributions == old(contributions)[key := CreditedRecord(old(contributions), key, amount, now)]
      ensures var cycle := old(contributionCycles[(club, id)]);
        contributionCycles == old(contributionCycles)[(club, id) :=
          cycle.(totalContributions := SaturatingAdd(cycle.totalContributions, amount, U128_MAX))]
    {
      var cycle := contributionCycles[(club, id)];
      var key := (club, id, contributor);
      var record := CreditedRecord(contributions, key, amount, now);
      var total := SaturatingAdd(cycle.totalContributions, amount, U128_MAX);
      // A first contribution appends the contributor to the cycle's ledger.
      ghost var contributors' := if key in contributions then contributors
                                 else contributors[(club, id) := contributors[(club, id)] + [contributor]];
      ContributeKeepsLedger(contributions, contributors, contributionCycles, (club, id), contributor, amount,
                            record, contributors', total);
      assert CycleWellFormed((club, id), cycle, activeCycle, cycleCount);
      UpdateKeepsCycles(contributionCycles, activeCycle, cycleCount, (club, id), cycle.(totalContributions := total));
      contributions := contributions[key := record];
      contributors := contributors';
      contributionCycles := contributionCycles[(club, id) := cycle.(totalContributions := total)];
    }

    /** `close_cycle`: the active cycle closes once its window has passed; the club
        then has no active cycle and can open the next one. */
    method CloseCycle(caller: AccountId, club: ClubId, now: BlockNumber) returns (r: Outcome<Error>)
      requires Valid()
      modifies this`contributionCycles, this`activeCycle
      ensures Valid()
      ensures club !in old(activeCycle) ==> r == Fail(CycleNotFound)
      ensures club in old(activeCycle) ==>
        var key := (club, old(activeCycle[club]));
        var cycle := old(contributionCycles[key]);
        && cycle.status == Open
        && r == (if now <= cycle.endBlock then Fail(CycleNotClosed) else Pass)
        && (r.Pass? ==>
              && contributionCycles == old(contributionCycles)[key := cycle.(status := Closed)]
              && activeCycle == old(activeCycle) - {club})
      ensures r.Fail? ==> unchanged(this)
    {
      if club !in activeCycle {
        return Fail(CycleNotFound);
      }
      var key := (club, activeCycle[club]);
      // As in `contribute`, the stored cycle exists and is Open.
      CloseKeepsCycles(contributionCycles, activeCycle, cycleCount, club);
      assert CycleWellFormed(key, contributionCycles[key], activeCycle, cycleCount);
      var cycle := contributionCycles[key];
      if now <= cycle.endBlock {
        return Fail(CycleNotClosed);
      }
      UpdateKeepsLedger(contributions, contributors, contributionCycles, key, cycle.(status := Closed));
      contributionCycles := contributionCycles[key := cycle.(status := Closed)];
      activeCycle := activeCycle - {club};
      r := Pass;
    }

    /** `distribute_returns`: records the returns of a Closed cycle and marks it
        Distributed. No funds move here; contributors pull their shares with
        `claim_returns`. */
    method DistributeReturns(caller: AccountId, club: ClubId, id: CycleId, returnAmount: Balance)
      returns (r: Outcome<Error>)
      requires Valid()
      modifies this`contributionCycles
      ensures Valid()
      ensures (club, id) !in old(contributionCycles) ==> r == Fail(CycleNotFound)
      ensures (club, id) in old(contributionCycles) ==>
        var cycle := old(contributionCycles[(club, id)]);
        && r == (if cycle.status != Closed then Fail(CycleNotClosed)
                 else if returnAmount == 0 then Fail(NoReturnsToDistribute)
                 else Pass)
        && (r.Pass? ==>
              contributionCycles == old(contributionCycles)[(club, id) :=
                cycle.(returnAmount := returnAmount, status := Distributed)])
      ensures r.Fail? ==> unchanged(this)
    {
      if (club, id) !in contributionCycles {
        return Fail(CycleNotFound);
      }
      var cycle := contributionCycles[(club, id)];
      if cycle.status != Closed {
        return Fail(CycleNotClosed);
      }
      if returnAmount == 0 {
        return Fail(NoReturnsToDistribute);
      }
      var cycle' := cycle.(returnAmount := returnAmount, status := Distributed);
      assert CycleWellFormed((club, id), cycle, activeCycle, cycleCount);
      UpdateKeepsCycles(contributionCycles, activeCycle, cycleCount, (club, id), cycle');
      UpdateKeepsLedger(contributions, contributors, contributionCycles, (club, id), cycle');
      contributionCycles := contributionCycles[(club, id) := cycle'];
      r := Pass;
    }

    /** `claim_returns`: a contributor of a Distributed cycle is paid
        floor(amount * returns / total) from the treasury; a zero share is refused.
        `share` is what the transfer pays. Nothing records the claim. */
    method ClaimReturns(claimant: AccountId, club: ClubId, id: CycleId, transferOk: bool)
      returns (r: Outcome<Error>, share: Balance)
      requires Valid()
      modifies this`treasuryBalances
      ensures Valid()
      ensures (club, id) !in contributionCycles ==> r == Fail(CycleNotFound)
      ensures (club, id) in contributionCycles ==>
        var cycle := contributionCycles[(club, id)];
        var key := (club, id, claimant);
        && r == (if cycle.status != Distributed then Fail(CycleNotClosed)
                 else if key !in contributions then Fail(CycleNotFound)
                 else if ClaimShare(contributions[key].amount, cycle.returnAmount, cycle.totalContributions) == 0
                 then Fail(NoReturnsToDistribute)
                 else if !transferOk then Fail(TransferFailed)
                 else Pass)
        && (r.Pass? ==>
              && share == ClaimShare(contributions[key].amount, cycle.returnAmount, cycle.totalContributions)
              && treasuryBalances == old(treasuryBalances)[club := SaturatingSub(old(TreasuryBalance(club)), share)]
              && (id < U64_MAX ==> share <= cycle.returnAmount))
      ensures r.Fail? ==> unchanged(this) && share == 0
    {
      share := 0;
      if (club, id) !in contributionCycles {
        return Fail(CycleNotFound), 0;
      }
      var cycle := contributionCycles[(club, id)];
      if cycle.status != Distributed {
        return Fail(CycleNotClosed), 0;
      }
      var key := (club, id, claimant);
      if key !in contributions {
        return Fail(CycleNotFound), 0;
      }
      var owed := ClaimShare(contributions[key].amount, cycle.returnAmount, cycle.totalContributions);
      if owed == 0 {
        return Fail(NoReturnsToDistribute), 0;
      }
      if !transferOk {
        return Fail(TransferFailed), 0;
      }
      if id < U64_MAX {
        ContributionWithinTotal(contributions, contributors, contributionCycles, key);
      }
      treasuryBalances := treasuryBalances[club := SaturatingSub(TreasuryBalance(club), owed)];
      r, share := Pass, owed;
    }
  }

  /** A withdrawal pays out at most once: executing a request again right after a
      successful execution fails whatever the block and the currency do. */
  method ExecuteTwice(p: Pallet, caller: AccountId, club: ClubId, id: WithdrawalId,
                      now: BlockNumber, later: BlockNumber, transferOk: bool)
    returns (first: Outcome<Error>, second: Outcome<Error>)
    requires p.Valid()
    modifies p
    ensures p.Valid()
    ensures first.Pass? ==> second == Fail(WithdrawalNotPending)
  {
    first := p.ExecuteWithdrawal(caller, club, id, now, transferOk);
    second := p.ExecuteWithdrawal(caller, club, id, later, true);
  }

  /** `claim_returns` records no claim: right after a successful claim, the same
      claim succeeds again with the same share and takes it from the balance
      again. */
  method ClaimTwice(p: Pallet, claimant: AccountId, club: ClubId, id: CycleId)
    returns (first: Outcome<Error>, firstShare: Balance, second: Outcome<Error>, secondShare: Balance)
    requires p.Valid()
    modifies p
    ensures p.Valid()
    ensures first.Pass? ==> second.Pass? && secondShare == firstShare
    ensures first.Pass? ==>
      p.treasuryBalances == old(p.treasuryBalances)[club :=
        SaturatingSub(SaturatingSub(old(p.TreasuryBalance(club)), firstShare), firstShare)]
  {
    first, firstShare := p.ClaimReturns(claimant, club, id, true);
    second, secondShare := p.ClaimReturns(claimant, club, id, true);
  }
}
