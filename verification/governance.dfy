/** The club governance pallet: proposals with a voting window, one weighted vote
    per account and proposal, and finalisation by simple majority of aye over nay.
    One class field per storage item; one method per dispatchable. */
module Governance {
  import opened Frame

  type ProposalId = U64
  type ProposalKey = (ClubId, ProposalId)
  type VoteKey = (ClubId, ProposalId, AccountId)

  datatype ProposalType = Investment | Operational | Emergency | Constitutional

  datatype VotingMechanism = SimpleMajority | Quadratic | Conviction | Delegated

  datatype VoteChoice = Aye | Nay | Abstain

  datatype ProposalStatus = Active | Passed | Rejected | Expired | Cancelled

  /** The bounds of the proposal's `BoundedVec<u8, _>` title and description. */
  const MaxTitleLength: nat := 256
  const MaxDescriptionLength: nat := 4096

  datatype Proposal = Proposal(
    id: ProposalId,
    clubId: ClubId,
    proposer: AccountId,
    proposalType: ProposalType,
    votingMechanism: VotingMechanism,
    title: seq<U8>,
    description: seq<U8>,
    deposit: Balance,
    createdAt: BlockNumber,
    votingEnd: BlockNumber,
    status: ProposalStatus,
    ayeVotes: Balance,
    nayVotes: Balance,
    abstainVotes: Balance,
    approvalThreshold: U8)

  datatype Vote = Vote(voter: AccountId, choice: VoteChoice, power: Balance, castAt: BlockNumber)

  datatype Error =
    | ProposalNotFound
    | ProposalNotActive
    | VotingPeriodEnded
    | InsufficientDeposit  // declared, never returned
    | MaxProposalsExceeded
    | InvalidApprovalThreshold
    | AlreadyVoted
    | InvalidVotingDuration
    | ReserveFailed  // an error of the currency pallet's `reserve`, propagated unchanged

  /** The pallet's configuration constants. */
  datatype Config = Config(maxProposalsPerClub: U32, maxVotingDuration: BlockNumber, minProposalDeposit: Balance)

  // ---------------------------------------------------------------------------
  // Proposal records

  /** The weighted tally of one choice. */
  function TallyOf(p: Proposal, choice: VoteChoice): Balance {
    match choice
    case Aye => p.ayeVotes
    case Nay => p.nayVotes
    case Abstain => p.abstainVotes
  }

  /** The proposal after a vote of `weight` for `choice` is counted. */
  function AddVote(p: Proposal, choice: VoteChoice, weight: Balance): (q: Proposal)
    ensures TallyOf(q, choice) == SaturatingAdd(TallyOf(p, choice), weight, U128_MAX)
    ensures forall c :: c != choice ==> TallyOf(q, c) == TallyOf(p, c)
    ensures q.(ayeVotes := p.ayeVotes, nayVotes := p.nayVotes, abstainVotes := p.abstainVotes) == p
  {
    match choice
    case Aye => p.(ayeVotes := SaturatingAdd(p.ayeVotes, weight, U128_MAX))
    case Nay => p.(nayVotes := SaturatingAdd(p.nayVotes, weight, U128_MAX))
    case Abstain => p.(abstainVotes := SaturatingAdd(p.abstainVotes, weight, U128_MAX))
  }

  /** The status `finalize_proposal` gives a proposal from its tallies, computed as
      the source does with saturating sums: no vote at all expires it; otherwise it
      passes exactly when the ayes outweigh the nays. The approval threshold plays
      no part. */
  function Verdict(aye: Balance, nay: Balance, abstain: Balance): (s: ProposalStatus)
    ensures s == Expired <==> aye == 0 && nay == 0 && abstain == 0
    ensures s == Passed <==> nay < aye
    ensures s == Rejected <==> aye <= nay && (0 < nay || 0 < abstain)
  {
    var total := SaturatingAdd(SaturatingAdd(aye, nay, U128_MAX), abstain, U128_MAX);
    if total == 0 then Expired
    else
      var voting := SaturatingAdd(aye, nay, U128_MAX);
      var passed := if voting == 0 then false else nay < aye;
      if passed then Passed else Rejected
  }

  /** `Vec::retain(|x| x != id)`: drops every occurrence of `id` and keeps every
      other element with its multiplicity; `RetainAppend` states that the order is
      kept too. */
  function Retain(ids: seq<ProposalId>, id: ProposalId): (r: seq<ProposalId>)
    ensures multiset(r) == multiset(ids)[id := 0]
    ensures |r| == |ids| - multiset(ids)[id]
    ensures forall x :: x in r <==> x in ids && x != id
    ensures id in ids ==> |r| < |ids|
    ensures id !in ids ==> r == ids
    decreases |ids|
  {
    if ids == [] then []
    else
      var rest := Retain(ids[1..], id);
      var r := if ids[0] == id then rest else [ids[0]] + rest;
      RetainStep(ids, id, rest, r);
      r
  }

  /** One step of `Retain`: the head dropped or kept in front of the retained tail. */
  lemma RetainStep(ids: seq<ProposalId>, id: ProposalId, rest: seq<ProposalId>, r: seq<ProposalId>)
    requires ids != []
    requires multiset(rest) == multiset(ids[1..])[id := 0]
    requires id !in ids[1..] ==> rest == ids[1..]
    requires r == if ids[0] == id then rest else [ids[0]] + rest
    ensures multiset(r) == multiset(ids)[id := 0]
    ensures |r| == |ids| - multiset(ids)[id]
    ensures forall x :: x in r <==> x in ids && x != id
    ensures id in ids ==> |r| < |ids|
    ensures id !in ids ==> r == ids
  {
    assert ids == [ids[0]] + ids[1..];
    assert multiset(ids) == multiset([ids[0]]) + multiset(ids[1..]);
    assert |multiset(r)| == |r| && |multiset(ids)| == |ids|;
    forall x
      ensures x in r <==> x in ids && x != id
    {
      assert x in r <==> x in multiset(r);
    }
  }

  /** `retain` works element by element in order: retaining from a concatenation
      concatenates the retained parts, so every kept id stays where it was
      relative to the others. */
  lemma {:induction false} RetainAppend(xs: seq<ProposalId>, ys: seq<ProposalId>, id: ProposalId)
    ensures Retain(xs + ys, id) == Retain(xs, id) + Retain(ys, id)
    decreases |xs|
  {
    if xs == [] {
      assert xs + ys == ys;
    } else {
      assert (xs + ys)[0] == xs[0] && (xs + ys)[1..] == xs[1..] + ys;
      RetainAppend(xs[1..], ys, id);
      if xs[0] != id {
        assert [xs[0]] + (Retain(xs[1..], id) + Retain(ys, id)) == ([xs[0]] + Retain(xs[1..], id)) + Retain(ys, id);
      }
    }
  }

  // ---------------------------------------------------------------------------
  // Vote bookkeeping

  /** The power `voter` gave to `choice` on proposal `key` (0 without such a vote). */
  function PowerFor(votes: map<VoteKey, Vote>, key: ProposalKey, voter: AccountId, choice: VoteChoice): Balance {
    var k := (key.0, key.1, voter);
    if k in votes && votes[k].choice == choice then votes[k].power else 0
  }

  /** The power `voters` gave to `choice` on proposal `key`, summed without bound. */
  ghost function ChoiceTotal(votes: map<VoteKey, Vote>, key: ProposalKey, voters: seq<AccountId>, choice: VoteChoice): nat
    decreases |voters|
  {
    if voters == [] then 0
    else ChoiceTotal(votes, key, voters[..|voters| - 1], choice) + PowerFor(votes, key, voters[|voters| - 1], choice)
  }

  /** Recording the vote of an account outside `voters` leaves their total alone. */
  lemma {:induction false} ChoiceTotalNewVoter(votes: map<VoteKey, Vote>, key: ProposalKey, voters: seq<AccountId>,
                                               voter: AccountId, v: Vote, choice: VoteChoice)
    requires voter !in voters
    ensures ChoiceTotal(votes[(key.0, key.1, voter) := v], key, voters, choice) == ChoiceTotal(votes, key, voters, choice)
    decreases |voters|
  {
    if voters != [] {
      var init := voters[..|voters| - 1];
      assert voters == init + [voters[|voters| - 1]];
      ChoiceTotalNewVoter(votes, key, init, voter, v, choice);
    }
  }

  /** Recording a vote on another proposal leaves a proposal's totals alone. */
  lemma {:induction false} ChoiceTotalOtherProposal(votes: map<VoteKey, Vote>, key: ProposalKey, voters: seq<AccountId>,
                                                    k: VoteKey, v: Vote, choice: VoteChoice)
    requires (k.0, k.1) != key
    ensures ChoiceTotal(votes[k := v], key, voters, choice) == ChoiceTotal(votes, key, voters, choice)
    decreases |voters|
  {
    if voters != [] {
      ChoiceTotalOtherProposal(votes, key, voters[..|voters| - 1], k, v, choice);
    }
  }

  /** One proposal's voters are listed once each, exactly the accounts with a vote,
      and each tally is the power cast for that choice, clamped at u128::MAX. */
  ghost predicate TallyLedger(votes: map<VoteKey, Vote>, key: ProposalKey, voters: seq<AccountId>, p: Proposal) {
    && NoDuplicates(voters)
    && (forall a :: (key.0, key.1, a) in votes <==> a in voters)
    && (forall c :: TallyOf(p, c) == Min(ChoiceTotal(votes, key, voters, c), U128_MAX))
  }

  /** Casting a new vote keeps the proposal's tally ledger, the voter being appended. */
  lemma VoteKeepsTallyLedger(votes: map<VoteKey, Vote>, key: ProposalKey, voters: seq<AccountId>, p: Proposal,
                             voter: AccountId, choice: VoteChoice, weight: Balance, now: BlockNumber)
    requires TallyLedger(votes, key, voters, p) && (key.0, key.1, voter) !in votes
    ensures TallyLedger(votes[(key.0, key.1, voter) := Vote(voter, choice, weight, now)], key, voters + [voter],
                        AddVote(p, choice, weight))
  {
    var v := Vote(voter, choice, weight, now);
    var votes', voters', q := votes[(key.0, key.1, voter) := v], voters + [voter], AddVote(p, choice, weight);
    AppendKeepsNoDuplicates(voters, voter);
    assert voters'[..|voters'| - 1] == voters;
    forall c
      ensures TallyOf(q, c) == Min(ChoiceTotal(votes', key, voters', c), U128_MAX)
    {
      ChoiceTotalNewVoter(votes, key, voters, voter, v, c);
      var before := ChoiceTotal(votes, key, voters, c);
      assert ChoiceTotal(votes', key, voters', c) == before + PowerFor(votes', key, voter, c);
      if c == choice {
        ClampedAccumulation(before, weight, U128_MAX);
      }
    }
  }

  // ---------------------------------------------------------------------------
  // Storage invariants, stated on the storage values

  /** A `ValueQuery` list of listed proposal ids: the stored list, or empty. */
  function ActiveList(active: map<ClubId, seq<ProposalId>>, club: ClubId): seq<ProposalId> {
    if club in active then active[club] else []
  }

  /** The statuses a proposal listed in `ActiveProposals` can have: finalisation
      unlists Passed and Rejected proposals but leaves Expired ones listed. */
  predicate Listable(s: ProposalStatus) {
    s == Active || s == Expired
  }

  /** A stored proposal sits under its own key with an issued id, passed the
      creation checks, holds the configured deposit, was never cancelled (no call
      cancels) and, while Active, is listed for its club. */
  ghost predicate ProposalWellFormed(k: ProposalKey, p: Proposal, active: map<ClubId, seq<ProposalId>>,
                                     counts: map<ClubId, ProposalId>, config: Config) {
    && p.clubId == k.0
    && p.id == k.1
    && IssuedId(k.1, CountOf(counts, k.0))
    && |p.title| <= MaxTitleLength
    && |p.description| <= MaxDescriptionLength
    && 1 <= p.approvalThreshold <= 100
    && p.createdAt <= p.votingEnd
    && p.deposit == config.minProposalDeposit
    && p.status != Cancelled
    && (p.status == Active ==> k.1 in ActiveList(active, k.0))
  }

  /** Every club lists at most MaxProposalsPerClub ids, each naming a stored
      proposal that is Active or Expired. */
  ghost predicate ListWellFormed(club: ClubId, ids: seq<ProposalId>, proposals: map<ProposalKey, Proposal>,
                                 config: Config) {
    && |ids| <= config.maxProposalsPerClub
    && (forall i :: 0 <= i < |ids| ==> (club, ids[i]) in proposals && Listable(proposals[(club, ids[i])].status))
  }

  ghost predicate ProposalsInvariant(proposals: map<ProposalKey, Proposal>, active: map<ClubId, seq<ProposalId>>,
                                     counts: map<ClubId, ProposalId>, config: Config) {
    && (forall k {:trigger proposals[k]} :: k in proposals ==> ProposalWellFormed(k, proposals[k], active, counts, config))
    && (forall club {:trigger active[club]} :: club in active ==> ListWellFormed(club, active[club], proposals, config))
  }

  /** Every vote belongs to a stored proposal and names its voter; every proposal
      below id u64::MAX keeps its tally ledger (a saturated counter re-issues
      u64::MAX over the stale votes of that id). */
  ghost predicate VotesInvariant(votes: map<VoteKey, Vote>, voters: map<ProposalKey, seq<AccountId>>,
                                 proposals: map<ProposalKey, Proposal>) {
    && (forall k {:trigger votes[k]} :: k in votes ==> (k.0, k.1) in proposals && votes[k].voter == k.2)
    && (forall key :: key in proposals ==> key in voters)
    && (forall key {:trigger voters[key]} :: key in proposals && key in voters && key.1 < U64_MAX ==>
          TallyLedger(votes, key, voters[key], proposals[key]))
  }

  /** The counter's next id is not yet stored, unless the counter is saturated. */
  lemma FreshProposalId(proposals: map<ProposalKey, Proposal>, active: map<ClubId, seq<ProposalId>>,
                        counts: map<ClubId, ProposalId>, config: Config, club: ClubId)
    requires ProposalsInvariant(proposals, active, counts, config)
    ensures CountOf(counts, club) < U64_MAX ==> (club, CountOf(counts, club)) !in proposals
  {
    var key := (club, CountOf(counts, club));
    if key in proposals {
      assert ProposalWellFormed(key, proposals[key], active, counts, config);
    }
  }

  /** Storing a freshly created Active proposal under the next id and listing it
      keeps the proposal invariant. */
  lemma CreateKeepsProposals(proposals: map<ProposalKey, Proposal>, active: map<ClubId, seq<ProposalId>>,
                             counts: map<ClubId, ProposalId>, config: Config, p: Proposal)
    requires ProposalsInvariant(proposals, active, counts, config)
    requires p.id == CountOf(counts, p.clubId)
    requires |ActiveList(active, p.clubId)| < config.maxProposalsPerClub
    requires |p.title| <= MaxTitleLength && |p.description| <= MaxDescriptionLength
    requires 1 <= p.approvalThreshold <= 100 && p.createdAt <= p.votingEnd
    requires p.deposit == config.minProposalDeposit && p.status == Active
    ensures ProposalsInvariant(proposals[(p.clubId, p.id) := p],
                               active[p.clubId := ActiveList(active, p.clubId) + [p.id]],
                               counts[p.clubId := SaturatingAdd(p.id, 1, U64_MAX)], config)
  {
    var club, id := p.clubId, p.id;
    var proposals', active', counts' := proposals[(club, id) := p], active[club := ActiveList(active, club) + [id]],
                                        counts[club := SaturatingAdd(id, 1, U64_MAX)];
    forall k | k in proposals'
      ensures ProposalWellFormed(k, proposals'[k], active', counts', config)
    {
      if k != (club, id) {
        assert ProposalWellFormed(k, proposals[k], active, counts, config);
        assert k.1 in ActiveList(active, k.0) ==> k.1 in ActiveList(active', k.0);
      }
    }
    forall c | c in active'
      ensures ListWellFormed(c, active'[c], proposals', config)
    {
      var ids := active'[c];
      if c == club {
        if club in active {
          assert ListWellFormed(club, active[club], proposals, config);
        }
        forall i | 0 <= i < |ids|
          ensures (c, ids[i]) in proposals' && Listable(proposals'[(c, ids[i])].status)
        {
          if i < |ids| - 1 && ids[i] != id {
            assert ids[i] == active[club][i];
          }
        }
      } else {
        assert ListWellFormed(c, active[c], proposals, config);
      }
    }
  }

  /** A new proposal with zero tallies and no voters keeps the vote invariant. */
  lemma CreateKeepsVotes(votes: map<VoteKey, Vote>, voters: map<ProposalKey, seq<AccountId>>,
                         proposals: map<ProposalKey, Proposal>, key: ProposalKey, p: Proposal)
    requires VotesInvariant(votes, voters, proposals)
    requires key.1 < U64_MAX ==> key !in proposals
    requires p.ayeVotes == 0 && p.nayVotes == 0 && p.abstainVotes == 0
    ensures VotesInvariant(votes, voters[key := []], proposals[key := p])
  {
    if key.1 < U64_MAX {
      assert forall c :: TallyOf(p, c) == 0;
    }
  }

  /** Rewriting a proposal without touching its status or creation fields keeps the
      proposal invariant. */
  lemma UpdateKeepsProposals(proposals: map<ProposalKey, Proposal>, active: map<ClubId, seq<ProposalId>>,
                             counts: map<ClubId, ProposalId>, config: Config, key: ProposalKey, p: Proposal)
    requires ProposalsInvariant(proposals, active, counts, config) && key in proposals
    requires ProposalWellFormed(key, p, active, counts, config) && p.status == proposals[key].status
    ensures ProposalsInvariant(proposals[key := p], active, counts, config)
  {
    forall k | k in proposals
      ensures ProposalWellFormed(k, proposals[k], active, counts, config)
    {
    }
    forall c | c in active
      ensures ListWellFormed(c, active[c], proposals[key := p], config)
    {
      assert ListWellFormed(c, active[c], proposals, config);
    }
  }

  /** Finalising an Active proposal keeps the proposal invariant: an Expired one
      stays listed, a Passed or Rejected one is unlisted. */
  lemma FinalizeKeepsProposals(proposals: map<ProposalKey, Proposal>, active: map<ClubId, seq<ProposalId>>,
                               counts: map<ClubId, ProposalId>, config: Config, key: ProposalKey, s: ProposalStatus)
    requires ProposalsInvariant(proposals, active, counts, config) && key in proposals
    requires proposals[key].status == Active && s != Active && s != Cancelled
    ensures s == Expired ==> ProposalsInvariant(proposals[key := proposals[key].(status := s)], active, counts, config)
    ensures s != Expired ==>
      ProposalsInvariant(proposals[key := proposals[key].(status := s)],
                         active[key.0 := Retain(ActiveList(active, key.0), key.1)], counts, config)
  {
    var p := proposals[key].(status := s);
    var proposals' := proposals[key := p];
    var active' := if s == Expired then active else active[key.0 := Retain(ActiveList(active, key.0), key.1)];
    assert ProposalWellFormed(key, proposals[key], active, counts, config);
    forall k | k in proposals'
      ensures ProposalWellFormed(k, proposals'[k], active', counts, config)
    {
      if k != key {
        assert ProposalWellFormed(k, proposals[k], active, counts, config);
      }
    }
    forall c | c in active'
      ensures ListWellFormed(c, active'[c], proposals', config)
    {
      if c == key.0 && s != Expired {
        var ids := active'[c];
        if c in active {
          assert ListWellFormed(c, active[c], proposals, config);
        }
        forall i | 0 <= i < |ids|
          ensures (c, ids[i]) in proposals' && Listable(proposals'[(c, ids[i])].status)
        {
          assert ids[i] in ActiveList(active, c);
        }
      } else {
        assert ListWellFormed(c, active[c], proposals, config);
      }
    }
  }

  /** Casting a new vote keeps the vote invariant. */
  lemma VoteKeepsVotes(votes: map<VoteKey, Vote>, voters: map<ProposalKey, seq<AccountId>>,
                       proposals: map<ProposalKey, Proposal>, key: ProposalKey, voter: AccountId,
                       choice: VoteChoice, weight: Balance, now: BlockNumber)
    requires VotesInvariant(votes, voters, proposals) && key in proposals && (key.0, key.1, voter) !in votes
    ensures VotesInvariant(votes[(key.0, key.1, voter) := Vote(voter, choice, weight, now)],
                           voters[key := voters[key] + [voter]],
                           proposals[key := AddVote(proposals[key], choice, weight)])
  {
    var k, v := (key.0, key.1, voter), Vote(voter, choice, weight, now);
    var votes', voters', proposals' := votes[k := v], voters[key := voters[key] + [voter]],
                                       proposals[key := AddVote(proposals[key], choice, weight)];
    forall other: ProposalKey | other in proposals' && other in voters' && other.1 < U64_MAX && other != key
      ensures TallyLedger(votes', other, voters'[other], proposals'[other])
    {
      assert TallyLedger(votes, other, voters[other], proposals[other]);
      forall c
        ensures ChoiceTotal(votes', other, voters[other], c) == ChoiceTotal(votes, other, voters[other], c)
      {
        ChoiceTotalOtherProposal(votes, other, voters[other], k, v, c);
      }
    }
    if key.1 < U64_MAX {
      assert TallyLedger(votes, key, voters[key], proposals[key]);
      VoteKeepsTallyLedger(votes, key, voters[key], proposals[key], voter, choice, weight, now);
    }
  }

  /** Rewriting a proposal without touching its tallies keeps the vote invariant. */
  lemma UpdateKeepsVotes(votes: map<VoteKey, Vote>, voters: map<ProposalKey, seq<AccountId>>,
                         proposals: map<ProposalKey, Proposal>, key: ProposalKey, p: Proposal)
    requires VotesInvariant(votes, voters, proposals) && key in proposals
    requires forall c :: TallyOf(p, c) == TallyOf(proposals[key], c)
    ensures VotesInvariant(votes, voters, proposals[key := p])
  {
    if key.1 < U64_MAX {
      assert TallyLedger(votes, key, voters[key], proposals[key]);
    }
  }

  /** While a proposal's tallies have not saturated, each equals the total power
      of the votes recorded for that choice: every account counts once, with the
      weight it voted with. */
  lemma TallyIsRecordedPower(votes: map<VoteKey, Vote>, voters: map<ProposalKey, seq<AccountId>>,
                             proposals: map<ProposalKey, Proposal>, key: ProposalKey, choice: VoteChoice)
    requires VotesInvariant(votes, voters, proposals)
    requires key in proposals && key.1 < U64_MAX && TallyOf(proposals[key], choice) < U128_MAX
    ensures key in voters && NoDuplicates(voters[key])
    ensures TallyOf(proposals[key], choice) == ChoiceTotal(votes, key, voters[key], choice)
  {
    assert TallyLedger(votes, key, voters[key], proposals[key]);
  }

  // ---------------------------------------------------------------------------
  // The pallet's storage and dispatchables

  class Pallet {
    const config: Config

    var proposals: map<ProposalKey, Proposal>
    var votes: map<VoteKey, Vote>
    var proposalCount: map<ClubId, ProposalId>           // ValueQuery
    var activeProposals: map<ClubId, seq<ProposalId>>    // ValueQuery, BoundedVec<_, MaxProposalsPerClub>

    /** For each proposal, its voters in the order they voted. */
    ghost var voters: map<ProposalKey, seq<AccountId>>

    ghost predicate Valid()
      reads this
    {
      && ProposalsInvariant(proposals, activeProposals, proposalCount, config)
      && VotesInvariant(votes, voters, proposals)
    }

    constructor (config: Config)
      ensures Valid() && this.config == config
      ensures proposals == map[] && votes == map[] && proposalCount == map[] && activeProposals == map[]
    {
      this.config := config;
      proposals, votes, proposalCount, activeProposals := map[], map[], map[], map[];
      voters := map[];
    }

    /** `create_proposal`: validates the duration and threshold, reserves the
        deposit, takes the next id and stores an Active proposal with empty tallies,
        listed for its club. The counter write that precedes the capacity and
        length checks is discarded when they fail. */
    method CreateProposal(proposer: AccountId, club: ClubId, proposalType: ProposalType,
                          mechanism: VotingMechanism, title: seq<U8>, description: seq<U8>,
                          duration: BlockNumber, threshold: U8, now: BlockNumber, reserveOk: bool)
      returns (r: Outcome<Error>)
      requires Valid()
      modifies this`proposals, this`proposalCount, this`activeProposals, this`voters
      ensures Valid()
      ensures r == (if config.maxVotingDuration < duration then Fail(InvalidVotingDuration)
                    else if threshold == 0 || 100 < threshold then Fail(InvalidApprovalThreshold)
                    else if !reserveOk then Fail(ReserveFailed)
                    else if config.maxProposalsPerClub <= |old(ActiveList(activeProposals, club))|
                    then Fail(MaxProposalsExceeded)
                    else if MaxTitleLength < |title| || MaxDescriptionLength < |description|
                    then Fail(MaxProposalsExceeded)
                    else Pass)
      ensures r.Fail? ==> unchanged(this)
      ensures r.Pass? ==>
        var id := old(CountOf(proposalCount, club));
        && proposalCount == old(proposalCount)[club := SaturatingAdd(id, 1, U64_MAX)]
        && proposals == old(proposals)[(club, id) :=
             Proposal(id, club, proposer, proposalType, mechanism, title, description, config.minProposalDeposit,
                      now, SaturatingAdd(now, duration, U32_MAX), Active, 0, 0, 0, threshold)]
        && activeProposals == old(activeProposals)[club := old(ActiveList(activeProposals, club)) + [id]]
        && (id < U64_MAX ==> (club, id) !in old(proposals))
    {
      if config.maxVotingDuration < duration {
        return Fail(InvalidVotingDuration);
      }
      if threshold == 0 || 100 < threshold {
        return Fail(InvalidApprovalThreshold);
      }
      if !reserveOk {
        return Fail(ReserveFailed);
      }
      var savedCount := proposalCount;
      var id := CountOf(proposalCount, club);
      proposalCount := proposalCount[club := SaturatingAdd(id, 1, U64_MAX)];
      var listed := ActiveList(activeProposals, club);
      if config.maxProposalsPerClub <= |listed| {
        proposalCount := savedCount;  // discarded with the failed dispatch
        return Fail(MaxProposalsExceeded);
      }
      if MaxTitleLength < |title| || MaxDescriptionLength < |description| {
        proposalCount := savedCount;  // discarded with the failed dispatch
        return Fail(MaxProposalsExceeded);
      }
      var p := Proposal(id, club, proposer, proposalType, mechanism, title, description, config.minProposalDeposit,
                        now, SaturatingAdd(now, duration, U32_MAX), Active, 0, 0, 0, threshold);
      // The push onto the bounded list cannot fail: its length was checked above.
      FreshProposalId(proposals, activeProposals, savedCount, config, club);
      CreateKeepsProposals(proposals, activeProposals, savedCount, config, p);
      CreateKeepsVotes(votes, voters, proposals, (club, id), p);
      proposals := proposals[(club, id) := p];
      activeProposals := activeProposals[club := listed + [id]];
      voters := voters[(club, id) := []];
      r := Pass;
    }

    /** `vote`: one vote per account on an Active proposal within its window. Every
        voting mechanism weighs the vote by the voter's free balance; the vote is
        recorded and the chosen tally rises by that weight (saturating). */
    method CastVote(voter: AccountId, club: ClubId, id: ProposalId, choice: VoteChoice, now: BlockNumber,
                    freeBalance: Balance) returns (r: Outcome<Error>)
      requires Valid()
      modifies this`proposals, this`votes, this`voters
      ensures Valid()
      ensures (club, id) !in old(proposals) ==> r == Fail(ProposalNotFound)
      ensures (club, id) in old(proposals) ==>
        var p := old(proposals[(club, id)]);
        && r == (if p.status != Active then Fail(ProposalNotActive)
                 else if p.votingEnd < now then Fail(VotingPeriodEnded)
                 else if (club, id, voter) in old(votes) then Fail(AlreadyVoted)
                 else Pass)
        && (r.Pass? ==>
              && votes == old(votes)[(club, id, voter) := Vote(voter, choice, freeBalance, now)]
              && proposals == old(proposals)[(club, id) := AddVote(p, choice, freeBalance)])
      ensures r.Fail? ==> unchanged(this)
    {
      if (club, id) !in proposals {
        return Fail(ProposalNotFound);
      }
      var p := proposals[(club, id)];
      if p.status != Active {
        return Fail(ProposalNotActive);
      }
      if p.votingEnd < now {
        return Fail(VotingPeriodEnded);
      }
      if (club, id, voter) in votes {
        return Fail(AlreadyVoted);
      }
      // SimpleMajority, Quadratic, Conviction and Delegated all weigh by free balance.
      var weight := freeBalance;
      var p' := AddVote(p, choice, weight);
      assert ProposalWellFormed((club, id), p, activeProposals, proposalCount, config);
      UpdateKeepsProposals(proposals, activeProposals, proposalCount, config, (club, id), p');
      VoteKeepsVotes(votes, voters, proposals, (club, id), voter, choice, weight, now);
      votes := votes[(club, id, voter) := Vote(voter, choice, weight, now)];
      voters := voters[(club, id) := voters[(club, id)] + [voter]];
      proposals := proposals[(club, id) := p'];
      r := Pass;
    }

    /** `finalize_proposal`: once the window has passed, an Active proposal gets its
        `Verdict`. A Passed or Rejected proposal leaves the club's active list; an
        Expired one returns before that step and stays listed. */
    method FinalizeProposal(caller: AccountId, club: ClubId, id: ProposalId, now: BlockNumber)
      returns (r: Outcome<Error>)
      requires Valid()
      modifies this`proposals, this`activeProposals
      ensures Valid()
      ensures (club, id) !in old(proposals) ==> r == Fail(ProposalNotFound)
      ensures (club, id) in old(proposals) ==>
        var p := old(proposals[(club, id)]);
        var s := Verdict(p.ayeVotes, p.nayVotes, p.abstainVotes);
        && r == (if p.status != Active then Fail(ProposalNotActive)
                 else if now <= p.votingEnd then Fail(VotingPeriodEnded)
                 else Pass)
        && (r.Pass? ==>
              && proposals == old(proposals)[(club, id) := p.(status := s)]
              && activeProposals == (if s == Expired then old(activeProposals)
                                     else old(activeProposals)[club := Retain(old(ActiveList(activeProposals, club)), id)])
              && (s != Expired ==> id !in ActiveList(activeProposals, club))
              && (s == Expired ==> id in ActiveList(activeProposals, club)))
      ensures r.Fail? ==> unchanged(this)
    {
      if (club, id) !in proposals {
        return Fail(ProposalNotFound);
      }
      var p := proposals[(club, id)];
      if p.status != Active {
        return Fail(ProposalNotActive);
      }
      if now <= p.votingEnd {
        return Fail(VotingPeriodEnded);
      }
      RecordVerdict(club, id, Verdict(p.ayeVotes, p.nayVotes, p.abstainVotes));
      r := Pass;
    }

    /** The writes of a successful `finalize_proposal`: the verdict stored and, unless
        it is Expired, the id retained out of the club's active list. */
    method RecordVerdict(club: ClubId, id: ProposalId, s: ProposalStatus)
      requires Valid()
      requires (club, id) in proposals && proposals[(club, id)].status == Active && s != Active
      requires s != Cancelled
      modifies this`proposals, this`activeProposals
      ensures Valid()
      ensures proposals == old(proposals)[(club, id) := old(proposals[(club, id)]).(status := s)]
      ensures activeProposals == (if s == Expired then old(activeProposals)
                                  else old(activeProposals)[club := Retain(old(ActiveList(activeProposals, club)), id)])
      ensures s != Expired ==> id !in ActiveList(activeProposals, club)
      ensures s == Expired ==> id in ActiveList(activeProposals, club)
    {
      var p := proposals[(club, id)];
      assert ProposalWellFormed((club, id), p, activeProposals, proposalCount, config);
      FinalizeKeepsProposals(proposals, activeProposals, proposalCount, config, (club, id), s);
      UpdateKeepsVotes(votes, voters, proposals, (club, id), p.(status := s));
      proposals := proposals[(club, id) := p.(status := s)];
      if s != Expired {
        activeProposals := activeProposals[club := Retain(ActiveList(activeProposals, club), id)];
      }
    }
  }

  /** Finalisation is final: once a proposal is finalised, a later vote on it and a
      later finalisation of it both fail with ProposalNotActive. */
  method FinalizeIsFinal(p: Pallet, caller: AccountId, voter: AccountId, club: ClubId, id: ProposalId,
                         choice: VoteChoice, now: BlockNumber, later: BlockNumber, freeBalance: Balance)
    returns (finalized: Outcome<Error>, voted: Outcome<Error>, again: Outcome<Error>)
    requires p.Valid()
    modifies p`proposals, p`votes, p`voters, p`activeProposals
    ensures finalized.Pass? ==> voted == Fail(ProposalNotActive) && again == Fail(ProposalNotActive)
  {
    finalized := p.FinalizeProposal(caller, club, id, now);
    voted := p.CastVote(voter, club, id, choice, later, freeBalance);
    again := p.FinalizeProposal(caller, club, id, later);
  }
}
