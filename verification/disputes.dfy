/** The club disputes pallet: a dispute between an initiator and a subject, one
    piece of evidence and one vote per account, and resolution by counting votes.
    One class field per storage item; one method per dispatchable. */
module Disputes {
  import opened Frame

  type DisputeId = U64
  type DisputeKey = (ClubId, DisputeId)
  type AccountKey = (ClubId, DisputeId, AccountId)

  datatype DisputeStatus = Open | InMediation | InArbitration | Resolved | Closed

  datatype VoteChoice = FavorInitiator | FavorSubject | Abstain

  /** The bounds of the `BoundedVec<u8, _>` dispute and evidence descriptions. */
  const MaxDescriptionLength: nat := 1024
  const MaxEvidenceLength: nat := 2048

  datatype Dispute = Dispute(
    id: DisputeId,
    clubId: ClubId,
    initiator: AccountId,
    subject: AccountId,
    description: seq<U8>,
    status: DisputeStatus,
    createdAt: BlockNumber,
    resolvedAt: Option<BlockNumber>,
    favorInitiatorVotes: U32,
    favorSubjectVotes: U32,
    abstainVotes: U32)

  datatype Evidence = Evidence(submitter: AccountId, description: seq<U8>, submittedAt: BlockNumber)

  datatype DisputeVote = DisputeVote(voter: AccountId, choice: VoteChoice, castAt: BlockNumber)

  datatype Error =
    | DisputeNotFound
    | InvalidDispute
    | DisputeNotOpen
    | AlreadyVoted
    | EvidenceAlreadySubmitted
    | DisputeNotResolvable

  /** The two parties a resolution can favour. */
  datatype Party = Initiator | Subject

  // ---------------------------------------------------------------------------
  // Dispute records

  /** Evidence is accepted while the dispute is Open or InMediation. */
  predicate AcceptsEvidence(s: DisputeStatus) {
    s == Open || s == InMediation
  }

  /** Votes and resolution are accepted while the dispute is Open or InArbitration. */
  predicate AcceptsVotes(s: DisputeStatus) {
    s == Open || s == InArbitration
  }

  /** The vote count of one choice. */
  function TallyOf(d: Dispute, choice: VoteChoice): U32 {
    match choice
    case FavorInitiator => d.favorInitiatorVotes
    case FavorSubject => d.favorSubjectVotes
    case Abstain => d.abstainVotes
  }

  /** The dispute after one more vote for `choice`: that count `+= 1`, which the
      caller keeps below u32::MAX. */
  function AddBallot(d: Dispute, choice: VoteChoice): (e: Dispute)
    requires TallyOf(d, choice) < U32_MAX
    ensures TallyOf(e, choice) == TallyOf(d, choice) + 1
    ensures forall c :: c != choice ==> TallyOf(e, c) == TallyOf(d, c)
    ensures e.(favorInitiatorVotes := d.favorInitiatorVotes, favorSubjectVotes := d.favorSubjectVotes,
               abstainVotes := d.abstainVotes) == d
  {
    match choice
    case FavorInitiator => d.(favorInitiatorVotes := d.favorInitiatorVotes + 1)
    case FavorSubject => d.(favorSubjectVotes := d.favorSubjectVotes + 1)
    case Abstain => d.(abstainVotes := d.abstainVotes + 1)
  }

  /** Whether `resolve_dispute` finds votes to count: their saturating u32 sum is
      non-zero exactly when some count is. */
  function HasVotes(d: Dispute): (b: bool)
    ensures b <==> 0 < d.favorInitiatorVotes || 0 < d.favorSubjectVotes || 0 < d.abstainVotes
  {
    var total := SaturatingAdd(SaturatingAdd(d.favorInitiatorVotes, d.favorSubjectVotes, U32_MAX),
                               d.abstainVotes, U32_MAX);
    0 < total
  }

  /** The party a resolution favours: the initiator with strictly more votes than
      the subject; the subject otherwise, ties included. Abstentions do not count. */
  function Winner(favorInitiator: U32, favorSubject: U32): (p: Party)
    ensures p == Initiator <==> favorSubject < favorInitiator
    ensures p == Subject <==> favorInitiator <= favorSubject
  {
    if favorInitiator > favorSubject then Initiator
    else if favorSubject > favorInitiator then Subject
    else Subject
  }

  function AccountOf(d: Dispute, p: Party): AccountId {
    match p
    case Initiator => d.initiator
    case Subject => d.subject
  }

  // ---------------------------------------------------------------------------
  // Ballot bookkeeping

  /** 1 when `voter` voted `choice` on dispute `key`, 0 otherwise. */
  function BallotFor(votes: map<AccountKey, DisputeVote>, key: DisputeKey, voter: AccountId, choice: VoteChoice): nat {
    var k := (key.0, key.1, voter);
    if k in votes && votes[k].choice == choice then 1 else 0
  }

  /** How many of `voters` voted `choice` on dispute `key`. */
  ghost function BallotCount(votes: map<AccountKey, DisputeVote>, key: DisputeKey, voters: seq<AccountId>,
                             choice: VoteChoice): nat
    decreases |voters|
  {
    if voters == [] then 0
    else BallotCount(votes, key, voters[..|voters| - 1], choice) + BallotFor(votes, key, voters[|voters| - 1], choice)
  }

  /** A ballot outside `voters` leaves their count alone. */
  lemma {:induction false} BallotCountNewVoter(votes: map<AccountKey, DisputeVote>, key: DisputeKey,
                                               voters: seq<AccountId>, voter: AccountId, v: DisputeVote,
                                               choice: VoteChoice)
    requires voter !in voters
    ensures BallotCount(votes[(key.0, key.1, voter) := v], key, voters, choice) == BallotCount(votes, key, voters, choice)
    decreases |voters|
  {
    if voters != [] {
      var init := voters[..|voters| - 1];
      assert voters == init + [voters[|voters| - 1]];
      BallotCountNewVoter(votes, key, init, voter, v, choice);
    }
  }

  /** A ballot on another dispute leaves a dispute's counts alone. */
  lemma {:induction false} BallotCountOtherDispute(votes: map<AccountKey, DisputeVote>, key: DisputeKey,
                                                   voters: seq<AccountId>, k: AccountKey, v: DisputeVote,
                                                   choice: VoteChoice)
    requires (k.0, k.1) != key
    ensures BallotCount(votes[k := v], key, voters, choice) == BallotCount(votes, key, voters, choice)
    decreases |voters|
  {
    if voters != [] {
      BallotCountOtherDispute(votes, key, voters[..|voters| - 1], k, v, choice);
    }
  }

  /** One dispute's voters are listed once each, exactly the accounts with a vote,
      and each count is the number of votes for that choice. */
  ghost predicate BallotLedger(votes: map<AccountKey, DisputeVote>, key: DisputeKey, voters: seq<AccountId>,
                               d: Dispute) {
    && NoDuplicates(voters)
    && (forall a :: (key.0, key.1, a) in votes <==> a in voters)
    && (forall c :: TallyOf(d, c) == BallotCount(votes, key, voters, c))
  }

  /** A new ballot keeps the dispute's ballot ledger, the voter being appended. */
  lemma BallotKeepsLedger(votes: map<AccountKey, DisputeVote>, key: DisputeKey, voters: seq<AccountId>, d: Dispute,
                          voter: AccountId, choice: VoteChoice, now: BlockNumber)
    requires BallotLedger(votes, key, voters, d) && (key.0, key.1, voter) !in votes
    requires TallyOf(d, choice) < U32_MAX
    ensures BallotLedger(votes[(key.0, key.1, voter) := DisputeVote(voter, choice, now)], key, voters + [voter],
                         AddBallot(d, choice))
  {
    var v := DisputeVote(voter, choice, now);
    var votes', voters', e := votes[(key.0, key.1, voter) := v], voters + [voter], AddBallot(d, choice);
    AppendKeepsNoDuplicates(voters, voter);
    assert voters'[..|voters'| - 1] == voters;
    forall c
      ensures TallyOf(e, c) == BallotCount(votes', key, voters', c)
    {
      BallotCountNewVoter(votes, key, voters, voter, v, c);
    }
  }

  // ---------------------------------------------------------------------------
  // Storage invariants, stated on the storage values

  /** A stored dispute sits under its own key with an issued id and a bounded
      description; only Open and Resolved are reachable (no call enters the other
      statuses), and it carries a resolution block exactly when Resolved. */
  ghost predicate DisputeWellFormed(k: DisputeKey, d: Dispute, counts: map<ClubId, DisputeId>) {
    && d.clubId == k.0
    && d.id == k.1
    && IssuedId(k.1, CountOf(counts, k.0))
    && |d.description| <= MaxDescriptionLength
    && (d.status == Open || d.status == Resolved)
    && (d.status == Resolved <==> d.resolvedAt.Some?)
  }

  ghost predicate DisputesInvariant(disputes: map<DisputeKey, Dispute>, counts: map<ClubId, DisputeId>) {
    forall k {:trigger disputes[k]} :: k in disputes ==> DisputeWellFormed(k, disputes[k], counts)
  }

  /** Evidence belongs to a stored dispute, names its submitter and is bounded. */
  ghost predicate EvidenceInvariant(evidence: map<AccountKey, Evidence>, disputes: map<DisputeKey, Dispute>) {
    forall k {:trigger evidence[k]} :: k in evidence ==>
      && (k.0, k.1) in disputes
      && evidence[k].submitter == k.2
      && |evidence[k].description| <= MaxEvidenceLength
  }

  /** Every vote belongs to a stored dispute and names its voter; every dispute
      below id u64::MAX keeps its ballot ledger (a saturated counter re-issues
      u64::MAX over the stale votes of that id). */
  ghost predicate BallotsInvariant(votes: map<AccountKey, DisputeVote>, voters: map<DisputeKey, seq<AccountId>>,
                                   disputes: map<DisputeKey, Dispute>) {
    && (forall k {:trigger votes[k]} :: k in votes ==> (k.0, k.1) in disputes && votes[k].voter == k.2)
    && (forall key :: key in disputes ==> key in voters)
    && (forall key {:trigger voters[key]} :: key in disputes && key in voters && key.1 < U64_MAX ==>
          BallotLedger(votes, key, voters[key], disputes[key]))
  }

  /** The counter's next id is not yet stored, unless the counter is saturated. */
  lemma FreshDisputeId(disputes: map<DisputeKey, Dispute>, counts: map<ClubId, DisputeId>, club: ClubId)
    requires DisputesInvariant(disputes, counts)
    ensures CountOf(counts, club) < U64_MAX ==> (club, CountOf(counts, club)) !in disputes
  {
    var key := (club, CountOf(counts, club));
    if key in disputes {
      assert DisputeWellFormed(key, disputes[key], counts);
    }
  }

  /** Storing an Open dispute under the next id keeps the dispute invariant. */
  lemma OpenKeepsDisputes(disputes: map<DisputeKey, Dispute>, counts: map<ClubId, DisputeId>, d: Dispute)
    requires DisputesInvariant(disputes, counts)
    requires d.id == CountOf(counts, d.clubId) && |d.description| <= MaxDescriptionLength
    requires d.status == Open && d.resolvedAt == None
    ensures DisputesInvariant(disputes[(d.clubId, d.id) := d], counts[d.clubId := SaturatingAdd(d.id, 1, U64_MAX)])
  {
    var counts' := counts[d.clubId := SaturatingAdd(d.id, 1, U64_MAX)];
    forall k | k in disputes
      ensures DisputeWellFormed(k, disputes[k], counts')
    {
      assert DisputeWellFormed(k, disputes[k], counts);
    }
  }

  /** A new dispute with zero counts and no voters keeps the ballot invariant. */
  lemma OpenKeepsBallots(votes: map<AccountKey, DisputeVote>, voters: map<DisputeKey, seq<AccountId>>,
                         disputes: map<DisputeKey, Dispute>, key: DisputeKey, d: Dispute)
    requires BallotsInvariant(votes, voters, disputes)
    requires key.1 < U64_MAX ==> key !in disputes
    requires d.favorInitiatorVotes == 0 && d.favorSubjectVotes == 0 && d.abstainVotes == 0
    ensures BallotsInvariant(votes, voters[key := []], disputes[key := d])
  {
    if key.1 < U64_MAX {
      assert forall c :: TallyOf(d, c) == 0;
    }
  }

  /** Rewriting a dispute into another well-formed one keeps the dispute invariant. */
  lemma UpdateKeepsDisputes(disputes: map<DisputeKey, Dispute>, counts: map<ClubId, DisputeId>, key: DisputeKey,
                            d: Dispute)
    requires DisputesInvariant(disputes, counts) && DisputeWellFormed(key, d, counts)
    ensures DisputesInvariant(disputes[key := d], counts)
  {
  }

  /** A new ballot keeps the ballot invariant. */
  lemma BallotKeepsBallots(votes: map<AccountKey, DisputeVote>, voters: map<DisputeKey, seq<AccountId>>,
                           disputes: map<DisputeKey, Dispute>, key: DisputeKey, voter: AccountId,
                           choice: VoteChoice, now: BlockNumber)
    requires BallotsInvariant(votes, voters, disputes) && key in disputes && (key.0, key.1, voter) !in votes
    requires TallyOf(disputes[key], choice) < U32_MAX
    ensures BallotsInvariant(votes[(key.0, key.1, voter) := DisputeVote(voter, choice, now)],
                             voters[key := voters[key] + [voter]],
                             disputes[key := AddBallot(disputes[key], choice)])
  {
    var k, v := (key.0, key.1, voter), DisputeVote(voter, choice, now);
    var votes', voters', disputes' := votes[k := v], voters[key := voters[key] + [voter]],
                                      disputes[key := AddBallot(disputes[key], choice)];
    forall other: DisputeKey | other in disputes' && other in voters' && other.1 < U64_MAX && other != key
      ensures BallotLedger(votes', other, voters'[other], disputes'[other])
    {
      assert BallotLedger(votes, other, voters[other], disputes[other]);
      forall c
        ensures BallotCount(votes', other, voters[other], c) == BallotCount(votes, other, voters[other], c)
      {
        BallotCountOtherDispute(votes, other, voters[other], k, v, c);
      }
    }
    if key.1 < U64_MAX {
      assert BallotLedger(votes, key, voters[key], disputes[key]);
      BallotKeepsLedger(votes, key, voters[key], disputes[key], voter, choice, now);
    }
  }

  /** Rewriting a dispute without touching its counts keeps the ballot invariant. */
  lemma UpdateKeepsBallots(votes: map<AccountKey, DisputeVote>, voters: map<DisputeKey, seq<AccountId>>,
                           disputes: map<DisputeKey, Dispute>, key: DisputeKey, d: Dispute)
    requires BallotsInvariant(votes, voters, disputes) && key in disputes
    requires forall c :: TallyOf(d, c) == TallyOf(disputes[key], c)
    ensures BallotsInvariant(votes, voters, disputes[key := d])
  {
    if key.1 < U64_MAX {
      assert BallotLedger(votes, key, voters[key], disputes[key]);
    }
  }

  /** Each count of a dispute is the number of accounts that voted that way, each
      account counted once. */
  lemma CountIsBallots(votes: map<AccountKey, DisputeVote>, voters: map<DisputeKey, seq<AccountId>>,
                       disputes: map<DisputeKey, Dispute>, key: DisputeKey, choice: VoteChoice)
    requires BallotsInvariant(votes, voters, disputes) && key in disputes && key.1 < U64_MAX
    ensures key in voters && NoDuplicates(voters[key])
    ensures forall a :: (key.0, key.1, a) in votes <==> a in voters[key]
    ensures TallyOf(disputes[key], choice) == BallotCount(votes, key, voters[key], choice)
  {
    assert BallotLedger(votes, key, voters[key], disputes[key]);
  }

  // ---------------------------------------------------------------------------
  // The pallet's storage and dispatchables

  class Pallet {
    var disputes: map<DisputeKey, Dispute>
    var disputeCount: map<ClubId, DisputeId>       // ValueQuery
    var evidence: map<AccountKey, Evidence>
    var disputeVotes: map<AccountKey, DisputeVote>

    /** For each dispute, its voters in the order they voted. */
    ghost var voters: map<DisputeKey, seq<AccountId>>

    ghost predicate Valid()
      reads this
    {
      && DisputesInvariant(disputes, disputeCount)
      && EvidenceInvariant(evidence, disputes)
      && BallotsInvariant(disputeVotes, voters, disputes)
    }

    constructor ()
      ensures Valid()
      ensures disputes == map[] && disputeCount == map[] && evidence == map[] && disputeVotes == map[]
    {
      disputes, disputeCount, evidence, disputeVotes := map[], map[], map[], map[];
      voters := map[];
    }

    /** `open_dispute`: takes the next id and stores an Open dispute with no votes.
        The counter write precedes the description bound check; when that fails the
        write is discarded with the dispatch. */
    method OpenDispute(initiator: AccountId, club: ClubId, subject: AccountId, description: seq<U8>,
                       now: BlockNumber) returns (r: Outcome<Error>)
      requires Valid()
      modifies this`disputes, this`disputeCount, this`voters
      ensures Valid()
      ensures r == if MaxDescriptionLength < |description| then Fail(InvalidDispute) else Pass
      ensures r.Fail? ==> unchanged(this)
      ensures r.Pass? ==>
        var id := old(CountOf(disputeCount, club));
        && disputeCount == old(disputeCount)[club := SaturatingAdd(id, 1, U64_MAX)]
        && disputes == old(disputes)[(club, id) :=
             Dispute(id, club, initiator, subject, description, Open, now, None, 0, 0, 0)]
        && (id < U64_MAX ==> (club, id) !in old(disputes))
    {
      var savedCount := disputeCount;
      var id := CountOf(disputeCount, club);
      disputeCount := disputeCount[club := SaturatingAdd(id, 1, U64_MAX)];
      if MaxDescriptionLength < |description| {
        disputeCount := savedCount;  // discarded with the failed dispatch
        return Fail(InvalidDispute);
      }
      var d := Dispute(id, club, initiator, subject, description, Open, now, None, 0, 0, 0);
      FreshDisputeId(disputes, savedCount, club);
      OpenKeepsDisputes(disputes, savedCount, d);
      OpenKeepsBallots(disputeVotes, voters, disputes, (club, id), d);
      disputes := disputes[(club, id) := d];
      voters := voters[(club, id) := []];
      r := Pass;
    }

    /** `submit_evidence`: one bounded piece of evidence per account while the
        dispute is Open or InMediation; earlier evidence is never overwritten. */
    method SubmitEvidence(submitter: AccountId, club: ClubId, id: DisputeId, description: seq<U8>, now: BlockNumber)
      returns (r: Outcome<Error>)
      requires Valid()
      modifies this`evidence
      ensures Valid()
      ensures r == (if (club, id) !in disputes then Fail(DisputeNotFound)
                    else if !AcceptsEvidence(disputes[(club, id)].status) then Fail(DisputeNotOpen)
                    else if (club, id, submitter) in old(evidence) then Fail(EvidenceAlreadySubmitted)
                    else if MaxEvidenceLength < |description| then Fail(InvalidDispute)
                    else Pass)
      ensures r.Fail? ==> unchanged(this)
      ensures r.Pass? ==> evidence == old(evidence)[(club, id, submitter) := Evidence(submitter, description, now)]
    {
      if (club, id) !in disputes {
        return Fail(DisputeNotFound);
      }
      if !AcceptsEvidence(disputes[(club, id)].status) {
        return Fail(DisputeNotOpen);
      }
      if (club, id, submitter) in evidence {
        return Fail(EvidenceAlreadySubmitted);
      }
      if MaxEvidenceLength < |description| {
        return Fail(InvalidDispute);
      }
      evidence := evidence[(club, id, submitter) := Evidence(submitter, description, now)];
      r := Pass;
    }

    /** `vote_on_dispute`: one vote per account while the dispute is Open or
        InArbitration; the vote is recorded and the chosen count goes up by one.
        The u32 `+= 1` must not overflow, so the chosen count of a stored dispute
        is below u32::MAX. */
    method VoteOnDispute(voter: AccountId, club: ClubId, id: DisputeId, choice: VoteChoice, now: BlockNumber)
      returns (r: Outcome<Error>)
      requires Valid()
      requires (club, id) in disputes ==> TallyOf(disputes[(club, id)], choice) < U32_MAX
      modifies this`disputes, this`disputeVotes, this`voters
      ensures Valid()
      ensures (club, id) !in old(disputes) ==> r == Fail(DisputeNotFound)
      ensures (club, id) in old(disputes) ==>
        var d := old(disputes[(club, id)]);
        && r == (if !AcceptsVotes(d.status) then Fail(DisputeNotOpen)
                 else if (club, id, voter) in old(disputeVotes) then Fail(AlreadyVoted)
                 else Pass)
        && (r.Pass? ==>
              && disputeVotes == old(disputeVotes)[(club, id, voter) := DisputeVote(voter, choice, now)]
              && disputes == old(disputes)[(club, id) := AddBallot(d, choice)])
      ensures r.Fail? ==> unchanged(this)
    {
      if (club, id) !in disputes {
        return Fail(DisputeNotFound);
      }
      var d := disputes[(club, id)];
      if !AcceptsVotes(d.status) {
        return Fail(DisputeNotOpen);
      }
      if (club, id, voter) in disputeVotes {
        return Fail(AlreadyVoted);
      }
      var d' := AddBallot(d, choice);
      assert DisputeWellFormed((club, id), d, disputeCount);
      UpdateKeepsDisputes(disputes, disputeCount, (club, id), d');
      BallotKeepsBallots(disputeVotes, voters, disputes, (club, id), voter, choice, now);
      disputeVotes := disputeVotes[(club, id, voter) := DisputeVote(voter, choice, now)];
      voters := voters[(club, id) := voters[(club, id)] + [voter]];
      disputes := disputes[(club, id) := d'];
      r := Pass;
    }

    /** `resolve_dispute`: a dispute that accepts votes and has at least one is
        Resolved at `now`; `winner` is the favoured party's account (the event's
        payload). A Resolved dispute accepts no further votes, evidence or
        resolution. */
    method ResolveDispute(caller: AccountId, club: ClubId, id: DisputeId, now: BlockNumber)
      returns (r: Outcome<Error>, winner: Option<AccountId>)
      requires Valid()
      modifies this`disputes
      ensures Valid()
      ensures (club, id) !in old(disputes) ==> r == Fail(DisputeNotFound)
      ensures (club, id) in old(disputes) ==>
        var d := old(disputes[(club, id)]);
        && r == (if !AcceptsVotes(d.status) then Fail(DisputeNotOpen)
                 else if !HasVotes(d) then Fail(DisputeNotResolvable)
                 else Pass)
        && (r.Pass? ==>
              && disputes == old(disputes)[(club, id) := d.(status := Resolved, resolvedAt := Some(now))]
              && winner == Some(AccountOf(d, Winner(d.favorInitiatorVotes, d.favorSubjectVotes))))
      ensures r.Fail? ==> unchanged(this) && winner == None
    {
      if (club, id) !in disputes {
        return Fail(DisputeNotFound), None;
      }
      var d := disputes[(club, id)];
      if !AcceptsVotes(d.status) {
        return Fail(DisputeNotOpen), None;
      }
      if !HasVotes(d) {
        return Fail(DisputeNotResolvable), None;
      }
      var party := Winner(d.favorInitiatorVotes, d.favorSubjectVotes);
      var d' := d.(status := Resolved, resolvedAt := Some(now));
      assert DisputeWellFormed((club, id), d, disputeCount);
      UpdateKeepsDisputes(disputes, disputeCount, (club, id), d');
      UpdateKeepsBallots(disputeVotes, voters, disputes, (club, id), d');
      disputes := disputes[(club, id) := d'];
      r, winner := Pass, Some(AccountOf(d, party));
    }
  }

  /** Resolution is final: once a dispute is resolved, a later vote and a later
      resolution of it both fail with DisputeNotOpen. */
  method ResolveIsFinal(p: Pallet, caller: AccountId, voter: AccountId, club: ClubId, id: DisputeId,
                        choice: VoteChoice, now: BlockNumber, later: BlockNumber)
    returns (resolved: Outcome<Error>, voted: Outcome<Error>, again: Outcome<Error>)
    requires p.Valid()
    requires (club, id) in p.disputes ==> TallyOf(p.disputes[(club, id)], choice) < U32_MAX
    modifies p`disputes, p`disputeVotes, p`voters
    ensures resolved.Pass? ==> voted == Fail(DisputeNotOpen) && again == Fail(DisputeNotOpen)
  {
    var winner;
    resolved, winner := p.ResolveDispute(caller, club, id, now);
    voted := p.VoteOnDispute(voter, club, id, choice, later);
    again, winner := p.ResolveDispute(caller, club, id, later);
  }
}
