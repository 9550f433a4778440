/** The club membership pallet: a profile per (club, account) and a per-club member
    count bounded by `MaxMembersPerClub`. One class field per storage item; one
    method per dispatchable. */
module Members {
  import opened Frame

  type MemberKey = (ClubId, AccountId)

  datatype MemberProfile = MemberProfile(
    account: AccountId,
    clubId: ClubId,
    joinedAt: BlockNumber,
    reputation: U64,
    contributionWeight: U64,
    votingParticipation: U64,
    proposalSuccessRate: U8)

  datatype Error = AlreadyMember | NotMember | MaxMembersReached

  /** The profile a new member starts with: every score zero. */
  function NewProfile(account: AccountId, club: ClubId, now: BlockNumber): (p: MemberProfile)
    ensures p.account == account && p.clubId == club && p.joinedAt == now
    ensures p.reputation == 0 && p.contributionWeight == 0 && p.votingParticipation == 0
    ensures p.proposalSuccessRate == 0
  {
    MemberProfile(account, club, now, 0, 0, 0, 0)
  }

  /** The `MemberCount` `ValueQuery`: the stored count, 0 when absent. */
  function CountFor(counts: map<ClubId, U32>, club: ClubId): U32 {
    if club in counts then counts[club] else 0
  }

  /** A club's members as a set, 0 members when the club has none recorded. */
  ghost function MembersOf(roster: map<ClubId, set<AccountId>>, club: ClubId): set<AccountId> {
    if club in roster then roster[club] else {}
  }

  /** Profiles sit under their own (club, account) key; the roster lists exactly the
      stored keys; each club's count is the size of its roster and at most `max`. */
  ghost predicate MembersInvariant(members: map<MemberKey, MemberProfile>, counts: map<ClubId, U32>,
                                   roster: map<ClubId, set<AccountId>>, max: U32) {
    && (forall k {:trigger members[k]} :: k in members ==> members[k].clubId == k.0 && members[k].account == k.1)
    && (forall k: MemberKey :: k in members <==> k.1 in MembersOf(roster, k.0))
    && (forall club :: CountFor(counts, club) == |MembersOf(roster, club)| <= max)
  }

  /** Admitting an account that is not a member into a club below the cap keeps
      the invariant, the count going up by exactly one. */
  lemma JoinKeepsMembers(members: map<MemberKey, MemberProfile>, counts: map<ClubId, U32>,
                         roster: map<ClubId, set<AccountId>>, max: U32, club: ClubId, account: AccountId,
                         now: BlockNumber)
    requires MembersInvariant(members, counts, roster, max)
    requires (club, account) !in members && CountFor(counts, club) < max
    ensures SaturatingAdd(CountFor(counts, club), 1, U32_MAX) == CountFor(counts, club) + 1
    ensures MembersInvariant(members[(club, account) := NewProfile(account, club, now)],
                             counts[club := SaturatingAdd(CountFor(counts, club), 1, U32_MAX)],
                             roster[club := MembersOf(roster, club) + {account}], max)
  {
    var members' := members[(club, account) := NewProfile(account, club, now)];
    var counts' := counts[club := SaturatingAdd(CountFor(counts, club), 1, U32_MAX)];
    var roster' := roster[club := MembersOf(roster, club) + {account}];
    assert account !in MembersOf(roster, club);
    forall k: MemberKey
      ensures k in members' <==> k.1 in MembersOf(roster', k.0)
    {
      assert k in members <==> k.1 in MembersOf(roster, k.0);
    }
    forall c
      ensures CountFor(counts', c) == |MembersOf(roster', c)| <= max
    {
      assert CountFor(counts, c) == |MembersOf(roster, c)| <= max;
    }
  }

  /** Removing a member keeps the invariant, the count going down by exactly one. */
  lemma LeaveKeepsMembers(members: map<MemberKey, MemberProfile>, counts: map<ClubId, U32>,
                          roster: map<ClubId, set<AccountId>>, max: U32, club: ClubId, account: AccountId)
    requires MembersInvariant(members, counts, roster, max)
    requires (club, account) in members
    ensures 0 < CountFor(counts, club) && SaturatingSub(CountFor(counts, club), 1) == CountFor(counts, club) - 1
    ensures MembersInvariant(members - {(club, account)},
                             counts[club := SaturatingSub(CountFor(counts, club), 1)],
                             roster[club := MembersOf(roster, club) - {account}], max)
  {
    var members' := members - {(club, account)};
    var counts' := counts[club := SaturatingSub(CountFor(counts, club), 1)];
    var roster' := roster[club := MembersOf(roster, club) - {account}];
    assert account in MembersOf(roster, club);
    forall k: MemberKey
      ensures k in members' <==> k.1 in MembersOf(roster', k.0)
    {
      assert k in members <==> k.1 in MembersOf(roster, k.0);
    }
    forall c
      ensures CountFor(counts', c) == |MembersOf(roster', c)| <= max
    {
      assert CountFor(counts, c) == |MembersOf(roster, c)| <= max;
    }
  }

  class Pallet {
    const maxMembersPerClub: U32

    var members: map<MemberKey, MemberProfile>
    var memberCount: map<ClubId, U32>              // ValueQuery

    /** For each club, the accounts holding a profile in it. */
    ghost var roster: map<ClubId, set<AccountId>>

    ghost predicate Valid()
      reads this
    {
      MembersInvariant(members, memberCount, roster, maxMembersPerClub)
    }

    function MemberCount(club: ClubId): U32
      reads this
    {
      CountFor(memberCount, club)
    }

    constructor (maxMembersPerClub: U32)
      ensures Valid()
      ensures this.maxMembersPerClub == maxMembersPerClub && members == map[] && memberCount == map[]
    {
      this.maxMembersPerClub := maxMembersPerClub;
      members, memberCount := map[], map[];
      roster := map[];
    }

    /** `join_club`: an account that is not yet a member joins a club below its cap
        with a zeroed profile; the club's count goes up by exactly one and never
        passes the cap. */
    method JoinClub(account: AccountId, club: ClubId, now: BlockNumber) returns (r: Outcome<Error>)
      requires Valid()
      modifies this`members, this`memberCount, this`roster
      ensures Valid()
      ensures r == (if (club, account) in old(members) then Fail(AlreadyMember)
                    else if maxMembersPerClub <= old(MemberCount(club)) then Fail(MaxMembersReached)
                    else Pass)
      ensures r.Fail? ==> unchanged(this)
      ensures r.Pass? ==>
        && members == old(members)[(club, account) := NewProfile(account, club, now)]
        && memberCount == old(memberCount)[club := old(MemberCount(club)) + 1]
      ensures forall c :: MemberCount(c) <= maxMembersPerClub
    {
      if (club, account) in members {
        return Fail(AlreadyMember);
      }
      var count := CountFor(memberCount, club);
      if maxMembersPerClub <= count {
        return Fail(MaxMembersReached);
      }
      JoinKeepsMembers(members, memberCount, roster, maxMembersPerClub, club, account, now);
      members := members[(club, account) := NewProfile(account, club, now)];
      memberCount := memberCount[club := SaturatingAdd(count, 1, U32_MAX)];
      roster := roster[club := MembersOf(roster, club) + {account}];
      r := Pass;
    }

    /** `leave_club`: a member's profile is removed and the club's count goes down
        by exactly one (the saturating subtraction never clamps). */
    method LeaveClub(account: AccountId, club: ClubId) returns (r: Outcome<Error>)
      requires Valid()
      modifies this`members, this`memberCount, this`roster
      ensures Valid()
      ensures r == if (club, account) in old(members) then Pass else Fail(NotMember)
      ensures r.Fail? ==> unchanged(this)
      ensures r.Pass? ==>
        && 0 < old(MemberCount(club))
        && members == old(members) - {(club, account)}
        && memberCount == old(memberCount)[club := old(MemberCount(club)) - 1]
    {
      if (club, account) !in members {
        return Fail(NotMember);
      }
      var count := CountFor(memberCount, club);
      LeaveKeepsMembers(members, memberCount, roster, maxMembersPerClub, club, account);
      members := members - {(club, account)};
      memberCount := memberCount[club := SaturatingSub(count, 1)];
      roster := roster[club := MembersOf(roster, club) - {account}];
      r := Pass;
    }
  }

  /** Removing a freshly inserted profile gives back the profiles as they were, and
      restoring a club's count gives back every club's count. */
  lemma InsertThenRemove(members: map<MemberKey, MemberProfile>, counts: map<ClubId, U32>, key: MemberKey,
                         profile: MemberProfile, count: U32)
    requires key !in members
    ensures members[key := profile] - {key} == members
    ensures forall c :: CountFor(counts[key.0 := count][key.0 := CountFor(counts, key.0)], c) == CountFor(counts, c)
  {
  }

  /** Joining and then leaving the same club restores the profiles and every
      club's count (an absent count and a stored 0 read the same). */
  method JoinThenLeave(p: Pallet, account: AccountId, club: ClubId, now: BlockNumber)
    returns (joined: Outcome<Error>, left: Outcome<Error>)
    requires p.Valid()
    modifies p`members, p`memberCount, p`roster
    ensures p.Valid()
    ensures joined.Pass? ==> left.Pass?
    ensures joined.Pass? ==> p.members == old(p.members) && forall c :: p.MemberCount(c) == old(p.MemberCount(c))
  {
    ghost var members0, counts0 := p.members, p.memberCount;
    joined := p.JoinClub(account, club, now);
    ghost var counts1 := p.memberCount;
    left := p.LeaveClub(account, club);
    if joined.Pass? {
      InsertThenRemove(members0, counts0, (club, account), NewProfile(account, club, now), CountFor(counts1, club));
    }
  }
}
