/**
  The membership and governance rules: the genesis phase, peer review of
  competence, proposals, weighted votes, execution, bans and co-optation.
 */
module GovernanceRules {
  import opened Arith
  import opened Accounts
  import opened Voting
  import opened Handlers
  import opened Invariants
  import opened Lifecycle

  /**
    `add_genesis_member` is closed once three genesis members exist; until
    then it creates an active genesis member with the genesis scores and
    raises both counts by one and both totals by exactly those scores. No
    signer is compared with the deployment authority.
   */
  lemma GenesisEffect(s: Store, a: Pubkey, now: i64)
    ensures s.state.Some? && a !in s.members && s.state.value.genesisCount >= MAX_GENESIS_MEMBERS ==>
              AddGenesisMember(s, a, now) == Err(GenesisClosed)
    ensures AddGenesisMember(s, a, now).Ok? ==>
              var s', st := AddGenesisMember(s, a, now).value, s.state.value;
              && a !in s.members && st.genesisCount < MAX_GENESIS_MEMBERS
              && s'.members == s.members[a := Member(a, GENESIS_PRESENCE, GENESIS_COMPETENCE, true, true, now)]
              && s'.state == Some(st.(totalPresence := st.totalPresence + GENESIS_PRESENCE,
                                      totalCompetence := st.totalCompetence + GENESIS_COMPETENCE,
                                      activeMembers := st.activeMembers + 1,
                                      genesisCount := st.genesisCount + 1))
              && s'.events == s.events && s'.proposals == s.proposals
              && s'.registrations == s.registrations && s'.votes == s.votes
  {
  }

  /**
    The converse: with the accounts in place, a genesis add succeeds unless
    the phase is closed or a checked addition overflows.
   */
  lemma GenesisSucceeds(s: Store, a: Pubkey, now: i64)
    ensures AddGenesisMember(s, a, now).Ok? <==>
              && AddGenesisMemberAccounts(s, a).None?
              && s.state.value.genesisCount < MAX_GENESIS_MEMBERS
              && s.state.value.totalPresence + GENESIS_PRESENCE <= U64_MAX
              && s.state.value.totalCompetence + GENESIS_COMPETENCE <= U64_MAX
              && s.state.value.activeMembers + 1 <= U8_MAX
  {
  }

  /**
    On a valid store the genesis count never passes three, and the genesis
    count and the active count are the numbers of flagged member accounts.
   */
  lemma GenesisCap(s: Store, trace: seq<(Instruction, i64)>)
    requires Valid(s)
    ensures var s' := Run(s, trace);
            s'.state.Some? ==>
              && s'.state.value.genesisCount <= MAX_GENESIS_MEMBERS
              && s'.state.value.genesisCount == Tally(s'.members, GenesisFlag)
              && s'.state.value.activeMembers == Tally(s'.members, ActiveFlag)
  {
    RunKeepsValid(s, trace);
  }

  /**
    A peer review moves the target's competence, active or not, and the total
    by the same amount: `delta * SCALING_FACTOR` upwards, and downwards the
    scaled magnitude clamped at the target's competence. A scaled delta that
    does not fit in u64 is an `ArithmeticOverflow`.
   */
  lemma CompetenceEffect(s: Store, r: Pubkey, t: Pubkey, delta: i64)
    ensures UpdateCompetenceAccounts(s, r, t).None? && s.state.value.activeMembers >= MIN_QUORUM
            && (if delta >= 0 then delta as int else -(delta as int)) * SCALING_FACTOR > U64_MAX ==>
              UpdateCompetence(s, r, t, delta) == Err(ArithmeticOverflow)
    ensures UpdateCompetence(s, r, t, delta).Ok? ==>
              var s', st, m := UpdateCompetence(s, r, t, delta).value, s.state.value, s.members[t];
              var change: int := if delta >= 0 then delta as int * SCALING_FACTOR
                                 else if delta as int * SCALING_FACTOR < -(m.competenceScore as int) then -(m.competenceScore as int)
                                 else delta as int * SCALING_FACTOR;
              && r in s.members && s.members[r].isActive
              && s'.members == s.members[t := m.(competenceScore := m.competenceScore + change)]
              && s'.state == Some(st.(totalCompetence := st.totalCompetence + change))
              && s'.events == s.events && s'.proposals == s.proposals && s'.votes == s.votes
              && s'.registrations == s.registrations
  {
  }

  /**
    The converse on a valid store: with the accounts in place and the quorum
    met, a peer review succeeds exactly when the scaled delta fits in u64
    and, upwards, the new score and total fit as well. A downward review is
    never refused, since the clamped amount is within the total.
   */
  lemma CompetenceSucceeds(s: Store, r: Pubkey, t: Pubkey, delta: i64)
    requires Valid(s)
    ensures UpdateCompetence(s, r, t, delta).Ok? <==>
              && UpdateCompetenceAccounts(s, r, t).None?
              && s.state.value.activeMembers >= MIN_QUORUM
              && if delta >= 0 then
                   && delta as int * SCALING_FACTOR <= U64_MAX
                   && s.members[t].competenceScore + delta as int * SCALING_FACTOR <= U64_MAX
                   && s.state.value.totalCompetence + delta as int * SCALING_FACTOR <= U64_MAX
                 else -(delta as int) * SCALING_FACTOR <= U64_MAX
  {
    if t in s.members {
      TallyBounds(s.members, t, Competence);
    }
  }

  /**
    A new proposal gets the current counter as id, starts `Active` with no
    votes, ends at `now + voting_period`, and snapshots `SCALING_FACTOR` (or
    0 when either total is 0); the counter advances by one.
   */
  lemma CreateProposalEffect(s: Store, p: Pubkey, title: string, description: string,
                             ty: ProposalType, period: i64, now: i64)
    ensures CreateProposalAccounts(s, p).None? && s.state.value.activeMembers >= MIN_QUORUM
            && !(I64_MIN <= now as int + period as int <= I64_MAX) ==>
              CreateProposal(s, p, title, description, ty, period, now) == Err(ArithmeticOverflow)
    ensures CreateProposal(s, p, title, description, ty, period, now).Ok? ==>
              var s', st := CreateProposal(s, p, title, description, ty, period, now).value, s.state.value;
              var snapshot := if st.totalPresence == 0 || st.totalCompetence == 0 then 0 else SCALING_FACTOR;
              && p in s.members && s.members[p].isActive
              && st.proposalCounter !in s.proposals
              && s'.proposals == s.proposals[st.proposalCounter :=
                   Proposal(st.proposalCounter, s.members[p].authority, title, description, ty,
                            0, 0, snapshot, now, now + period, Active)]
              && s'.state == Some(st.(proposalCounter := st.proposalCounter + 1))
              && s'.members == s.members && s'.events == s.events && s'.votes == s.votes
              && s'.registrations == s.registrations
  {
  }

  /**
    The converse: with the accounts in place and the quorum met, a proposal
    is created unless its end time or the counter overflows.
   */
  lemma CreateProposalSucceeds(s: Store, p: Pubkey, title: string, description: string,
                               ty: ProposalType, period: i64, now: i64)
    ensures CreateProposal(s, p, title, description, ty, period, now).Ok? <==>
              && CreateProposalAccounts(s, p).None?
              && s.state.value.activeMembers >= MIN_QUORUM
              && I64_MIN <= now + period <= I64_MAX
              && s.state.value.proposalCounter + 1 <= U64_MAX
  {
  }

  /**
    A vote needs an active member with no vote record yet, an `Active`
    proposal still open at `now`, and a positive weight; it adds the
    member's current weight to exactly one side and records it.
   */
  lemma VoteEffect(s: Store, v: Pubkey, id: u64, support: bool, now: i64)
    ensures Vote(s, v, id, support, now).Ok? ==>
              var s', st, p, m := Vote(s, v, id, support, now).value, s.state.value, s.proposals[id], s.members[v];
              var w := VotingWeight(m, st);
              && m.isActive && (id, v) !in s.votes
              && p.status == Active && now < p.votingEndsAt && w > 0
              && s'.proposals[id].votesFor == p.votesFor + (if support then w else 0)
              && s'.proposals[id].votesAgainst == p.votesAgainst + (if support then 0 else w)
              && s'.proposals == s.proposals[id := p.(votesFor := s'.proposals[id].votesFor,
                                                      votesAgainst := s'.proposals[id].votesAgainst)]
              && s'.votes == s.votes[(id, v) := VoteRecord(m.authority, p.id, support, w, true)]
              && s'.state == s.state && s'.members == s.members && s'.events == s.events
              && s'.registrations == s.registrations
  {
  }

  /**
    The converse: with the accounts in place and the quorum met, a vote on
    an `Active`, still open proposal by a member of positive weight is
    counted unless the chosen tally overflows u128.
   */
  lemma VoteSucceeds(s: Store, v: Pubkey, id: u64, support: bool, now: i64)
    ensures Vote(s, v, id, support, now).Ok? <==>
              && VoteAccounts(s, v, id).None?
              && s.state.value.activeMembers >= MIN_QUORUM
              && s.proposals[id].status == Active
              && now < s.proposals[id].votingEndsAt
              && VotingWeight(s.members[v], s.state.value) > 0
              && (if support then s.proposals[id].votesFor else s.proposals[id].votesAgainst)
                 + VotingWeight(s.members[v], s.state.value) <= U128_MAX
  {
  }

  /** The refusals of `vote`, in the order the handler tests them. */
  lemma VoteRejects(s: Store, v: Pubkey, id: u64, support: bool, now: i64)
    requires VoteAccounts(s, v, id).None? && s.state.value.activeMembers >= MIN_QUORUM
    ensures s.proposals[id].status != Active ==> Vote(s, v, id, support, now) == Err(ProposalNotActive)
    ensures s.proposals[id].status == Active && now >= s.proposals[id].votingEndsAt ==>
              Vote(s, v, id, support, now) == Err(VotingPeriodEnded)
    ensures s.proposals[id].status == Active && now < s.proposals[id].votingEndsAt
            && VotingWeight(s.members[v], s.state.value) == 0 ==>
              Vote(s, v, id, support, now) == Err(InsufficientReputation)
  {
  }

  /** One vote per member and proposal: a second vote fails on the existing record. */
  lemma NoDoubleVote(s: Store, v: Pubkey, id: u64, support: bool, now: i64, again: bool, later: i64)
    ensures Vote(s, v, id, support, now).Ok? ==>
              Vote(Vote(s, v, id, support, now).value, v, id, again, later) == Err(AccountAlreadyInUse)
  {
  }

  /**
    One vote per member and proposal, whatever runs in between: after a
    successful vote, no later vote of that member on that proposal succeeds.
   */
  lemma NeverVoteAgain(s: Store, v: Pubkey, id: u64, support: bool, now: i64,
                       trace: seq<(Instruction, i64)>, again: bool, later: i64)
    ensures Vote(s, v, id, support, now).Ok? ==>
              Vote(Run(Vote(s, v, id, support, now).value, trace), v, id, again, later).Err?
  {
    if Vote(s, v, id, support, now).Ok? {
      RecordsPersistAlong(Vote(s, v, id, support, now).value, trace, (id, v));
    }
  }

  /**
    On a valid store a member's scores are within the totals, so a recorded
    vote weighs at most the snapshot value `SCALING_FACTOR`.
   */
  lemma VoteWeightBounded(s: Store, v: Pubkey, id: u64, support: bool, now: i64)
    requires Valid(s) && Vote(s, v, id, support, now).Ok?
    ensures Vote(s, v, id, support, now).value.votes[(id, v)].weight <= SCALING_FACTOR
  {
    TallyBounds(s.members, v, Presence);
    TallyBounds(s.members, v, Competence);
    WeightAtMostScale(s.members[v], s.state.value);
  }

  /**
    `execute_proposal` settles an `Active` proposal whose voting period is
    over: `Passed` when it meets its type's threshold, `Rejected` otherwise,
    without touching the tallies.
   */
  lemma ExecuteEffect(s: Store, id: u64, now: i64)
    requires ExecuteProposal(s, id, now).Ok?
    ensures var s', p := ExecuteProposal(s, id, now).value, s.proposals[id];
            && p.status == Active && now >= p.votingEndsAt
            && s' == s.(proposals := s.proposals[id := p.(status := if ProposalPasses(p) then Passed else Rejected)])
            && (p.proposalType == Critical ==> (s'.proposals[id].status == Passed <==> 2 * p.votesFor > p.totalPowerSnapshot))
            && (p.proposalType == Operational ==> (s'.proposals[id].status == Passed <==> p.votesFor > p.votesAgainst))
  {
    var p := s.proposals[id];
    if p.proposalType == Critical {
      CriticalIsStrictMajority(p);
    }
  }

  /**
    The converse: with the accounts in place and the quorum met, execution
    succeeds exactly on an `Active` proposal whose voting period is over.
   */
  lemma ExecuteSucceeds(s: Store, id: u64, now: i64)
    ensures ExecuteProposal(s, id, now).Ok? <==>
              && ExecuteProposalAccounts(s, id).None?
              && s.state.value.activeMembers >= MIN_QUORUM
              && s.proposals[id].status == Active
              && now >= s.proposals[id].votingEndsAt
  {
  }

  /** The refusals of `execute_proposal`. */
  lemma ExecuteRejects(s: Store, id: u64, now: i64)
    requires ExecuteProposalAccounts(s, id).None? && s.state.value.activeMembers >= MIN_QUORUM
    ensures s.proposals[id].status != Active ==> ExecuteProposal(s, id, now) == Err(ProposalNotActive)
    ensures s.proposals[id].status == Active && now < s.proposals[id].votingEndsAt ==>
              ExecuteProposal(s, id, now) == Err(VotingPeriodNotEnded)
  {
  }

  /**
    Execution is final: afterwards the proposal can be neither executed nor
    voted on again, at any time.
   */
  lemma ExecutionIsFinal(s: Store, id: u64, now: i64, v: Pubkey, support: bool, later: i64)
    requires ExecuteProposal(s, id, now).Ok?
    ensures ExecuteProposal(ExecuteProposal(s, id, now).value, id, later) == Err(ProposalNotActive)
    ensures VoteAccounts(ExecuteProposal(s, id, now).value, v, id).None? ==>
              Vote(ExecuteProposal(s, id, now).value, v, id, support, later) == Err(ProposalNotActive)
  {
  }

  /**
    A ban, which consults no proposal, deactivates an active member, zeroes
    both scores, and removes them from the totals and the active count.
   */
  lemma BanEffect(s: Store, x: Pubkey, t: Pubkey)
    requires BanMember(s, x, t).Ok?
    ensures var s', st, m := BanMember(s, x, t).value, s.state.value, s.members[t];
            && x in s.members && s.members[x].isActive && m.isActive
            && s'.members == s.members[t := m.(isActive := false, presenceScore := 0, competenceScore := 0)]
            && s'.state == Some(st.(totalPresence := st.totalPresence - m.presenceScore,
                                    totalCompetence := st.totalCompetence - m.competenceScore,
                                    activeMembers := st.activeMembers - 1))
            && s'.events == s.events && s'.proposals == s.proposals && s'.votes == s.votes
            && s'.registrations == s.registrations
    ensures forall ps: map<u64, Proposal> {:trigger s.(proposals := ps)} ::
              BanMember(s.(proposals := ps), x, t) == Ok(BanMember(s, x, t).value.(proposals := ps))
  {
  }

  /**
    The converse on a valid store: with the accounts in place and the quorum
    met, a ban succeeds exactly on an active target.
   */
  lemma BanSucceeds(s: Store, x: Pubkey, t: Pubkey)
    requires Valid(s)
    ensures BanMember(s, x, t).Ok? <==>
              && BanMemberAccounts(s, x, t).None?
              && s.state.value.activeMembers >= MIN_QUORUM
              && s.members[t].isActive
  {
    if t in s.members {
      TallyBounds(s.members, t, Presence);
      TallyBounds(s.members, t, Competence);
    }
  }

  /** A banned member cannot be banned again. */
  lemma BanOnce(s: Store, x: Pubkey, t: Pubkey, y: Pubkey)
    requires BanMember(s, x, t).Ok?
    ensures BanMember(BanMember(s, x, t).value, y, t).Err?
  {
  }

  /**
    Co-optation, which consults no proposal, creates an active non-genesis
    member with `SCALING_FACTOR` in both scores and adds them to the totals
    and the active count.
   */
  lemma CooptEffect(s: Store, sponsor: Pubkey, n: Pubkey, now: i64)
    requires CooptMember(s, sponsor, n, now).Ok?
    ensures var s', st := CooptMember(s, sponsor, n, now).value, s.state.value;
            && n !in s.members && sponsor in s.members && s.members[sponsor].isActive
            && s'.members == s.members[n := Member(n, SCALING_FACTOR, SCALING_FACTOR, true, false, now)]
            && s'.state == Some(st.(totalPresence := st.totalPresence + SCALING_FACTOR,
                                    totalCompetence := st.totalCompetence + SCALING_FACTOR,
                                    activeMembers := st.activeMembers + 1))
            && s'.events == s.events && s'.proposals == s.proposals && s'.votes == s.votes
            && s'.registrations == s.registrations
  {
  }

  /**
    The converse: with the accounts in place and the quorum met, a
    co-optation succeeds unless a total or the active count overflows.
   */
  lemma CooptSucceeds(s: Store, sponsor: Pubkey, n: Pubkey, now: i64)
    ensures CooptMember(s, sponsor, n, now).Ok? <==>
              && CooptMemberAccounts(s, sponsor, n).None?
              && s.state.value.activeMembers >= MIN_QUORUM
              && s.state.value.totalPresence + SCALING_FACTOR <= U64_MAX
              && s.state.value.totalCompetence + SCALING_FACTOR <= U64_MAX
              && s.state.value.activeMembers + 1 <= U8_MAX
  {
  }
}
