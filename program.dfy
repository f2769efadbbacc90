/**
  The program as it runs: an object holding every account, and one method per
  instruction that works the way the handler does. It loads the accounts into
  locals, runs the checks with an early error return, updates the local copies
  field by field, and writes the changed accounts back only when the handler
  returns `Ok`, which is the framework's all-or-nothing commit.

  Each method is proved to agree with the transition function of the same
  name in `Handlers`: on `Ok` the new store is that function's store, on an
  error the same error is returned and nothing changes.

  Where the original handler has a checked operation that cannot fail at that
  point (its operands are bounded by an earlier `min` or `require!`), the
  check is not written here: the fallible branch is dead code.
 */
module Program {
  import opened Arith
  import opened Accounts
  import opened Voting
  import H = Handlers

  /** The method's outcome agrees with the transition function's `spec`. */
  ghost predicate Commits(before: Store, after: Store, res: Result<()>, spec: Result<Store>)
  {
    match spec
    case Ok(s) => res == Ok(()) && after == s
    case Err(e) => res == Err(e) && after == before
  }

  class Dao {
    var state: Option<State>
    var members: map<Pubkey, Member>
    var events: map<u64, TrackSession>
    var registrations: map<(u64, Pubkey), EventRegistration>
    var proposals: map<u64, Proposal>
    var votes: map<(u64, Pubkey), VoteRecord>

    /** The accounts as one value. */
    function Snapshot(): Store
      reads this
    {
      Store(state, members, events, registrations, proposals, votes)
    }

    /** A deployment in which no account exists yet. */
    constructor ()
      ensures Snapshot() == EmptyStore
    {
      state, members, events, registrations, proposals, votes := None, map[], map[], map[], map[], map[];
    }

    method Initialize(authority: Pubkey) returns (res: Result<()>)
      modifies this
      ensures Commits(old(Snapshot()), Snapshot(), res, H.Initialize(old(Snapshot()), authority))
    {
      if state.Some? { return Err(AccountAlreadyInUse); }
      var st := State(authority, 0, 0, 0, 0, 0, 0);
      state := Some(st);
      res := Ok(());
    }

    method AddGenesisMember(memberAuthority: Pubkey, now: i64) returns (res: Result<()>)
      modifies this
      ensures Commits(old(Snapshot()), Snapshot(), res, H.AddGenesisMember(old(Snapshot()), memberAuthority, now))
    {
      if state.None? { return Err(AccountNotInitialized); }
      if memberAuthority in members { return Err(AccountAlreadyInUse); }
      var st := state.value;

      if st.genesisCount >= MAX_GENESIS_MEMBERS { return Err(GenesisClosed); }
      var member := Member(memberAuthority, GENESIS_PRESENCE, GENESIS_COMPETENCE, true, true, now);

      var totalPresence := CheckedAddU64(st.totalPresence, GENESIS_PRESENCE);
      if totalPresence.None? { return Err(ArithmeticOverflow); }
      var totalCompetence := CheckedAddU64(st.totalCompetence, GENESIS_COMPETENCE);
      if totalCompetence.None? { return Err(ArithmeticOverflow); }
      var activeMembers := CheckedAddU8(st.activeMembers, 1);
      if activeMembers.None? { return Err(ArithmeticOverflow); }
      // genesis_count < 3 here, so its increment cannot overflow
      st := st.(totalPresence := totalPresence.value, totalCompetence := totalCompetence.value,
                activeMembers := activeMembers.value, genesisCount := st.genesisCount + 1);

      state, members := Some(st), members[memberAuthority := member];
      res := Ok(());
    }

    method CreateEvent(creator: Pubkey, startTime: i64, description: string, now: i64) returns (res: Result<()>)
      modifies this
      ensures Commits(old(Snapshot()), Snapshot(), res, H.CreateEvent(old(Snapshot()), creator, startTime, description, now))
    {
      if state.None? || creator !in members { return Err(AccountNotInitialized); }
      var st := state.value;
      if st.eventCounter in events { return Err(AccountAlreadyInUse); }
      if !members[creator].isActive { return Err(MemberNotActive); }

      if st.activeMembers < MIN_QUORUM { return Err(DaoShutdown); }
      if !(startTime > now) { return Err(InvalidEventTime); }
      var event := TrackSession(st.eventCounter, creator, startTime, description, false, 0, 0);
      var counter := CheckedAddU64(st.eventCounter, 1);
      if counter.None? { return Err(ArithmeticOverflow); }
      st := st.(eventCounter := counter.value);

      state, events := Some(st), events[event.id := event];
      res := Ok(());
    }

    method RegisterForEvent(authority: Pubkey, eventId: u64, now: i64) returns (res: Result<()>)
      modifies this
      ensures Commits(old(Snapshot()), Snapshot(), res, H.RegisterForEvent(old(Snapshot()), authority, eventId, now))
    {
      if state.None? || eventId !in events || authority !in members { return Err(AccountNotInitialized); }
      if (eventId, authority) in registrations { return Err(AccountAlreadyInUse); }
      var st, event, member := state.value, events[eventId], members[authority];
      if !member.isActive { return Err(MemberNotActive); }

      if st.activeMembers < MIN_QUORUM { return Err(DaoShutdown); }
      if event.isFinalized { return Err(EventAlreadyFinalized); }
      if !(now < event.startTime) { return Err(EventAlreadyStarted); }

      var timeUntilEvent := CheckedSubI64(event.startTime, now);
      if timeUntilEvent.None? { return Err(ArithmeticOverflow); }
      if timeUntilEvent.value < SLOT_DURATION {
        var penalty := MinU64(LATE_PENALTY, member.presenceScore);
        member := member.(presenceScore := member.presenceScore - penalty);
        var total := CheckedSubU64(st.totalPresence, penalty);
        if total.None? { return Err(SlashingOverflow); }
        st := st.(totalPresence := total.value);
      }

      var registration := EventRegistration(member.authority, event.id, true, false, now);
      var count := CheckedAddU32(event.registeredCount, 1);
      if count.None? { return Err(ArithmeticOverflow); }
      event := event.(registeredCount := count.value);

      state, events, members := Some(st), events[eventId := event], members[authority := member];
      registrations := registrations[(eventId, authority) := registration];
      res := Ok(());
    }

    method WithdrawFromEvent(authority: Pubkey, eventId: u64, now: i64) returns (res: Result<()>)
      modifies this
      ensures Commits(old(Snapshot()), Snapshot(), res, H.WithdrawFromEvent(old(Snapshot()), authority, eventId, now))
    {
      if state.None? || eventId !in events || authority !in members || (eventId, authority) !in registrations {
        return Err(AccountNotInitialized);
      }
      var st, event, member := state.value, events[eventId], members[authority];
      var registration := registrations[(eventId, authority)];
      if !member.isActive { return Err(MemberNotActive); }
      if registration.member != authority { return Err(Unauthorized); }

      if st.activeMembers < MIN_QUORUM { return Err(DaoShutdown); }
      if event.isFinalized { return Err(EventAlreadyFinalized); }
      if !(now < event.startTime) { return Err(EventAlreadyStarted); }
      if !registration.isRegistered { return Err(NotRegistered); }

      var timeUntilEvent := CheckedSubI64(event.startTime, now);
      if timeUntilEvent.None? { return Err(ArithmeticOverflow); }
      if timeUntilEvent.value < SLOT_DURATION {
        var penalty := MinU64(LATE_PENALTY, member.presenceScore);
        member := member.(presenceScore := member.presenceScore - penalty);
        var total := CheckedSubU64(st.totalPresence, penalty);
        if total.None? { return Err(SlashingOverflow); }
        st := st.(totalPresence := total.value);
      }

      registration := registration.(isRegistered := false);
      var count := CheckedSubU32(event.registeredCount, 1);
      if count.None? { return Err(ArithmeticOverflow); }
      event := event.(registeredCount := count.value);

      state, events, members := Some(st), events[eventId := event], members[authority := member];
      registrations := registrations[(eventId, authority) := registration];
      res := Ok(());
    }

    method RecordAttendance(organizer: Pubkey, memberAuthority: Pubkey, eventId: u64, wasPresent: bool, now: i64)
      returns (res: Result<()>)
      modifies this
      ensures Commits(old(Snapshot()), Snapshot(), res,
                      H.RecordAttendance(old(Snapshot()), organizer, memberAuthority, eventId, wasPresent, now))
    {
      if state.None? || eventId !in events || memberAuthority !in members
         || (eventId, memberAuthority) !in registrations || organizer !in members {
        return Err(AccountNotInitialized);
      }
      var st, event, member := state.value, events[eventId], members[memberAuthority];
      var registration := registrations[(eventId, memberAuthority)];
      if event.creator != organizer { return Err(Unauthorized); }
      if !members[organizer].isActive { return Err(MemberNotActive); }

      if st.activeMembers < MIN_QUORUM { return Err(DaoShutdown); }
      if !(now >= event.startTime) { return Err(EventNotStartedYet); }

      var wasRegistered := registration.isRegistered;
      if wasRegistered && wasPresent {
        var presence := CheckedAddU64(member.presenceScore, ATTENDANCE_REWARD);
        if presence.None? { return Err(ArithmeticOverflow); }
        member := member.(presenceScore := presence.value);
        var total := CheckedAddU64(st.totalPresence, ATTENDANCE_REWARD);
        if total.None? { return Err(ArithmeticOverflow); }
        st := st.(totalPresence := total.value);
        registration := registration.(hasAttended := true);
        var count := CheckedAddU32(event.attendedCount, 1);
        if count.None? { return Err(ArithmeticOverflow); }
        event := event.(attendedCount := count.value);
      } else if wasRegistered {
        var penalty := MinU64(GHOSTING_PENALTY, member.presenceScore);
        member := member.(presenceScore := member.presenceScore - penalty);
        var total := CheckedSubU64(st.totalPresence, penalty);
        if total.None? { return Err(SlashingOverflow); }
        st := st.(totalPresence := total.value);
      } else if wasPresent {
        var penalty := MinU64(OUBLI_PENALTY, member.presenceScore);
        member := member.(presenceScore := member.presenceScore - penalty);
        var total := CheckedSubU64(st.totalPresence, penalty);
        if total.None? { return Err(SlashingOverflow); }
        st := st.(totalPresence := total.value);
        registration := registration.(hasAttended := true);
        var count := CheckedAddU32(event.attendedCount, 1);
        if count.None? { return Err(ArithmeticOverflow); }
        event := event.(attendedCount := count.value);
      } else {
        // neither registered nor present: nothing changes
        return Ok(());
      }

      state, events, members := Some(st), events[eventId := event], members[memberAuthority := member];
      registrations := registrations[(eventId, memberAuthority) := registration];
      res := Ok(());
    }

    method FinalizeEvent(organizer: Pubkey, eventId: u64, now: i64) returns (res: Result<()>)
      modifies this
      ensures Commits(old(Snapshot()), Snapshot(), res, H.FinalizeEvent(old(Snapshot()), organizer, eventId, now))
    {
      if state.None? || eventId !in events || organizer !in members { return Err(AccountNotInitialized); }
      var st, event := state.value, events[eventId];
      if event.creator != organizer { return Err(Unauthorized); }
      if !members[organizer].isActive { return Err(MemberNotActive); }

      if st.activeMembers < MIN_QUORUM { return Err(DaoShutdown); }
      if event.isFinalized { return Err(EventAlreadyFinalized); }
      if !(now >= event.startTime) { return Err(EventNotStartedYet); }
      event := event.(isFinalized := true);

      events := events[eventId := event];
      res := Ok(());
    }

    method UpdateCompetence(reviewer: Pubkey, targetAuthority: Pubkey, scoreDelta: i64) returns (res: Result<()>)
      modifies this
      ensures Commits(old(Snapshot()), Snapshot(), res, H.UpdateCompetence(old(Snapshot()), reviewer, targetAuthority, scoreDelta))
    {
      if state.None? || targetAuthority !in members || reviewer !in members { return Err(AccountNotInitialized); }
      var st, member := state.value, members[targetAuthority];
      if !members[reviewer].isActive { return Err(MemberNotActive); }

      if st.activeMembers < MIN_QUORUM { return Err(DaoShutdown); }
      if scoreDelta >= 0 {
        var delta := CheckedMulU64(scoreDelta, SCALING_FACTOR);
        if delta.None? { return Err(ArithmeticOverflow); }
        var competence := CheckedAddU64(member.competenceScore, delta.value);
        if competence.None? { return Err(ArithmeticOverflow); }
        member := member.(competenceScore := competence.value);
        var total := CheckedAddU64(st.totalCompetence, delta.value);
        if total.None? { return Err(ArithmeticOverflow); }
        st := st.(totalCompetence := total.value);
      } else {
        var delta := CheckedMulU64(H.Magnitude(scoreDelta), SCALING_FACTOR);
        if delta.None? { return Err(ArithmeticOverflow); }
        var actualDelta := MinU64(delta.value, member.competenceScore);
        member := member.(competenceScore := member.competenceScore - actualDelta);
        var total := CheckedSubU64(st.totalCompetence, actualDelta);
        if total.None? { return Err(SlashingOverflow); }
        st := st.(totalCompetence := total.value);
      }

      state, members := Some(st), members[targetAuthority := member];
      res := Ok(());
    }

    method CreateProposal(proposer: Pubkey, title: string, description: string, proposalType: ProposalType,
                          votingPeriod: i64, now: i64) returns (res: Result<()>)
      modifies this
      ensures Commits(old(Snapshot()), Snapshot(), res,
                      H.CreateProposal(old(Snapshot()), proposer, title, description, proposalType, votingPeriod, now))
    {
      if state.None? || proposer !in members { return Err(AccountNotInitialized); }
      var st := state.value;
      if st.proposalCounter in proposals { return Err(AccountAlreadyInUse); }
      var member := members[proposer];
      if !member.isActive { return Err(MemberNotActive); }

      if st.activeMembers < MIN_QUORUM { return Err(DaoShutdown); }
      // the handler's second `member.is_active` check repeats the constraint above
      var totalPowerSnapshot := TotalVotingPower(st);
      var votingEndsAt := CheckedAddI64(now, votingPeriod);
      if votingEndsAt.None? { return Err(ArithmeticOverflow); }
      var proposal := Proposal(st.proposalCounter, member.authority, title, description, proposalType,
                               0, 0, totalPowerSnapshot, now, votingEndsAt.value, Active);
      var counter := CheckedAddU64(st.proposalCounter, 1);
      if counter.None? { return Err(ArithmeticOverflow); }
      st := st.(proposalCounter := counter.value);

      state, proposals := Some(st), proposals[proposal.id := proposal];
      res := Ok(());
    }

    method Vote(voter: Pubkey, proposalId: u64, support: bool, now: i64) returns (res: Result<()>)
      modifies this
      ensures Commits(old(Snapshot()), Snapshot(), res, H.Vote(old(Snapshot()), voter, proposalId, support, now))
    {
      if state.None? || proposalId !in proposals || voter !in members { return Err(AccountNotInitialized); }
      // the vote record is created with `init`: an existing one means this voter already voted
      if (proposalId, voter) in votes { return Err(AccountAlreadyInUse); }
      var st, proposal, member := state.value, proposals[proposalId], members[voter];
      if !member.isActive { return Err(MemberNotActive); }

      if st.activeMembers < MIN_QUORUM { return Err(DaoShutdown); }
      if proposal.status != Active { return Err(ProposalNotActive); }
      if !(now < proposal.votingEndsAt) { return Err(VotingPeriodEnded); }
      // a freshly created record has `has_voted == false`, so `AlreadyVoted` cannot arise here

      var weight := VotingWeight(member, st);
      if weight == 0 { return Err(InsufficientReputation); }
      if support {
        var votesFor := CheckedAddU128(proposal.votesFor, weight);
        if votesFor.None? { return Err(ArithmeticOverflow); }
        proposal := proposal.(votesFor := votesFor.value);
      } else {
        var votesAgainst := CheckedAddU128(proposal.votesAgainst, weight);
        if votesAgainst.None? { return Err(ArithmeticOverflow); }
        proposal := proposal.(votesAgainst := votesAgainst.value);
      }
      var voteRecord := VoteRecord(member.authority, proposal.id, support, weight, true);

      proposals, votes := proposals[proposalId := proposal], votes[(proposalId, voter) := voteRecord];
      res := Ok(());
    }

    method ExecuteProposal(proposalId: u64, now: i64) returns (res: Result<()>)
      modifies this
      ensures Commits(old(Snapshot()), Snapshot(), res, H.ExecuteProposal(old(Snapshot()), proposalId, now))
    {
      if state.None? || proposalId !in proposals { return Err(AccountNotInitialized); }
      var st, proposal := state.value, proposals[proposalId];

      if st.activeMembers < MIN_QUORUM { return Err(DaoShutdown); }
      if proposal.status != Active { return Err(ProposalNotActive); }
      if !(now >= proposal.votingEndsAt) { return Err(VotingPeriodNotEnded); }

      var passed := match proposal.proposalType
        case Critical => proposal.votesFor > proposal.totalPowerSnapshot / 2
        case Operational => proposal.votesFor > proposal.votesAgainst;
      proposal := proposal.(status := if passed then Passed else Rejected);

      proposals := proposals[proposalId := proposal];
      res := Ok(());
    }

    method BanMember(executor: Pubkey, targetAuthority: Pubkey) returns (res: Result<()>)
      modifies this
      ensures Commits(old(Snapshot()), Snapshot(), res, H.BanMember(old(Snapshot()), executor, targetAuthority))
    {
      if state.None? || targetAuthority !in members || executor !in members { return Err(AccountNotInitialized); }
      var st, member := state.value, members[targetAuthority];
      if !members[executor].isActive { return Err(MemberNotActive); }

      if st.activeMembers < MIN_QUORUM { return Err(DaoShutdown); }
      if !member.isActive { return Err(MemberNotActive); }

      var totalPresence := CheckedSubU64(st.totalPresence, member.presenceScore);
      if totalPresence.None? { return Err(SlashingOverflow); }
      var totalCompetence := CheckedSubU64(st.totalCompetence, member.competenceScore);
      if totalCompetence.None? { return Err(SlashingOverflow); }
      // active_members >= MIN_QUORUM here, so its decrement cannot underflow
      st := st.(totalPresence := totalPresence.value, totalCompetence := totalCompetence.value,
                activeMembers := st.activeMembers - 1);
      member := member.(isActive := false, presenceScore := 0, competenceScore := 0);

      state, members := Some(st), members[targetAuthority := member];
      res := Ok(());
    }

    method CooptMember(sponsor: Pubkey, newAuthority: Pubkey, now: i64) returns (res: Result<()>)
      modifies this
      ensures Commits(old(Snapshot()), Snapshot(), res, H.CooptMember(old(Snapshot()), sponsor, newAuthority, now))
    {
      if state.None? || sponsor !in members { return Err(AccountNotInitialized); }
      if newAuthority in members { return Err(AccountAlreadyInUse); }
      if !members[sponsor].isActive { return Err(MemberNotActive); }
      var st := state.value;

      if st.activeMembers < MIN_QUORUM { return Err(DaoShutdown); }
      var initialPresence, initialCompetence := SCALING_FACTOR, SCALING_FACTOR;
      var member := Member(newAuthority, initialPresence, initialCompetence, true, false, now);

      var totalPresence := CheckedAddU64(st.totalPresence, initialPresence);
      if totalPresence.None? { return Err(ArithmeticOverflow); }
      var totalCompetence := CheckedAddU64(st.totalCompetence, initialCompetence);
      if totalCompetence.None? { return Err(ArithmeticOverflow); }
      var activeMembers := CheckedAddU8(st.activeMembers, 1);
      if activeMembers.None? { return Err(ArithmeticOverflow); }
      st := st.(totalPresence := totalPresence.value, totalCompetence := totalCompetence.value,
                activeMembers := activeMembers.value);

      state, members := Some(st), members[newAuthority := member];
      res := Ok(());
    }
  }
}
