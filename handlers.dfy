/**
  One pure transition function per instruction of the program. Each takes the
  store before the instruction and returns either the store after it or the
  error that aborts it; an aborted instruction commits nothing, so an `Err`
  carries no store.

  Each instruction is checked in the order the framework and the handler
  check it: first the accounts of its `Accounts` context that already exist
  are loaded, in field order (a missing one is `AccountNotInitialized`); then
  its `init` accounts are created (one that already exists is
  `AccountAlreadyInUse`); then the `constraint`s of the loaded accounts are
  checked in field order; only then does the handler body run. The
  `*Accounts` functions give these three phases.

  The clock is the explicit argument `now`. Signers are plain identities.
 */
module Handlers {
  import opened Arith
  import opened Accounts
  import opened Voting

  // ---------------------------------------------------------------------------
  // initialize
  // ---------------------------------------------------------------------------

  function InitializeAccounts(s: Store): Option<Error>
  {
    if s.state.Some? then Some(AccountAlreadyInUse) else None
  }

  function Initialize(s: Store, authority: Pubkey): Result<Store>
  {
    match InitializeAccounts(s)
    case Some(e) => Err(e)
    case None => Ok(s.(state := Some(State(authority, 0, 0, 0, 0, 0, 0))))
  }

  // ---------------------------------------------------------------------------
  // add_genesis_member (the signer is not compared with `state.authority`)
  // ---------------------------------------------------------------------------

  function AddGenesisMemberAccounts(s: Store, memberAuthority: Pubkey): Option<Error>
  {
    if s.state.None? then Some(AccountNotInitialized)
    else if memberAuthority in s.members then Some(AccountAlreadyInUse)
    else None
  }

  function AddGenesisMember(s: Store, memberAuthority: Pubkey, now: i64): Result<Store>
  {
    match AddGenesisMemberAccounts(s, memberAuthority)
    case Some(e) => Err(e)
    case None =>
      var st := s.state.value;
      if st.genesisCount >= MAX_GENESIS_MEMBERS then Err(GenesisClosed)
      else if st.totalPresence + GENESIS_PRESENCE > U64_MAX
           || st.totalCompetence + GENESIS_COMPETENCE > U64_MAX
           || st.activeMembers + 1 > U8_MAX
      then Err(ArithmeticOverflow)
      else
        var member := Member(memberAuthority, GENESIS_PRESENCE, GENESIS_COMPETENCE, true, true, now);
        Ok(s.(state := Some(st.(totalPresence := st.totalPresence + GENESIS_PRESENCE,
                                totalCompetence := st.totalCompetence + GENESIS_COMPETENCE,
                                activeMembers := st.activeMembers + 1,
                                genesisCount := st.genesisCount + 1)),
              members := s.members[memberAuthority := member]))
  }

  // ---------------------------------------------------------------------------
  // create_event
  // ---------------------------------------------------------------------------

  function CreateEventAccounts(s: Store, creator: Pubkey): Option<Error>
  {
    if s.state.None? || creator !in s.members then Some(AccountNotInitialized)
    else if s.state.value.eventCounter in s.events then Some(AccountAlreadyInUse)
    else if !s.members[creator].isActive then Some(MemberNotActive)
    else None
  }

  function CreateEvent(s: Store, creator: Pubkey, startTime: i64, description: string, now: i64): Result<Store>
  {
    match CreateEventAccounts(s, creator)
    case Some(e) => Err(e)
    case None =>
      var st := s.state.value;
      if st.activeMembers < MIN_QUORUM then Err(DaoShutdown)
      else if !(startTime > now) then Err(InvalidEventTime)
      else if st.eventCounter + 1 > U64_MAX then Err(ArithmeticOverflow)
      else
        var event := TrackSession(st.eventCounter, creator, startTime, description, false, 0, 0);
        Ok(s.(state := Some(st.(eventCounter := st.eventCounter + 1)),
              events := s.events[st.eventCounter := event]))
  }

  // ---------------------------------------------------------------------------
  // register_for_event / withdraw_from_event
  // ---------------------------------------------------------------------------

  /** The penalty of a registration or withdrawal: `LATE_PENALTY` inside the last slot. */
  function LatePenalty(timeUntilEvent: int, presence: u64): (r: u64)
    ensures timeUntilEvent >= SLOT_DURATION ==> r == 0
    ensures timeUntilEvent < SLOT_DURATION ==>
              r <= presence && r <= LATE_PENALTY && (r == presence || r == LATE_PENALTY)
  {
    if timeUntilEvent < SLOT_DURATION then MinU64(LATE_PENALTY, presence) else 0
  }

  function RegisterForEventAccounts(s: Store, authority: Pubkey, eventId: u64): Option<Error>
  {
    if s.state.None? || eventId !in s.events || authority !in s.members then Some(AccountNotInitialized)
    else if (eventId, authority) in s.registrations then Some(AccountAlreadyInUse)
    else if !s.members[authority].isActive then Some(MemberNotActive)
    else None
  }

  function RegisterForEvent(s: Store, authority: Pubkey, eventId: u64, now: i64): Result<Store>
  {
    match RegisterForEventAccounts(s, authority, eventId)
    case Some(e) => Err(e)
    case None =>
      var st, event, member := s.state.value, s.events[eventId], s.members[authority];
      if st.activeMembers < MIN_QUORUM then Err(DaoShutdown)
      else if event.isFinalized then Err(EventAlreadyFinalized)
      else if !(now < event.startTime) then Err(EventAlreadyStarted)
      else if event.startTime - now > I64_MAX then Err(ArithmeticOverflow)
      else
        var penalty := LatePenalty(event.startTime - now, member.presenceScore);
        if st.totalPresence < penalty then Err(SlashingOverflow)
        else if event.registeredCount + 1 > U32_MAX then Err(ArithmeticOverflow)
        else
          var registration := EventRegistration(member.authority, event.id, true, false, now);
          Ok(s.(state := Some(st.(totalPresence := st.totalPresence - penalty)),
                members := s.members[authority := member.(presenceScore := member.presenceScore - penalty)],
                events := s.events[eventId := event.(registeredCount := event.registeredCount + 1)],
                registrations := s.registrations[(eventId, authority) := registration]))
  }

  function WithdrawFromEventAccounts(s: Store, authority: Pubkey, eventId: u64): Option<Error>
  {
    if s.state.None? || eventId !in s.events || authority !in s.members
       || (eventId, authority) !in s.registrations
    then Some(AccountNotInitialized)
    else if !s.members[authority].isActive then Some(MemberNotActive)
    else if s.registrations[(eventId, authority)].member != authority then Some(Unauthorized)
    else None
  }

  function WithdrawFromEvent(s: Store, authority: Pubkey, eventId: u64, now: i64): Result<Store>
  {
    match WithdrawFromEventAccounts(s, authority, eventId)
    case Some(e) => Err(e)
    case None =>
      var st, event, member := s.state.value, s.events[eventId], s.members[authority];
      var registration := s.registrations[(eventId, authority)];
      if st.activeMembers < MIN_QUORUM then Err(DaoShutdown)
      else if event.isFinalized then Err(EventAlreadyFinalized)
      else if !(now < event.startTime) then Err(EventAlreadyStarted)
      else if !registration.isRegistered then Err(NotRegistered)
      else if event.startTime - now > I64_MAX then Err(ArithmeticOverflow)
      else
        var penalty := LatePenalty(event.startTime - now, member.presenceScore);
        if st.totalPresence < penalty then Err(SlashingOverflow)
        else if event.registeredCount == 0 then Err(ArithmeticOverflow)
        else
          Ok(s.(state := Some(st.(totalPresence := st.totalPresence - penalty)),
                members := s.members[authority := member.(presenceScore := member.presenceScore - penalty)],
                events := s.events[eventId := event.(registeredCount := event.registeredCount - 1)],
                registrations := s.registrations[(eventId, authority) := registration.(isRegistered := false)]))
  }

  // ---------------------------------------------------------------------------
  // record_attendance / finalize_event
  // ---------------------------------------------------------------------------

  function RecordAttendanceAccounts(s: Store, organizer: Pubkey, memberAuthority: Pubkey, eventId: u64): Option<Error>
  {
    if s.state.None? || eventId !in s.events || memberAuthority !in s.members
       || (eventId, memberAuthority) !in s.registrations || organizer !in s.members
    then Some(AccountNotInitialized)
    else if s.events[eventId].creator != organizer then Some(Unauthorized)
    else if !s.members[organizer].isActive then Some(MemberNotActive)
    else None
  }

  /**
    The (registered, present) table: reward, ghosting penalty, "oubli"
    penalty, or nothing. `is_finalized` and a prior `has_attended` are not
    consulted.
   */
  function RecordAttendance(s: Store, organizer: Pubkey, memberAuthority: Pubkey, eventId: u64,
                            wasPresent: bool, now: i64): Result<Store>
  {
    match RecordAttendanceAccounts(s, organizer, memberAuthority, eventId)
    case Some(e) => Err(e)
    case None =>
      var st, event, member := s.state.value, s.events[eventId], s.members[memberAuthority];
      var key := (eventId, memberAuthority);
      var registration := s.registrations[key];
      if st.activeMembers < MIN_QUORUM then Err(DaoShutdown)
      else if !(now >= event.startTime) then Err(EventNotStartedYet)
      else if registration.isRegistered && wasPresent then
        if member.presenceScore + ATTENDANCE_REWARD > U64_MAX
           || st.totalPresence + ATTENDANCE_REWARD > U64_MAX
           || event.attendedCount + 1 > U32_MAX
        then Err(ArithmeticOverflow)
        else
          Ok(s.(state := Some(st.(totalPresence := st.totalPresence + ATTENDANCE_REWARD)),
                members := s.members[memberAuthority := member.(presenceScore := member.presenceScore + ATTENDANCE_REWARD)],
                events := s.events[eventId := event.(attendedCount := event.attendedCount + 1)],
                registrations := s.registrations[key := registration.(hasAttended := true)]))
      else if registration.isRegistered then
        var penalty := MinU64(GHOSTING_PENALTY, member.presenceScore);
        if st.totalPresence < penalty then Err(SlashingOverflow)
        else
          Ok(s.(state := Some(st.(totalPresence := st.totalPresence - penalty)),
                members := s.members[memberAuthority := member.(presenceScore := member.presenceScore - penalty)]))
      else if wasPresent then
        var penalty := MinU64(OUBLI_PENALTY, member.presenceScore);
        if st.totalPresence < penalty then Err(SlashingOverflow)
        else if event.attendedCount + 1 > U32_MAX then Err(ArithmeticOverflow)
        else
          Ok(s.(state := Some(st.(totalPresence := st.totalPresence - penalty)),
                members := s.members[memberAuthority := member.(presenceScore := member.presenceScore - penalty)],
                events := s.events[eventId := event.(attendedCount := event.attendedCount + 1)],
                registrations := s.registrations[key := registration.(hasAttended := true)]))
      else
        Ok(s)
  }

  function FinalizeEventAccounts(s: Store, organizer: Pubkey, eventId: u64): Option<Error>
  {
    if s.state.None? || eventId !in s.events || organizer !in s.members then Some(AccountNotInitialized)
    else if s.events[eventId].creator != organizer then Some(Unauthorized)
    else if !s.members[organizer].isActive then Some(MemberNotActive)
    else None
  }

  function FinalizeEvent(s: Store, organizer: Pubkey, eventId: u64, now: i64): Result<Store>
  {
    match FinalizeEventAccounts(s, organizer, eventId)
    case Some(e) => Err(e)
    case None =>
      var st, event := s.state.value, s.events[eventId];
      if st.activeMembers < MIN_QUORUM then Err(DaoShutdown)
      else if event.isFinalized then Err(EventAlreadyFinalized)
      else if !(now >= event.startTime) then Err(EventNotStartedYet)
      else Ok(s.(events := s.events[eventId := event.(isFinalized := true)]))
  }

  // ---------------------------------------------------------------------------
  // update_competence
  // ---------------------------------------------------------------------------

  /**
    The magnitude `(-score_delta) as u64` of a negative delta. For `i64::MIN`
    the negation wraps back to `i64::MIN`, whose `u64` reading is 2^63.
   */
  function Magnitude(scoreDelta: i64): u64
    requires scoreDelta < 0
  {
    -(scoreDelta as int)
  }

  function UpdateCompetenceAccounts(s: Store, reviewer: Pubkey, targetAuthority: Pubkey): Option<Error>
  {
    if s.state.None? || targetAuthority !in s.members || reviewer !in s.members then Some(AccountNotInitialized)
    else if !s.members[reviewer].isActive then Some(MemberNotActive)
    else None
  }

  /** A peer review: the target need not be active. */
  function UpdateCompetence(s: Store, reviewer: Pubkey, targetAuthority: Pubkey, scoreDelta: i64): Result<Store>
  {
    match UpdateCompetenceAccounts(s, reviewer, targetAuthority)
    case Some(e) => Err(e)
    case None =>
      var st, member := s.state.value, s.members[targetAuthority];
      if st.activeMembers < MIN_QUORUM then Err(DaoShutdown)
      else if scoreDelta >= 0 then
        var delta: int := scoreDelta * SCALING_FACTOR;
        if delta > U64_MAX
           || member.competenceScore + delta > U64_MAX
           || st.totalCompetence + delta > U64_MAX
        then Err(ArithmeticOverflow)
        else
          Ok(s.(state := Some(st.(totalCompetence := st.totalCompetence + delta)),
                members := s.members[targetAuthority := member.(competenceScore := member.competenceScore + delta)]))
      else
        var delta: int := Magnitude(scoreDelta) * SCALING_FACTOR;
        if delta > U64_MAX then Err(ArithmeticOverflow)
        else
          var actual := MinU64(delta, member.competenceScore);
          if st.totalCompetence < actual then Err(SlashingOverflow)
          else
            Ok(s.(state := Some(st.(totalCompetence := st.totalCompetence - actual)),
                  members := s.members[targetAuthority := member.(competenceScore := member.competenceScore - actual)]))
  }

  // ---------------------------------------------------------------------------
  // create_proposal / vote / execute_proposal
  // ---------------------------------------------------------------------------

  function CreateProposalAccounts(s: Store, proposer: Pubkey): Option<Error>
  {
    if s.state.None? || proposer !in s.members then Some(AccountNotInitialized)
    else if s.state.value.proposalCounter in s.proposals then Some(AccountAlreadyInUse)
    else if !s.members[proposer].isActive then Some(MemberNotActive)
    else None
  }

  function CreateProposal(s: Store, proposer: Pubkey, title: string, description: string,
                          proposalType: ProposalType, votingPeriod: i64, now: i64): Result<Store>
  {
    match CreateProposalAccounts(s, proposer)
    case Some(e) => Err(e)
    case None =>
      var st, member := s.state.value, s.members[proposer];
      if st.activeMembers < MIN_QUORUM then Err(DaoShutdown)
      else if !(I64_MIN <= now + votingPeriod <= I64_MAX) then Err(ArithmeticOverflow)
      else if st.proposalCounter + 1 > U64_MAX then Err(ArithmeticOverflow)
      else
        var proposal := Proposal(st.proposalCounter, member.authority, title, description, proposalType,
                                 0, 0, TotalVotingPower(st), now, now + votingPeriod, Active);
        Ok(s.(state := Some(st.(proposalCounter := st.proposalCounter + 1)),
              proposals := s.proposals[st.proposalCounter := proposal]))
  }

  function VoteAccounts(s: Store, voter: Pubkey, proposalId: u64): Option<Error>
  {
    if s.state.None? || proposalId !in s.proposals || voter !in s.members then Some(AccountNotInitialized)
    else if (proposalId, voter) in s.votes then Some(AccountAlreadyInUse)
    else if !s.members[voter].isActive then Some(MemberNotActive)
    else None
  }

  function Vote(s: Store, voter: Pubkey, proposalId: u64, support: bool, now: i64): Result<Store>
  {
    match VoteAccounts(s, voter, proposalId)
    case Some(e) => Err(e)
    case None =>
      var st, proposal, member := s.state.value, s.proposals[proposalId], s.members[voter];
      var weight := VotingWeight(member, st);
      if st.activeMembers < MIN_QUORUM then Err(DaoShutdown)
      else if proposal.status != Active then Err(ProposalNotActive)
      else if !(now < proposal.votingEndsAt) then Err(VotingPeriodEnded)
      else if weight == 0 then Err(InsufficientReputation)
      else if support && proposal.votesFor + weight > U128_MAX then Err(ArithmeticOverflow)
      else if !support && proposal.votesAgainst + weight > U128_MAX then Err(ArithmeticOverflow)
      else
        var tallied := if support then proposal.(votesFor := proposal.votesFor + weight)
                       else proposal.(votesAgainst := proposal.votesAgainst + weight);
        Ok(s.(proposals := s.proposals[proposalId := tallied],
              votes := s.votes[(proposalId, voter) := VoteRecord(member.authority, proposal.id, support, weight, true)]))
  }

  function ExecuteProposalAccounts(s: Store, proposalId: u64): Option<Error>
  {
    if s.state.None? || proposalId !in s.proposals then Some(AccountNotInitialized) else None
  }

  function ExecuteProposal(s: Store, proposalId: u64, now: i64): Result<Store>
  {
    match ExecuteProposalAccounts(s, proposalId)
    case Some(e) => Err(e)
    case None =>
      var st, proposal := s.state.value, s.proposals[proposalId];
      if st.activeMembers < MIN_QUORUM then Err(DaoShutdown)
      else if proposal.status != Active then Err(ProposalNotActive)
      else if !(now >= proposal.votingEndsAt) then Err(VotingPeriodNotEnded)
      else
        var status := if ProposalPasses(proposal) then Passed else Rejected;
        Ok(s.(proposals := s.proposals[proposalId := proposal.(status := status)]))
  }

  // ---------------------------------------------------------------------------
  // ban_member / coopt_member (no passed proposal is consulted)
  // ---------------------------------------------------------------------------

  function BanMemberAccounts(s: Store, executor: Pubkey, targetAuthority: Pubkey): Option<Error>
  {
    if s.state.None? || targetAuthority !in s.members || executor !in s.members then Some(AccountNotInitialized)
    else if !s.members[executor].isActive then Some(MemberNotActive)
    else None
  }

  function BanMember(s: Store, executor: Pubkey, targetAuthority: Pubkey): Result<Store>
  {
    match BanMemberAccounts(s, executor, targetAuthority)
    case Some(e) => Err(e)
    case None =>
      var st, member := s.state.value, s.members[targetAuthority];
      if st.activeMembers < MIN_QUORUM then Err(DaoShutdown)
      else if !member.isActive then Err(MemberNotActive)
      else if st.totalPresence < member.presenceScore || st.totalCompetence < member.competenceScore
      then Err(SlashingOverflow)
      else
        Ok(s.(state := Some(st.(totalPresence := st.totalPresence - member.presenceScore,
                                totalCompetence := st.totalCompetence - member.competenceScore,
                                activeMembers := st.activeMembers - 1)),
              members := s.members[targetAuthority := member.(isActive := false, presenceScore := 0, competenceScore := 0)]))
  }

  function CooptMemberAccounts(s: Store, sponsor: Pubkey, newAuthority: Pubkey): Option<Error>
  {
    if s.state.None? || sponsor !in s.members then Some(AccountNotInitialized)
    else if newAuthority in s.members then Some(AccountAlreadyInUse)
    else if !s.members[sponsor].isActive then Some(MemberNotActive)
    else None
  }

  function CooptMember(s: Store, sponsor: Pubkey, newAuthority: Pubkey, now: i64): Result<Store>
  {
    match CooptMemberAccounts(s, sponsor, newAuthority)
    case Some(e) => Err(e)
    case None =>
      var st := s.state.value;
      if st.activeMembers < MIN_QUORUM then Err(DaoShutdown)
      else if st.totalPresence + SCALING_FACTOR > U64_MAX
           || st.totalCompetence + SCALING_FACTOR > U64_MAX
           || st.activeMembers + 1 > U8_MAX
      then Err(ArithmeticOverflow)
      else
        var member := Member(newAuthority, SCALING_FACTOR, SCALING_FACTOR, true, false, now);
        Ok(s.(state := Some(st.(totalPresence := st.totalPresence + SCALING_FACTOR,
                                totalCompetence := st.totalCompetence + SCALING_FACTOR,
                                activeMembers := st.activeMembers + 1)),
              members := s.members[newAuthority := member]))
  }

  // ---------------------------------------------------------------------------
  // The instruction set
  // ---------------------------------------------------------------------------

  datatype Instruction =
    | InitializeIx(authority: Pubkey)
    | AddGenesisMemberIx(memberAuthority: Pubkey)
    | CreateEventIx(creator: Pubkey, startTime: i64, description: string)
    | RegisterForEventIx(authority: Pubkey, eventId: u64)
    | WithdrawFromEventIx(authority: Pubkey, eventId: u64)
    | RecordAttendanceIx(organizer: Pubkey, memberAuthority: Pubkey, eventId: u64, wasPresent: bool)
    | FinalizeEventIx(organizer: Pubkey, eventId: u64)
    | UpdateCompetenceIx(reviewer: Pubkey, targetAuthority: Pubkey, scoreDelta: i64)
    | CreateProposalIx(proposer: Pubkey, title: string, description: string, proposalType: ProposalType, votingPeriod: i64)
    | VoteIx(voter: Pubkey, proposalId: u64, support: bool)
    | ExecuteProposalIx(proposalId: u64)
    | BanMemberIx(executor: Pubkey, targetAuthority: Pubkey)
    | CooptMemberIx(sponsor: Pubkey, newAuthority: Pubkey)

  /** The account-validation error of an instruction, if any. */
  function AccountsCheck(s: Store, ix: Instruction): Option<Error>
  {
    match ix
    case InitializeIx(_) => InitializeAccounts(s)
    case AddGenesisMemberIx(a) => AddGenesisMemberAccounts(s, a)
    case CreateEventIx(c, _, _) => CreateEventAccounts(s, c)
    case RegisterForEventIx(a, e) => RegisterForEventAccounts(s, a, e)
    case WithdrawFromEventIx(a, e) => WithdrawFromEventAccounts(s, a, e)
    case RecordAttendanceIx(o, a, e, _) => RecordAttendanceAccounts(s, o, a, e)
    case FinalizeEventIx(o, e) => FinalizeEventAccounts(s, o, e)
    case UpdateCompetenceIx(r, t, _) => UpdateCompetenceAccounts(s, r, t)
    case CreateProposalIx(p, _, _, _, _) => CreateProposalAccounts(s, p)
    case VoteIx(v, p, _) => VoteAccounts(s, v, p)
    case ExecuteProposalIx(p) => ExecuteProposalAccounts(s, p)
    case BanMemberIx(x, t) => BanMemberAccounts(s, x, t)
    case CooptMemberIx(sp, n) => CooptMemberAccounts(s, sp, n)
  }

  /** The program's entry point: one instruction, at time `now`. */
  function Step(s: Store, ix: Instruction, now: i64): Result<Store>
  {
    match ix
    case InitializeIx(a) => Initialize(s, a)
    case AddGenesisMemberIx(a) => AddGenesisMember(s, a, now)
    case CreateEventIx(c, t, d) => CreateEvent(s, c, t, d, now)
    case RegisterForEventIx(a, e) => RegisterForEvent(s, a, e, now)
    case WithdrawFromEventIx(a, e) => WithdrawFromEvent(s, a, e, now)
    case RecordAttendanceIx(o, a, e, p) => RecordAttendance(s, o, a, e, p, now)
    case FinalizeEventIx(o, e) => FinalizeEvent(s, o, e, now)
    case UpdateCompetenceIx(r, t, d) => UpdateCompetence(s, r, t, d)
    case CreateProposalIx(p, ti, de, ty, vp) => CreateProposal(s, p, ti, de, ty, vp, now)
    case VoteIx(v, p, su) => Vote(s, v, p, su, now)
    case ExecuteProposalIx(p) => ExecuteProposal(s, p, now)
    case BanMemberIx(x, t) => BanMember(s, x, t)
    case CooptMemberIx(sp, n) => CooptMember(s, sp, n, now)
  }
}
