/**
  Properties that hold across all instructions: account validation comes
  first, the quorum kill switch, the permanent freeze once the genesis phase
  is over, the id counters, the terminal proposal statuses, and the absence
  of reactivation and of slashing underflow on a valid store.
 */
module Lifecycle {
  import opened Arith
  import opened Accounts
  import opened Voting
  import opened Handlers
  import opened Invariants

  // ---------------------------------------------------------------------------
  // The three phases of account validation, stated per instruction
  // ---------------------------------------------------------------------------

  /** Every account of the instruction that is not `init` exists already. */
  predicate Loads(s: Store, ix: Instruction)
  {
    match ix
    case InitializeIx(_) => true
    case AddGenesisMemberIx(_) => s.state.Some?
    case CreateEventIx(c, _, _) => s.state.Some? && c in s.members
    case RegisterForEventIx(a, e) => s.state.Some? && e in s.events && a in s.members
    case WithdrawFromEventIx(a, e) =>
      s.state.Some? && e in s.events && a in s.members && (e, a) in s.registrations
    case RecordAttendanceIx(o, a, e, _) =>
      s.state.Some? && e in s.events && a in s.members && (e, a) in s.registrations && o in s.members
    case FinalizeEventIx(o, e) => s.state.Some? && e in s.events && o in s.members
    case UpdateCompetenceIx(r, t, _) => s.state.Some? && t in s.members && r in s.members
    case CreateProposalIx(p, _, _, _, _) => s.state.Some? && p in s.members
    case VoteIx(v, p, _) => s.state.Some? && p in s.proposals && v in s.members
    case ExecuteProposalIx(p) => s.state.Some? && p in s.proposals
    case BanMemberIx(x, t) => s.state.Some? && t in s.members && x in s.members
    case CooptMemberIx(sp, _) => s.state.Some? && sp in s.members
  }

  /** None of the accounts the instruction creates (`init`) exists yet. */
  predicate InitTargetsFree(s: Store, ix: Instruction)
    requires Loads(s, ix)
  {
    match ix
    case InitializeIx(_) => s.state.None?
    case AddGenesisMemberIx(a) => a !in s.members
    case CreateEventIx(_, _, _) => s.state.value.eventCounter !in s.events
    case RegisterForEventIx(a, e) => (e, a) !in s.registrations
    case CreateProposalIx(_, _, _, _, _) => s.state.value.proposalCounter !in s.proposals
    case VoteIx(v, p, _) => (p, v) !in s.votes
    case CooptMemberIx(_, n) => n !in s.members
    case _ => true
  }

  /** Every `constraint` of the loaded accounts holds. */
  predicate ConstraintsHold(s: Store, ix: Instruction)
    requires Loads(s, ix)
  {
    match ix
    case InitializeIx(_) => true
    case AddGenesisMemberIx(_) => true
    case CreateEventIx(c, _, _) => s.members[c].isActive
    case RegisterForEventIx(a, _) => s.members[a].isActive
    case WithdrawFromEventIx(a, e) => s.members[a].isActive && s.registrations[(e, a)].member == a
    case RecordAttendanceIx(o, _, e, _) => s.events[e].creator == o && s.members[o].isActive
    case FinalizeEventIx(o, e) => s.events[e].creator == o && s.members[o].isActive
    case UpdateCompetenceIx(r, _, _) => s.members[r].isActive
    case CreateProposalIx(p, _, _, _, _) => s.members[p].isActive
    case VoteIx(v, _, _) => s.members[v].isActive
    case ExecuteProposalIx(_) => true
    case BanMemberIx(x, _) => s.members[x].isActive
    case CooptMemberIx(sp, _) => s.members[sp].isActive
  }

  /**
    Account validation runs in three phases: a missing account is reported
    before an `init` account that exists already, and both before any
    `constraint`; a failing constraint is `MemberNotActive` or `Unauthorized`.
   */
  lemma ValidationPhases(s: Store, ix: Instruction)
    ensures !Loads(s, ix) ==> AccountsCheck(s, ix) == Some(AccountNotInitialized)
    ensures Loads(s, ix) && !InitTargetsFree(s, ix) ==> AccountsCheck(s, ix) == Some(AccountAlreadyInUse)
    ensures Loads(s, ix) && InitTargetsFree(s, ix) ==> (AccountsCheck(s, ix).None? <==> ConstraintsHold(s, ix))
    ensures Loads(s, ix) && InitTargetsFree(s, ix) && !ConstraintsHold(s, ix) ==>
              AccountsCheck(s, ix) == Some(MemberNotActive) || AccountsCheck(s, ix) == Some(Unauthorized)
  {
    match ix
    case InitializeIx(_) =>
    case AddGenesisMemberIx(_) =>
    case CreateEventIx(_, _, _) =>
    case RegisterForEventIx(_, _) =>
    case WithdrawFromEventIx(_, _) =>
    case RecordAttendanceIx(_, _, _, _) =>
    case FinalizeEventIx(_, _) =>
    case UpdateCompetenceIx(_, _, _) =>
    case CreateProposalIx(_, _, _, _, _) =>
    case VoteIx(_, _, _) =>
    case ExecuteProposalIx(_) =>
    case BanMemberIx(_, _) =>
    case CooptMemberIx(_, _) =>
  }

  /** An account that fails to load or to validate aborts the instruction with that error. */
  lemma AccountErrorsComeFirst(s: Store, ix: Instruction, now: i64)
    requires AccountsCheck(s, ix).Some?
    ensures Step(s, ix, now) == Err(AccountsCheck(s, ix).value)
  {
    match ix
    case InitializeIx(_) =>
    case AddGenesisMemberIx(_) =>
    case CreateEventIx(_, _, _) =>
    case RegisterForEventIx(_, _) =>
    case WithdrawFromEventIx(_, _) =>
    case RecordAttendanceIx(_, _, _, _) =>
    case FinalizeEventIx(_, _) =>
    case UpdateCompetenceIx(_, _, _) =>
    case CreateProposalIx(_, _, _, _, _) =>
    case VoteIx(_, _, _) =>
    case ExecuteProposalIx(_) =>
    case BanMemberIx(_, _) =>
    case CooptMemberIx(_, _) =>
  }

  /**
    The kill switch: below the quorum of three active members every
    instruction except `add_genesis_member` fails, and once its accounts
    validate the failure is `DaoShutdown` (a second `initialize` fails on its
    existing account).
   */
  lemma KillSwitch(s: Store, ix: Instruction, now: i64)
    requires s.state.Some? && s.state.value.activeMembers < MIN_QUORUM
    requires !ix.AddGenesisMemberIx?
    ensures Step(s, ix, now).Err?
    ensures ix.InitializeIx? ==> Step(s, ix, now) == Err(AccountAlreadyInUse)
    ensures !ix.InitializeIx? && AccountsCheck(s, ix).None? ==> Step(s, ix, now) == Err(DaoShutdown)
  {
    if AccountsCheck(s, ix).Some? {
      AccountErrorsComeFirst(s, ix, now);
    } else {
      match ix
      case InitializeIx(_) =>
      case CreateEventIx(_, _, _) =>
      case RegisterForEventIx(_, _) =>
      case WithdrawFromEventIx(_, _) =>
      case RecordAttendanceIx(_, _, _, _) =>
      case FinalizeEventIx(_, _) =>
      case UpdateCompetenceIx(_, _, _) =>
      case CreateProposalIx(_, _, _, _, _) =>
      case VoteIx(_, _, _) =>
      case ExecuteProposalIx(_) =>
      case BanMemberIx(_, _) =>
      case CooptMemberIx(_, _) =>
    }
  }

  /**
    Below the quorum with the genesis phase closed, no instruction succeeds:
    nothing can raise `active_members` again.
   */
  lemma FrozenStep(s: Store, ix: Instruction, now: i64)
    requires s.state.Some? && s.state.value.activeMembers < MIN_QUORUM
    requires s.state.value.genesisCount >= MAX_GENESIS_MEMBERS
    ensures Step(s, ix, now).Err?
  {
    if !ix.AddGenesisMemberIx? {
      KillSwitch(s, ix, now);
    }
  }

  /** A frozen deployment stays exactly as it is, whatever is sent to it. */
  lemma {:induction false} FrozenForever(s: Store, trace: seq<(Instruction, i64)>)
    requires s.state.Some? && s.state.value.activeMembers < MIN_QUORUM
    requires s.state.value.genesisCount >= MAX_GENESIS_MEMBERS
    ensures Run(s, trace) == s
    decreases |trace|
  {
    if trace != [] {
      FrozenStep(s, trace[0].0, trace[0].1);
      FrozenForever(s, trace[1..]);
    }
  }

  /** `initialize` succeeds exactly once, on an empty deployment, with zeroed aggregates. */
  lemma InitializeOnce(s: Store, authority: Pubkey, other: Pubkey)
    ensures Initialize(s, authority).Ok? <==> s.state.None?
    ensures Initialize(s, authority).Ok? ==>
              Initialize(s, authority).value == s.(state := Some(State(authority, 0, 0, 0, 0, 0, 0)))
              && Initialize(Initialize(s, authority).value, other) == Err(AccountAlreadyInUse)
  {
  }

  /** On a valid store the next event id and the next proposal id are unused. */
  lemma FreshIds(s: Store)
    requires Valid(s) && s.state.Some?
    ensures s.state.value.eventCounter !in s.events
    ensures s.state.value.proposalCounter !in s.proposals
  {
  }

  /**
    The counters never decrease: `event_counter` grows by exactly one on a
    successful `create_event` and `proposal_counter` by exactly one on a
    successful `create_proposal`; every other instruction leaves them alone.
   */
  lemma CountersAdvanceByOne(s: Store, ix: Instruction, now: i64)
    requires s.state.Some? && Step(s, ix, now).Ok?
    ensures Step(s, ix, now).value.state.Some?
    ensures Step(s, ix, now).value.state.value.eventCounter
            == s.state.value.eventCounter + (if ix.CreateEventIx? then 1 else 0)
    ensures Step(s, ix, now).value.state.value.proposalCounter
            == s.state.value.proposalCounter + (if ix.CreateProposalIx? then 1 else 0)
  {
    match ix
    case InitializeIx(_) =>
    case AddGenesisMemberIx(_) =>
    case CreateEventIx(_, _, _) =>
    case RegisterForEventIx(_, _) =>
    case WithdrawFromEventIx(_, _) =>
    case RecordAttendanceIx(_, _, _, _) =>
    case FinalizeEventIx(_, _) =>
    case UpdateCompetenceIx(_, _, _) =>
    case CreateProposalIx(_, _, _, _, _) =>
    case VoteIx(_, _, _) =>
    case ExecuteProposalIx(_) =>
    case BanMemberIx(_, _) =>
    case CooptMemberIx(_, _) =>
  }

  /**
    `Passed` and `Rejected` (and `Cancelled`) are terminal: once a proposal
    has left `Active`, no instruction changes its record again.
   */
  lemma SettledProposalIsFrozen(s: Store, ix: Instruction, now: i64, id: u64)
    requires id in s.proposals && s.proposals[id].status != Active
    requires Step(s, ix, now).Ok?
    ensures id in Step(s, ix, now).value.proposals
    ensures Step(s, ix, now).value.proposals[id] == s.proposals[id]
  {
    match ix
    case InitializeIx(_) =>
    case AddGenesisMemberIx(_) =>
    case CreateEventIx(_, _, _) =>
    case RegisterForEventIx(_, _) =>
    case WithdrawFromEventIx(_, _) =>
    case RecordAttendanceIx(_, _, _, _) =>
    case FinalizeEventIx(_, _) =>
    case UpdateCompetenceIx(_, _, _) =>
    case CreateProposalIx(_, _, _, _, _) =>
    case VoteIx(_, _, _) =>
    case ExecuteProposalIx(_) =>
    case BanMemberIx(_, _) =>
    case CooptMemberIx(_, _) =>
  }

  /**
    Member accounts are never closed, and a banned member is never
    reactivated: nothing sets `is_active` back to true.
   */
  lemma NoReactivation(s: Store, ix: Instruction, now: i64, a: Pubkey)
    requires a in s.members && Step(s, ix, now).Ok?
    ensures a in Step(s, ix, now).value.members
    ensures !s.members[a].isActive ==> !Step(s, ix, now).value.members[a].isActive
  {
    match ix
    case InitializeIx(_) =>
    case AddGenesisMemberIx(_) =>
    case CreateEventIx(_, _, _) =>
    case RegisterForEventIx(_, _) =>
    case WithdrawFromEventIx(_, _) =>
    case RecordAttendanceIx(_, _, _, _) =>
    case FinalizeEventIx(_, _) =>
    case UpdateCompetenceIx(_, _, _) =>
    case CreateProposalIx(_, _, _, _, _) =>
    case VoteIx(_, _, _) =>
    case ExecuteProposalIx(_) =>
    case BanMemberIx(_, _) =>
    case CooptMemberIx(_, _) =>
  }

  /**
    Registration and vote records are never closed: a record that exists
    before a successful instruction still exists after it.
   */
  lemma RecordsPersist(s: Store, ix: Instruction, now: i64, k: (u64, Pubkey))
    requires Step(s, ix, now).Ok?
    ensures k in s.registrations ==> k in Step(s, ix, now).value.registrations
    ensures k in s.votes ==> k in Step(s, ix, now).value.votes
  {
    match ix
    case InitializeIx(_) =>
    case AddGenesisMemberIx(_) =>
    case CreateEventIx(_, _, _) =>
    case RegisterForEventIx(_, _) =>
    case WithdrawFromEventIx(_, _) =>
    case RecordAttendanceIx(_, _, _, _) =>
    case FinalizeEventIx(_, _) =>
    case UpdateCompetenceIx(_, _, _) =>
    case CreateProposalIx(_, _, _, _, _) =>
    case VoteIx(_, _, _) =>
    case ExecuteProposalIx(_) =>
    case BanMemberIx(_, _) =>
    case CooptMemberIx(_, _) =>
  }

  /** The same along any sequence of instructions. */
  lemma {:induction false} RecordsPersistAlong(s: Store, trace: seq<(Instruction, i64)>, k: (u64, Pubkey))
    ensures k in s.registrations ==> k in Run(s, trace).registrations
    ensures k in s.votes ==> k in Run(s, trace).votes
    decreases |trace|
  {
    if trace != [] {
      match Step(s, trace[0].0, trace[0].1)
      case Ok(s') =>
        RecordsPersist(s, trace[0].0, trace[0].1, k);
        RecordsPersistAlong(s', trace[1..], k);
      case Err(_) =>
        RecordsPersistAlong(s, trace[1..], k);
    }
  }

  /**
    On a valid store no instruction fails with `SlashingOverflow`: every
    deduction is at most the member's score, and no score exceeds the total.
   */
  lemma NoSlashingOverflow(s: Store, ix: Instruction, now: i64)
    requires Valid(s)
    ensures Step(s, ix, now) != Err(SlashingOverflow)
  {
    match ix
    case InitializeIx(_) =>
    case AddGenesisMemberIx(_) =>
    case CreateEventIx(_, _, _) =>
    case RegisterForEventIx(a, _) =>
      if a in s.members { TallyBounds(s.members, a, Presence); }
    case WithdrawFromEventIx(a, _) =>
      if a in s.members { TallyBounds(s.members, a, Presence); }
    case RecordAttendanceIx(_, a, _, _) =>
      if a in s.members { TallyBounds(s.members, a, Presence); }
    case FinalizeEventIx(_, _) =>
    case UpdateCompetenceIx(_, t, _) =>
      if t in s.members { TallyBounds(s.members, t, Competence); }
    case CreateProposalIx(_, _, _, _, _) =>
    case VoteIx(_, _, _) =>
    case ExecuteProposalIx(_) =>
    case BanMemberIx(_, t) =>
      if t in s.members {
        TallyBounds(s.members, t, Presence);
        TallyBounds(s.members, t, Competence);
      }
    case CooptMemberIx(_, _) =>
  }

  /**
    Nothing moves a proposal to `Cancelled`, and the `AlreadyVoted` error is
    never raised: a vote record that exists already fails to be created.
   */
  lemma NoCancellationNoAlreadyVoted(s: Store, ix: Instruction, now: i64, id: u64)
    ensures Step(s, ix, now) != Err(AlreadyVoted)
    ensures Step(s, ix, now).Ok? && id in Step(s, ix, now).value.proposals
            && Step(s, ix, now).value.proposals[id].status == Cancelled ==>
              id in s.proposals && s.proposals[id].status == Cancelled
  {
    match ix
    case InitializeIx(_) =>
    case AddGenesisMemberIx(_) =>
    case CreateEventIx(_, _, _) =>
    case RegisterForEventIx(_, _) =>
    case WithdrawFromEventIx(_, _) =>
    case RecordAttendanceIx(_, _, _, _) =>
    case FinalizeEventIx(_, _) =>
    case UpdateCompetenceIx(_, _, _) =>
    case CreateProposalIx(_, _, _, _, _) =>
    case VoteIx(_, _, _) =>
    case ExecuteProposalIx(_) =>
    case BanMemberIx(_, _) =>
    case CooptMemberIx(_, _) =>
  }
}
