/**
  The program's constants, its account records, its error codes, and the
  account store: every program-derived account addressed by its logical seed
  (the singleton `State`, members by authority, events by id, registrations by
  (event id, member), proposals by id, vote records by (proposal id, voter)).
 */
module Accounts {
  import opened Arith

  /** Wallet addresses are opaque identities; only equality matters. */
  type Pubkey = nat

  // Constants of the program.
  const SCALING_FACTOR: u64 := 1_000_000_000
  const MIN_QUORUM: u8 := 3
  const MAX_GENESIS_MEMBERS: u8 := 3
  const SLOT_DURATION: i64 := 86400
  const GENESIS_PRESENCE: u64 := 3 * SCALING_FACTOR
  const GENESIS_COMPETENCE: u64 := 10 * SCALING_FACTOR
  const LATE_PENALTY: u64 := 1 * SCALING_FACTOR
  const GHOSTING_PENALTY: u64 := 2 * SCALING_FACTOR
  const OUBLI_PENALTY: u64 := 2 * SCALING_FACTOR
  const ATTENDANCE_REWARD: u64 := 1 * SCALING_FACTOR

  /** The global singleton (PDA bump omitted). */
  datatype State = State(
    authority: Pubkey,
    totalPresence: u64,
    totalCompetence: u64,
    activeMembers: u8,
    genesisCount: u8,
    eventCounter: u64,
    proposalCounter: u64)

  datatype Member = Member(
    authority: Pubkey,
    presenceScore: u64,
    competenceScore: u64,
    isActive: bool,
    isGenesis: bool,
    joinedAt: i64)

  /** An event ("track session"). */
  datatype TrackSession = TrackSession(
    id: u64,
    creator: Pubkey,
    startTime: i64,
    description: string,
    isFinalized: bool,
    registeredCount: u32,
    attendedCount: u32)

  datatype EventRegistration = EventRegistration(
    member: Pubkey,
    eventId: u64,
    isRegistered: bool,
    hasAttended: bool,
    registeredAt: i64)

  datatype ProposalType = Critical | Operational

  datatype ProposalStatus = Active | Passed | Rejected | Cancelled

  datatype Proposal = Proposal(
    id: u64,
    proposer: Pubkey,
    title: string,
    description: string,
    proposalType: ProposalType,
    votesFor: u128,
    votesAgainst: u128,
    totalPowerSnapshot: u128,
    createdAt: i64,
    votingEndsAt: i64,
    status: ProposalStatus)

  datatype VoteRecord = VoteRecord(
    voter: Pubkey,
    proposalId: u64,
    support: bool,
    weight: u128,
    hasVoted: bool)

  /**
    The program's `ErrorCode`, followed by the two account-validation failures
    the framework raises before a handler runs: a required account that does
    not exist, and an `init` account that already exists.
   */
  datatype Error =
    | DaoShutdown
    | EventAlreadyStarted
    | GenesisClosed
    | InsufficientReputation
    | SlashingOverflow
    | ArithmeticOverflow
    | MemberNotActive
    | NotRegistered
    | EventAlreadyFinalized
    | EventNotStartedYet
    | InvalidEventTime
    | Unauthorized
    | ProposalNotActive
    | VotingPeriodEnded
    | VotingPeriodNotEnded
    | AlreadyVoted
    | AccountNotInitialized
    | AccountAlreadyInUse

  /** The outcome of an instruction: a value on success, an error code otherwise. */
  datatype Result<+T> = Ok(value: T) | Err(error: Error)

  /** Every account of the program, keyed by the logical part of its seeds. */
  datatype Store = Store(
    state: Option<State>,
    members: map<Pubkey, Member>,
    events: map<u64, TrackSession>,
    registrations: map<(u64, Pubkey), EventRegistration>,
    proposals: map<u64, Proposal>,
    votes: map<(u64, Pubkey), VoteRecord>)

  /** The store before `initialize`: no account exists. */
  const EmptyStore: Store := Store(None, map[], map[], map[], map[], map[])
}
