# Reputation-weighted DAO: a verified model of the on-chain program

This project models the Anchor program of a reputation-weighted DAO, the
Solana program in `dao/programs/dao/src/lib.rs`. Members hold two u64 scores
in fixed point (`SCALING_FACTOR` = 10^9):

- presence: earned by attending events, lost to late registration and
  withdrawal, to "ghosting" and to forgotten registrations;
- competence: moved by peer review.

A global `State` keeps the running totals of both scores, the number of
active members, the number of genesis members and two id counters. Every
instruction except `initialize` and `add_genesis_member` is refused with
`DaoShutdown` while fewer than three members are active (the kill switch).

Proposals are voted on with the weight `p·c·10^9 / (P·C)`. It is computed in
u128 with saturating products. A proposal is settled as `Passed` or
`Rejected` once its voting period ends.

The model has these layers:

- `Arith` gives the fixed-width integer types and Rust's checked and
  saturating operations.
- `Accounts` gives the constants, the account records, the error codes and
  the account store. The store holds the singleton `State`, plus maps keyed
  by the logical part of each account's seeds: members by authority, events
  by id, registrations by (event id, member), proposals by id, vote records
  by (proposal id, voter).
- `Voting` gives the two pure helpers (`calculate_voting_weight`,
  `calculate_total_voting_power`) and the pass rule of `execute_proposal`.
- `Handlers` gives one transition function per instruction. It maps the
  store and the arguments to the new store or to the error that aborts the
  instruction. It follows the framework's order:
  1. every account of the instruction's `Accounts` context that is not
     `init` is loaded, in field order. A missing one is
     `AccountNotInitialized`.
  2. then the `init` accounts are created. One that already exists is
     `AccountAlreadyInUse`.
  3. then the `constraint`s of the loaded accounts are checked, in field
     order.
  4. the handler body runs.

  `Step` dispatches an `Instruction` to its transition function.
- `Program.Dao` is the program as it runs: a class whose fields are the
  account maps, with one method per instruction. Each method updates
  `members`, `events`, `registrations`, `proposals`, `votes` and `state` with
  the handler's checked arithmetic and early returns. Each is proved to
  commit exactly the transition function's store, or to return its error and
  change nothing.
- `Invariants` proves that the aggregates in `State` always equal the sums
  over the member accounts, under every instruction and every run.
- `Lifecycle`, `EventRules`, `GovernanceRules` and `Scenarios` prove the
  program's promises: per instruction, across instructions, and on concrete
  runs.

Places where the code differs from its own comments:

- `State`'s doc comment (lib.rs:618-621) calls `total_presence` and
  `total_competence` the sums over *active* members. The code keeps the sums
  over *all* member accounts. `record_attendance` and `update_competence`
  accept an inactive target, so a banned member can hold score again. The
  proved invariant is therefore the all-members sum, and
  `Scenarios.BannedMemberRegainsPresence` and
  `Scenarios.BannedMemberRegainsCompetence` show the difference.
- `calculate_total_voting_power`'s comment says the members' weights add up
  to `SCALING_FACTOR`. The function returns the constant `SCALING_FACTOR`,
  while three equal genesis members weigh `SCALING_FACTOR / 9` each. As a
  result a Critical proposal that all three genesis members vote for is
  rejected (`Scenarios.UnanimousGenesisCriticalVoteRejected`).

The clock (`Clock::get()`) is the explicit argument `now` of every
instruction that reads it. A signer is an explicit identity argument.

## Model

| member | source | states |
|---|---|---|
| `Arith.MinU64` | dao/programs/dao/src/lib.rs:155-159 | a penalty deducts `min(penalty, score)`: never more than the score nor the penalty, and exactly one of them |
| `Handlers.LatePenalty` | dao/programs/dao/src/lib.rs:150-161 | nothing is deducted when the event starts `SLOT_DURATION` (86400 s) or more after `now`; inside that slot the deduction is at most the member's presence and at most `LATE_PENALTY`, and equals one of the two |
| `Handlers.InitializeAccounts` | dao/programs/dao/src/lib.rs:773-788 | the `init` of `state`: `AccountAlreadyInUse` when it exists; specified by `Lifecycle.ValidationPhases` |
| `Handlers.AddGenesisMemberAccounts` | dao/programs/dao/src/lib.rs:790-816 | `state` loaded, then the `init` member account; specified by `Lifecycle.ValidationPhases` |
| `Handlers.CreateEventAccounts` | dao/programs/dao/src/lib.rs:818-847 | `state` and the creator's member loaded, then the `init` event under the counter, then the active constraint; specified by `Lifecycle.ValidationPhases` |
| `Handlers.RegisterForEventAccounts` | dao/programs/dao/src/lib.rs:849-886 | `state`, event and member loaded, then the `init` registration, then the active constraint; specified by `Lifecycle.ValidationPhases` |
| `Handlers.WithdrawFromEventAccounts` | dao/programs/dao/src/lib.rs:888-922 | `state`, event, member and registration loaded, then the active and owner constraints; specified by `Lifecycle.ValidationPhases` |
| `Handlers.RecordAttendanceAccounts` | dao/programs/dao/src/lib.rs:924-967 | `state`, event, member, registration and organizer loaded, then the creator and active constraints; specified by `Lifecycle.ValidationPhases` |
| `Handlers.FinalizeEventAccounts` | dao/programs/dao/src/lib.rs:969-993 | `state`, event and organizer loaded, then the creator and active constraints; specified by `Lifecycle.ValidationPhases` |
| `Handlers.UpdateCompetenceAccounts` | dao/programs/dao/src/lib.rs:995-1022 | `state`, target and reviewer loaded, then the reviewer's active constraint; specified by `Lifecycle.ValidationPhases` |
| `Handlers.CreateProposalAccounts` | dao/programs/dao/src/lib.rs:1024-1053 | `state` and the proposer's member loaded, then the `init` proposal under the counter, then the active constraint; specified by `Lifecycle.ValidationPhases` |
| `Handlers.VoteAccounts` | dao/programs/dao/src/lib.rs:1055-1090 | `state`, proposal and voter loaded, then the `init` vote record, then the active constraint; specified by `Lifecycle.ValidationPhases` |
| `Handlers.ExecuteProposalAccounts` | dao/programs/dao/src/lib.rs:1092-1108 | `state` and proposal loaded; specified by `Lifecycle.ValidationPhases` |
| `Handlers.BanMemberAccounts` | dao/programs/dao/src/lib.rs:1110-1137 | `state`, target and executor loaded, then the executor's active constraint; specified by `Lifecycle.ValidationPhases` |
| `Handlers.CooptMemberAccounts` | dao/programs/dao/src/lib.rs:1139-1171 | `state` and the sponsor's member loaded, then the `init` new member, then the active constraint; specified by `Lifecycle.ValidationPhases` |
| `Handlers.Initialize` | dao/programs/dao/src/lib.rs:48-61 | the `initialize` transition; specified by `Lifecycle.InitializeOnce` and `Invariants.InitializeKeepsValid` |
| `Handlers.AddGenesisMember` | dao/programs/dao/src/lib.rs:64-94 | the `add_genesis_member` transition; specified by `GovernanceRules.GenesisSucceeds`, `GovernanceRules.GenesisEffect` and `Invariants.AddGenesisMemberKeepsValid` |
| `Handlers.CreateEvent` | dao/programs/dao/src/lib.rs:97-128 | the `create_event` transition; specified by `EventRules.CreateEventSucceeds`, `EventRules.CreateEventAssignsId`, `EventRules.CreateEventRejectsPast` and `Invariants.CreateEventKeepsValid` |
| `Handlers.RegisterForEvent` | dao/programs/dao/src/lib.rs:131-175 | the `register_for_event` transition; specified by `EventRules.RegisterSucceeds`, `EventRules.RegisterEffect`, `EventRules.RegisterRejects` and `Invariants.RegisterForEventKeepsValid` |
| `Handlers.WithdrawFromEvent` | dao/programs/dao/src/lib.rs:178-218 | the `withdraw_from_event` transition; specified by `EventRules.WithdrawSucceeds`, `EventRules.WithdrawEffect`, `EventRules.WithdrawRejects` and `Invariants.WithdrawFromEventKeepsValid` |
| `Handlers.RecordAttendance` | dao/programs/dao/src/lib.rs:222-283 | the `record_attendance` transition; specified by `EventRules.AttendanceSucceeds`, `EventRules.AttendanceTable`, `EventRules.AttendanceRejectsEarly` and `Invariants.RecordAttendanceKeepsValid` |
| `Handlers.FinalizeEvent` | dao/programs/dao/src/lib.rs:286-304 | the `finalize_event` transition; specified by `EventRules.FinalizeSucceeds`, `EventRules.FinalizeOnce` and `Invariants.FinalizeEventKeepsValid` |
| `Handlers.UpdateCompetence` | dao/programs/dao/src/lib.rs:307-340 | the `update_competence` transition; specified by `GovernanceRules.CompetenceSucceeds`, `GovernanceRules.CompetenceEffect` and `Invariants.UpdateCompetenceKeepsValid` |
| `Handlers.CreateProposal` | dao/programs/dao/src/lib.rs:343-386 | the `create_proposal` transition; specified by `GovernanceRules.CreateProposalSucceeds`, `GovernanceRules.CreateProposalEffect` and `Invariants.CreateProposalKeepsValid` |
| `Handlers.Vote` | dao/programs/dao/src/lib.rs:389-442 | the `vote` transition; specified by `GovernanceRules.VoteSucceeds`, `GovernanceRules.VoteEffect`, `GovernanceRules.VoteRejects`, `GovernanceRules.NoDoubleVote` and `Invariants.VoteKeepsValid` |
| `Handlers.ExecuteProposal` | dao/programs/dao/src/lib.rs:445-494 | the `execute_proposal` transition; specified by `GovernanceRules.ExecuteSucceeds`, `GovernanceRules.ExecuteEffect`, `GovernanceRules.ExecuteRejects` and `Invariants.ExecuteProposalKeepsValid` |
| `Handlers.BanMember` | dao/programs/dao/src/lib.rs:497-529 | the `ban_member` transition; specified by `GovernanceRules.BanSucceeds`, `GovernanceRules.BanEffect`, `GovernanceRules.BanOnce` and `Invariants.BanMemberKeepsValid` |
| `Handlers.CooptMember` | dao/programs/dao/src/lib.rs:532-565 | the `coopt_member` transition; specified by `GovernanceRules.CooptSucceeds`, `GovernanceRules.CooptEffect` and `Invariants.CooptMemberKeepsValid` |
| `Handlers.AccountsCheck` | dao/programs/dao/src/lib.rs:773-1171 | the account-validation outcome of any instruction; specified by `Lifecycle.ValidationPhases` and `Lifecycle.AccountErrorsComeFirst` |
| `Handlers.Step` | dao/programs/dao/src/lib.rs:48-565 | the program's dispatch of one instruction; specified by `Invariants.StepKeepsValid` and the `Lifecycle` lemmas |
| `Voting.ProposalPasses` | dao/programs/dao/src/lib.rs:466-477 | the pass rule of `execute_proposal`; specified by `Voting.CriticalIsStrictMajority` and `Voting.OperationalTieFails` |
| `Voting.VotingWeight` | dao/programs/dao/src/lib.rs:575-595 | the weight is 0 whenever either total is 0 |
| `Voting.TotalVotingPower` | dao/programs/dao/src/lib.rs:598-606 | the snapshot is 0 exactly when either total is 0, and otherwise the constant `SCALING_FACTOR` |
| `Voting.WeightIsFloorOfShareProduct` | dao/programs/dao/src/lib.rs:575-595 | when the numerator does not saturate, the weight is exactly `floor(p·c·10^9 / (P·C))` |
| `Voting.WeightAtMostScale` | dao/programs/dao/src/lib.rs:575-595 | a member whose scores are within the totals never weighs more than `SCALING_FACTOR`, saturation included |
| `Voting.WeightZeroWithoutScore` | dao/programs/dao/src/lib.rs:575-595 | a member with no presence or no competence has weight 0 (so `vote` refuses them) |
| `Voting.LoneHolderWeighsTotalPower` | dao/programs/dao/src/lib.rs:575-606 | a member holding both totals weighs exactly the snapshot value `SCALING_FACTOR`, when `p·c·10^9` does not saturate u128 (`Voting.SaturatedLoneHolderWeighsLess`) |
| `Voting.SaturatedLoneHolderWeighsLess` | dao/programs/dao/src/lib.rs:575-595 | a lone holder of both totals whose `p·c·10^9` saturates u128 weighs strictly less than `SCALING_FACTOR` |
| `Voting.WeightAtMostTotalPower` | dao/programs/dao/src/lib.rs:575-606 | no single weight exceeds `calculate_total_voting_power` |
| `Voting.GenesisMemberWeight` | dao/tests/src/test_genesis_members.rs:114-150 | with three equal genesis members and nothing else, each weighs exactly 111,111,111 = `SCALING_FACTOR / 9` |
| `Voting.CriticalIsStrictMajority` | dao/programs/dao/src/lib.rs:469-471 | a Critical proposal passes iff twice its votes for exceed the snapshot, so exactly half fails |
| `Voting.OperationalTieFails` | dao/programs/dao/src/lib.rs:474-475 | an Operational proposal passes iff votes for exceed votes against; a tie fails |
| `Program.Dao.constructor` | dao/programs/dao/src/lib.rs:773-788 | a fresh deployment has no account at all |
| `Program.Dao.Initialize` | dao/programs/dao/src/lib.rs:48-61 | commits exactly `Handlers.Initialize`'s store (zeroed `State` with the signer as authority) or returns its error and changes nothing |
| `Program.Dao.AddGenesisMember` | dao/programs/dao/src/lib.rs:64-94 | commits exactly `Handlers.AddGenesisMember`'s store or returns its error unchanged; `init` of the member account, then `GenesisClosed`, then checked additions |
| `Program.Dao.CreateEvent` | dao/programs/dao/src/lib.rs:97-128 | commits exactly `Handlers.CreateEvent`'s store or returns its error unchanged |
| `Program.Dao.RegisterForEvent` | dao/programs/dao/src/lib.rs:131-175 | commits exactly `Handlers.RegisterForEvent`'s store or returns its error unchanged |
| `Program.Dao.WithdrawFromEvent` | dao/programs/dao/src/lib.rs:178-218 | commits exactly `Handlers.WithdrawFromEvent`'s store or returns its error unchanged |
| `Program.Dao.RecordAttendance` | dao/programs/dao/src/lib.rs:222-283 | commits exactly `Handlers.RecordAttendance`'s store or returns its error unchanged |
| `Program.Dao.FinalizeEvent` | dao/programs/dao/src/lib.rs:286-304 | commits exactly `Handlers.FinalizeEvent`'s store or returns its error unchanged |
| `Program.Dao.UpdateCompetence` | dao/programs/dao/src/lib.rs:307-340 | commits exactly `Handlers.UpdateCompetence`'s store or returns its error unchanged |
| `Program.Dao.CreateProposal` | dao/programs/dao/src/lib.rs:343-386 | commits exactly `Handlers.CreateProposal`'s store or returns its error unchanged |
| `Program.Dao.Vote` | dao/programs/dao/src/lib.rs:389-442 | commits exactly `Handlers.Vote`'s store or returns its error unchanged |
| `Program.Dao.ExecuteProposal` | dao/programs/dao/src/lib.rs:445-494 | commits exactly `Handlers.ExecuteProposal`'s store or returns its error unchanged |
| `Program.Dao.BanMember` | dao/programs/dao/src/lib.rs:497-529 | commits exactly `Handlers.BanMember`'s store or returns its error unchanged |
| `Program.Dao.CooptMember` | dao/programs/dao/src/lib.rs:532-565 | commits exactly `Handlers.CooptMember`'s store or returns its error unchanged |
| `Invariants.TallyUpdate` | dao/programs/dao/src/lib.rs:615-632 | replacing or adding one member account moves each aggregate by exactly that member's change |
| `Invariants.TallyBounds` | dao/programs/dao/src/lib.rs:615-632 | no member's score exceeds the aggregate |
| `Invariants.EmptyStoreValid` | dao/programs/dao/src/lib.rs:773-788 | the empty deployment satisfies the invariant |
| `Invariants.InitializeKeepsValid` | dao/programs/dao/src/lib.rs:48-61 | `initialize` establishes zero aggregates over no members |
| `Invariants.AddGenesisMemberKeepsValid` | dao/programs/dao/src/lib.rs:68-90 | a genesis add moves the totals and both counts by exactly the new member's scores and flags, and keeps `genesis_count` at most 3 |
| `Invariants.CreateEventKeepsValid` | dao/programs/dao/src/lib.rs:111-124 | a new event is stored under an id below the advanced counter |
| `Invariants.RegisterForEventKeepsValid` | dao/programs/dao/src/lib.rs:150-167 | the late penalty moves `total_presence` by exactly the member's loss; the registration is keyed by (event, member) |
| `Invariants.WithdrawFromEventKeepsValid` | dao/programs/dao/src/lib.rs:199-214 | the late penalty moves `total_presence` by exactly the member's loss |
| `Invariants.RecordAttendanceKeepsValid` | dao/programs/dao/src/lib.rs:239-280 | reward, ghosting and "oubli" penalties move `total_presence` by exactly the member's change |
| `Invariants.FinalizeEventKeepsValid` | dao/programs/dao/src/lib.rs:296-301 | finalisation keeps every aggregate |
| `Invariants.UpdateCompetenceKeepsValid` | dao/programs/dao/src/lib.rs:319-336 | a competence change, positive or clamped negative, moves `total_competence` by exactly the member's change |
| `Invariants.CreateProposalKeepsValid` | dao/programs/dao/src/lib.rs:359-382 | a new proposal is stored under an id below the advanced counter |
| `Invariants.VoteKeepsValid` | dao/programs/dao/src/lib.rs:405-432 | a vote record is keyed by (proposal, voter) and marked `has_voted` |
| `Invariants.ExecuteProposalKeepsValid` | dao/programs/dao/src/lib.rs:455-483 | execution keeps every aggregate |
| `Invariants.BanMemberKeepsValid` | dao/programs/dao/src/lib.rs:506-525 | a ban removes exactly the member's scores from the totals and one from the active count |
| `Invariants.CooptMemberKeepsValid` | dao/programs/dao/src/lib.rs:541-561 | a co-optation adds exactly the new member's scores to the totals and one to the active count |
| `Invariants.StepKeepsValid` | dao/programs/dao/src/lib.rs:48-565 | every successful instruction keeps the totals and counts equal to the sums over the member accounts and every record under its seeds |
| `Invariants.RunKeepsValid` | dao/programs/dao/src/lib.rs:48-565 | the invariant holds after any sequence of instructions, at any times |
| `Lifecycle.Loads` | dao/programs/dao/src/lib.rs:773-1171 | the reference statement of phase 1: every account of the instruction that is not `init` exists |
| `Lifecycle.InitTargetsFree` | dao/programs/dao/src/lib.rs:773-1171 | the reference statement of phase 2: no `init` account of the instruction exists yet |
| `Lifecycle.ConstraintsHold` | dao/programs/dao/src/lib.rs:773-1171 | the reference statement of phase 3: every `constraint` of the loaded accounts holds |
| `Lifecycle.ValidationPhases` | dao/programs/dao/src/lib.rs:773-1171 | a missing account gives `AccountNotInitialized`; otherwise an existing `init` target gives `AccountAlreadyInUse`; otherwise validation passes iff every constraint holds, and a failed one gives `MemberNotActive` or `Unauthorized` |
| `Lifecycle.AccountErrorsComeFirst` | dao/programs/dao/src/lib.rs:773-1171 | a missing account, an existing `init` target or a failed `constraint` aborts the instruction with that error before the handler runs |
| `Lifecycle.KillSwitch` | dao/programs/dao/src/lib.rs:105-108 | below three active members every instruction except `add_genesis_member` fails (`DaoShutdown` once its accounts validate), and so changes nothing |
| `Lifecycle.FrozenStep` | dao/programs/dao/src/lib.rs:68-71 | below the quorum with three genesis members, no instruction succeeds |
| `Lifecycle.FrozenForever` | dao/programs/dao/src/lib.rs:68-71 | a frozen deployment stays unchanged under any sequence of instructions |
| `Lifecycle.InitializeOnce` | dao/programs/dao/src/lib.rs:48-61 | `initialize` succeeds iff no `State` exists, zeroes it, and a second call fails with `AccountAlreadyInUse` |
| `Lifecycle.FreshIds` | dao/programs/dao/src/lib.rs:111-124 | on a valid store the next event id and the next proposal id are unused |
| `Lifecycle.CountersAdvanceByOne` | dao/programs/dao/src/lib.rs:121-124 | each counter grows by exactly one on its create instruction and is untouched by every other one |
| `Lifecycle.SettledProposalIsFrozen` | dao/programs/dao/src/lib.rs:455-483 | a proposal that has left `Active` is never changed again |
| `Lifecycle.NoReactivation` | dao/programs/dao/src/lib.rs:497-529 | no instruction removes a member account, and a member that is inactive before an instruction is still inactive after it |
| `Lifecycle.RecordsPersist` | dao/programs/dao/src/lib.rs:48-565 | no instruction closes a registration or vote record |
| `Lifecycle.RecordsPersistAlong` | dao/programs/dao/src/lib.rs:48-565 | a registration or vote record survives every sequence of instructions |
| `Lifecycle.NoSlashingOverflow` | dao/programs/dao/src/lib.rs:155-159 | on a valid store no instruction fails with `SlashingOverflow` |
| `Lifecycle.NoCancellationNoAlreadyVoted` | dao/programs/dao/src/lib.rs:413-414 | no instruction raises `AlreadyVoted` or moves a proposal to `Cancelled` |
| `EventRules.CreateEventAssignsId` | dao/programs/dao/src/lib.rs:111-124 | a created event starts after `now`, takes the counter as id, is open with no registrations, and the counter advances by one, and nothing else changes |
| `EventRules.CreateEventSucceeds` | dao/programs/dao/src/lib.rs:97-128 | with the accounts in place and the quorum met, `create_event` succeeds iff the start is after `now` and the counter does not overflow |
| `EventRules.CreateEventRejectsPast` | dao/programs/dao/src/lib.rs:110-111 | an event that does not start after `now` is refused with `InvalidEventTime` |
| `EventRules.RegisterEffect` | dao/programs/dao/src/lib.rs:141-171 | a registration needs an open, not yet started event, records the member, raises `registered_count` by one and deducts the late penalty iff `start_time - now < 86400` |
| `EventRules.RegisterRejects` | dao/programs/dao/src/lib.rs:141-144 | a finalised event gives `EventAlreadyFinalized`, a started one `EventAlreadyStarted` |
| `EventRules.RegisterSucceeds` | dao/programs/dao/src/lib.rs:131-175 | on a valid store, with the accounts in place and the quorum met, a registration succeeds iff the event is open and not started and neither the time difference nor `registered_count` overflows; the late penalty never refuses it |
| `EventRules.WithdrawEffect` | dao/programs/dao/src/lib.rs:188-214 | a withdrawal needs an open, not yet started event and a live registration, clears `is_registered`, lowers `registered_count` by one and deducts the late penalty iff `start_time - now < 86400` |
| `EventRules.WithdrawRejects` | dao/programs/dao/src/lib.rs:188-197 | `EventAlreadyFinalized`, `EventAlreadyStarted` and `NotRegistered`, in that order |
| `EventRules.WithdrawSucceeds` | dao/programs/dao/src/lib.rs:178-218 | on a valid store, with the accounts and quorum, a withdrawal succeeds iff the event is open and not started, the registration is live, the time difference fits and `registered_count` is positive |
| `EventRules.NoSecondRegistration` | dao/programs/dao/src/lib.rs:873-880 | right after registering or withdrawing, the next registration of the same member for that event fails with `AccountAlreadyInUse` |
| `EventRules.NeverRegisterAgain` | dao/programs/dao/src/lib.rs:873-880 | after registering or withdrawing, no later registration of the same member for that event succeeds, whatever instructions run in between |
| `EventRules.AttendanceTable` | dao/programs/dao/src/lib.rs:239-280 | the (registered, present) table: +reward and attended; −min(ghosting, presence); −min(oubli, presence) and attended; no change |
| `EventRules.AttendanceRejectsEarly` | dao/programs/dao/src/lib.rs:238-239 | attendance before the event starts is `EventNotStartedYet` |
| `EventRules.AttendanceSucceeds` | dao/programs/dao/src/lib.rs:222-283 | on a valid store, with the accounts and quorum, attendance for a started event is recorded iff the reward (registered and present) and `attended_count` (present) do not overflow; the penalties never refuse it |
| `EventRules.FinalizeOnce` | dao/programs/dao/src/lib.rs:296-301 | finalisation by the creator after the start only sets `is_finalized`, and a second call fails with `EventAlreadyFinalized` |
| `EventRules.FinalizeSucceeds` | dao/programs/dao/src/lib.rs:286-304 | with the accounts and quorum, finalisation succeeds iff the event has started and is not finalised |
| `EventRules.AttendanceIgnoresFinalization` | dao/programs/dao/src/lib.rs:222-283 | attendance is accepted or refused the same way after finalisation, and a refusal carries the same error |
| `GovernanceRules.GenesisEffect` | dao/programs/dao/src/lib.rs:68-90 | `GenesisClosed` once three genesis members exist; otherwise one active genesis member with 3·10^9 / 10·10^9, both counts +1, totals + those scores; nothing else changes |
| `GovernanceRules.GenesisSucceeds` | dao/programs/dao/src/lib.rs:64-94 | with the accounts in place, a genesis add succeeds iff fewer than three genesis members exist and no total or count overflows |
| `GovernanceRules.GenesisCap` | dao/programs/dao/src/lib.rs:68-71 | after any run, `genesis_count` ≤ 3, and the genesis and active counts equal the numbers of flagged member accounts |
| `GovernanceRules.CompetenceEffect` | dao/programs/dao/src/lib.rs:319-336 | the target's competence and the total move by `delta·10^9`, or downwards by that magnitude clamped at the score; a scaled magnitude above `u64::MAX` is `ArithmeticOverflow`, which includes `i64::MIN`, whose negation reads as 2^63; nothing else changes |
| `GovernanceRules.CompetenceSucceeds` | dao/programs/dao/src/lib.rs:307-340 | on a valid store, with the accounts and quorum, a review succeeds iff the scaled delta fits in u64 and, upwards, the new score and total fit; a downward review is never refused |
| `GovernanceRules.CreateProposalEffect` | dao/programs/dao/src/lib.rs:359-382 | a new proposal takes the counter as id, is `Active` with no votes, ends at `now + voting_period` (overflow is `ArithmeticOverflow`) and snapshots `SCALING_FACTOR` or 0; nothing else changes |
| `GovernanceRules.CreateProposalSucceeds` | dao/programs/dao/src/lib.rs:343-386 | with the accounts and quorum, a proposal is created iff `now + voting_period` fits in i64 and the counter does not overflow |
| `GovernanceRules.VoteEffect` | dao/programs/dao/src/lib.rs:399-432 | a vote needs an active member, an `Active` open proposal and positive weight, and adds the weight to exactly one side and to the record; nothing else changes |
| `GovernanceRules.VoteRejects` | dao/programs/dao/src/lib.rs:402-418 | `ProposalNotActive`, `VotingPeriodEnded`, `InsufficientReputation`, in that order |
| `GovernanceRules.VoteSucceeds` | dao/programs/dao/src/lib.rs:389-442 | with the accounts and quorum, a vote succeeds iff the proposal is `Active` and open, the weight is positive and the chosen tally does not overflow u128 |
| `GovernanceRules.NoDoubleVote` | dao/programs/dao/src/lib.rs:1077-1084 | a member's second vote on a proposal fails on the existing vote record |
| `GovernanceRules.NeverVoteAgain` | dao/programs/dao/src/lib.rs:1077-1084 | after a successful vote, no later vote of that member on that proposal succeeds, whatever instructions run in between |
| `GovernanceRules.VoteWeightBounded` | dao/programs/dao/src/lib.rs:405-432 | on a valid store a recorded vote weighs at most `SCALING_FACTOR` |
| `GovernanceRules.ExecuteEffect` | dao/programs/dao/src/lib.rs:455-483 | execution needs `Active` and an ended period, sets `Passed` iff the type's threshold is met and `Rejected` otherwise, tallies untouched |
| `GovernanceRules.ExecuteRejects` | dao/programs/dao/src/lib.rs:455-464 | `ProposalNotActive`, then `VotingPeriodNotEnded` |
| `GovernanceRules.ExecuteSucceeds` | dao/programs/dao/src/lib.rs:445-494 | with the accounts and quorum, execution succeeds iff the proposal is `Active` and its period is over |
| `GovernanceRules.ExecutionIsFinal` | dao/programs/dao/src/lib.rs:455-483 | after execution, later execution and votes fail with `ProposalNotActive` |
| `GovernanceRules.BanEffect` | dao/programs/dao/src/lib.rs:506-525 | a ban deactivates an active member, zeroes both scores, subtracts them from the totals, lowers the active count, changes nothing else, and does not depend on any proposal |
| `GovernanceRules.BanOnce` | dao/programs/dao/src/lib.rs:506 | a banned member cannot be banned again |
| `GovernanceRules.BanSucceeds` | dao/programs/dao/src/lib.rs:497-529 | on a valid store, with the accounts and quorum, a ban succeeds iff the target is active |
| `GovernanceRules.CooptEffect` | dao/programs/dao/src/lib.rs:541-561 | a co-optation creates an active non-genesis member with 10^9 in both scores and adds them to the totals and the active count; nothing else changes |
| `GovernanceRules.CooptSucceeds` | dao/programs/dao/src/lib.rs:532-565 | with the accounts and quorum, a co-optation succeeds iff no total and not the active count overflows |
| `Scenarios.GenesisStore` | dao/tests/src/test_genesis_members.rs:87-92 | after three genesis adds: 3 active, 3 genesis, totals three times the genesis scores |
| `Scenarios.UnknownSponsorReportedFirst` | dao/programs/dao/src/lib.rs:1139-1171 | a missing sponsor member is `AccountNotInitialized` even when the new member's account exists; with a known sponsor that account gives `AccountAlreadyInUse` |
| `Scenarios.FourthGenesisMemberRefused` | dao/tests/src/test_genesis_members.rs:94-111 | a fourth genesis add is refused with `GenesisClosed` |
| `Scenarios.UnanimousGenesisCriticalVoteRejected` | dao/programs/dao/src/lib.rs:598-606 | three genesis votes for a Critical proposal total 333,333,333 against a snapshot of 10^9, so it is `Rejected` |
| `Scenarios.BannedMemberRegainsCompetence` | dao/programs/dao/src/lib.rs:307-340 | a banned member's competence can be raised again, so the total exceeds the active members' sum |
| `Scenarios.BannedMemberRegainsPresence` | dao/programs/dao/src/lib.rs:222-283 | a banned member's attendance can still be rewarded |
| `Scenarios.AttendanceRewardedTwice` | dao/programs/dao/src/lib.rs:239-250 | an identical second attendance call rewards again, since `has_attended` is not consulted |
| `Scenarios.LateRegistrationPenalised` | dao/tests/src/test_events.rs:66-77 | registering one slot ahead costs nothing; one second later costs `LATE_PENALTY` |

## Left out

- PDA address derivation (`seeds`, `bump`, `find_program_address`): accounts are keyed by the logical seed tuple instead.
- Rent, payer and `system_program` plumbing, account space, and the `#[max_len]` string limits: these are serialisation concerns, not handler logic.
- Signer verification: signers are plain identity arguments. `add_genesis_member` compares no signer with `state.authority`, and neither does the model.
- `Clock::get()`: replaced by the `now` argument. `msg!` logging has no effect and is not modelled.
- Transaction atomicity is modelled as "an `Err` carries no store": a method that fails restores nothing because it writes its fields only on success.
- Checked operations that cannot fail where they stand are not modelled as error paths. These are the member's `presence_score.checked_sub(min(..))` and `competence_score.checked_sub(min(..))`, `active_members.checked_sub(1)` in `ban_member` (the kill switch guarantees at least 3), and `genesis_count.checked_add(1)` (it is below 3).
- The re-checks `require!(member.is_active)` in `create_proposal` and `vote` are not modelled: the context's `constraint` has already rejected an inactive member.
- `require!(!vote_record.has_voted)` in `vote` is not modelled: the record was just created by `init`, so it is always false. The `AlreadyVoted` code exists but is never raised (`Lifecycle.NoCancellationNoAlreadyVoted`).
- The `Cancelled` status exists, but no instruction sets it, and the model sets it nowhere either.
- The negation `-score_delta` of `update_competence` for `i64::MIN` panics when overflow checks are on and wraps when they are off. The model (`Handlers.Magnitude`) takes the wrapping reading (2^63), which then overflows in `checked_mul` and gives `ArithmeticOverflow`; the instruction fails either way.
- The frontend, the RPC client and the integration tests are not part of this model. The tests' expected values are used only as evidence for properties.
