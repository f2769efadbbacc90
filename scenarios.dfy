/**
  Concrete runs of the program from an empty deployment, worked out by the
  model: the genesis phase, what three genesis votes weigh against the
  Critical threshold, and a banned member whose scores grow again.
 */
module Scenarios {
  import opened Arith
  import opened Accounts
  import opened Voting
  import opened Handlers

  /** The deployment after `initialize` by 0 and genesis members 1, 2 and 3, at time 0. */
  function GenesisStore(): (r: Store)
    ensures r.state.Some? && r.state.value.activeMembers == 3 && r.state.value.genesisCount == 3
    ensures r.state.value.totalPresence == 3 * GENESIS_PRESENCE
    ensures r.state.value.totalCompetence == 3 * GENESIS_COMPETENCE
    ensures r.members.Keys == {1, 2, 3}
    ensures forall a :: a in r.members ==> r.members[a] == Member(a, GENESIS_PRESENCE, GENESIS_COMPETENCE, true, true, 0)
    ensures r.events == map[] && r.proposals == map[] && r.votes == map[] && r.registrations == map[]
  {
    var s0 := Initialize(EmptyStore, 0).value;
    var s1 := AddGenesisMember(s0, 1, 0).value;
    var s2 := AddGenesisMember(s1, 2, 0).value;
    AddGenesisMember(s2, 3, 0).value
  }

  /** Three genesis members can be added; a fourth is refused with `GenesisClosed`. */
  lemma FourthGenesisMemberRefused()
    ensures AddGenesisMember(GenesisStore(), 4, 0) == Err(GenesisClosed)
  {
  }

  /**
    A sponsor without a member account is reported before an existing
    `new_member` account: the framework loads every existing account before
    it creates the `init` one.
   */
  lemma UnknownSponsorReportedFirst()
    ensures CooptMember(GenesisStore(), 99, 1, 0) == Err(AccountNotInitialized)
    ensures CooptMember(GenesisStore(), 2, 1, 0) == Err(AccountAlreadyInUse)
  {
  }

  /**
    A Critical proposal that all three genesis members vote for is still
    rejected: each weighs `SCALING_FACTOR / 9`, so the votes for reach only a
    third of the snapshot `SCALING_FACTOR`, not more than half.
   */
  lemma UnanimousGenesisCriticalVoteRejected()
    ensures var s0 := GenesisStore();
            var s1 := CreateProposal(s0, 1, "t", "d", Critical, 10, 0);
            s1.Ok? &&
            var s2 := Vote(s1.value, 1, 0, true, 1);
            s2.Ok? &&
            var s3 := Vote(s2.value, 2, 0, true, 1);
            s3.Ok? &&
            var s4 := Vote(s3.value, 3, 0, true, 1);
            s4.Ok? &&
            var s5 := ExecuteProposal(s4.value, 0, 10);
            s5.Ok? && s5.value.proposals[0].votesFor == 333_333_333
            && s5.value.proposals[0].totalPowerSnapshot == SCALING_FACTOR
            && s5.value.proposals[0].status == Rejected
  {
    var s0 := GenesisStore();
    var st := s0.state.value;
    GenesisMemberWeight(s0.members[1], st);
    GenesisMemberWeight(s0.members[2], st);
    GenesisMemberWeight(s0.members[3], st);
    var s1 := CreateProposal(s0, 1, "t", "d", Critical, 10, 0).value;
    assert s1.members == s0.members && s1.state.value.totalPresence == st.totalPresence
        && s1.state.value.totalCompetence == st.totalCompetence;
    var s2 := Vote(s1, 1, 0, true, 1).value;
    assert s2.proposals[0].votesFor == 111_111_111;
    var s3 := Vote(s2, 2, 0, true, 1).value;
    assert s3.proposals[0].votesFor == 222_222_222;
    var s4 := Vote(s3, 3, 0, true, 1).value;
    assert s4.proposals[0].votesFor == 333_333_333;
  }

  /**
    A banned member regains competence: `update_competence` accepts an
    inactive target, so the banned member 4 holds score again while the
    active members' scores are unchanged. The total then exceeds the sum
    over active members by that score.
   */
  lemma BannedMemberRegainsCompetence()
    ensures var s0 := GenesisStore();
            var s1 := CooptMember(s0, 1, 4, 0);
            s1.Ok? &&
            var s2 := BanMember(s1.value, 1, 4);
            s2.Ok? && !s2.value.members[4].isActive && s2.value.members[4].competenceScore == 0 &&
            var s3 := UpdateCompetence(s2.value, 1, 4, 5);
            s3.Ok? && !s3.value.members[4].isActive
            && s3.value.members.Keys == {1, 2, 3, 4}
            && s3.value.members[1].isActive && s3.value.members[2].isActive && s3.value.members[3].isActive
            && s3.value.members[4].competenceScore == 5 * SCALING_FACTOR
            && s3.value.state.value.totalCompetence
               == s3.value.members[1].competenceScore + s3.value.members[2].competenceScore
                  + s3.value.members[3].competenceScore + 5 * SCALING_FACTOR
  {
  }

  /**
    A banned member regains presence the same way: a registration made
    before the ban still lets the organizer reward attendance afterwards.
   */
  lemma BannedMemberRegainsPresence()
    ensures var s0 := GenesisStore();
            var s1 := CooptMember(s0, 1, 4, 0);
            s1.Ok? &&
            var s2 := CreateEvent(s1.value, 1, 2 * SLOT_DURATION, "e", 0);
            s2.Ok? &&
            var s3 := RegisterForEvent(s2.value, 4, 0, 0);
            s3.Ok? &&
            var s4 := BanMember(s3.value, 1, 4);
            s4.Ok? && s4.value.members[4].presenceScore == 0 &&
            var s5 := RecordAttendance(s4.value, 1, 4, 0, true, 2 * SLOT_DURATION);
            s5.Ok? && !s5.value.members[4].isActive
            && s5.value.members[4].presenceScore == ATTENDANCE_REWARD
            && s5.value.state.value.totalPresence == 3 * GENESIS_PRESENCE + ATTENDANCE_REWARD
  {
  }

  /**
    Attendance can be rewarded twice: a second identical call is not refused,
    because `has_attended` is not consulted.
   */
  lemma AttendanceRewardedTwice()
    ensures var s0 := GenesisStore();
            var s1 := CreateEvent(s0, 1, 2 * SLOT_DURATION, "e", 0);
            s1.Ok? &&
            var s2 := RegisterForEvent(s1.value, 2, 0, 0);
            s2.Ok? &&
            var s3 := RecordAttendance(s2.value, 1, 2, 0, true, 2 * SLOT_DURATION);
            s3.Ok? &&
            var s4 := RecordAttendance(s3.value, 1, 2, 0, true, 2 * SLOT_DURATION);
            s4.Ok? && s4.value.members[2].presenceScore == GENESIS_PRESENCE + 2 * ATTENDANCE_REWARD
            && s4.value.events[0].attendedCount == 2
  {
  }

  /**
    A registration inside the last slot before the event costs
    `LATE_PENALTY`; one a full slot ahead costs nothing.
   */
  lemma LateRegistrationPenalised()
    ensures var s0 := GenesisStore();
            var s1 := CreateEvent(s0, 1, 2 * SLOT_DURATION, "e", 0);
            s1.Ok? &&
            var early := RegisterForEvent(s1.value, 2, 0, SLOT_DURATION);
            var late := RegisterForEvent(s1.value, 2, 0, SLOT_DURATION + 1);
            early.Ok? && late.Ok?
            && early.value.members[2].presenceScore == GENESIS_PRESENCE
            && late.value.members[2].presenceScore == GENESIS_PRESENCE - LATE_PENALTY
  {
  }
}
