/**
  The invariant every instruction keeps: the running aggregates in `State`
  equal the sums over the member accounts, and every record sits under the key
  its seeds name.

  `total_presence` and `total_competence` equal the sums over ALL member
  accounts. A banned member's scores are zeroed, but `record_attendance` and
  `update_competence` accept an inactive member, so an inactive member can hold
  score again; the sum restricted to active members is therefore not an
  invariant (see `Scenarios.BannedMemberRegainsPresence`).
 */
module Invariants {
  import opened Arith
  import opened Accounts
  import opened Voting
  import opened Handlers

  /** The per-member quantities that `State` aggregates. */
  datatype Field = Presence | Competence | ActiveFlag | GenesisFlag

  function Val(m: Member, f: Field): nat
  {
    match f
    case Presence => m.presenceScore
    case Competence => m.competenceScore
    case ActiveFlag => if m.isActive then 1 else 0
    case GenesisFlag => if m.isGenesis then 1 else 0
  }

  /** The sum of `Val(_, f)` over every member account. */
  ghost function Tally(ms: map<Pubkey, Member>, f: Field): nat
    decreases |ms|
  {
    if ms == map[] then 0
    else
      var k :| k in ms;
      assert |(ms - {k}).Keys| < |ms.Keys| by {
        assert (ms - {k}).Keys == ms.Keys - {k};
      }
      Val(ms[k], f) + Tally(ms - {k}, f)
  }

  lemma {:induction false} TallyRemove(ms: map<Pubkey, Member>, k: Pubkey, f: Field)
    requires k in ms
    ensures Tally(ms, f) == Val(ms[k], f) + Tally(ms - {k}, f)
    decreases |ms|
  {
    var j :| j in ms && Tally(ms, f) == Val(ms[j], f) + Tally(ms - {j}, f);
    if j != k {
      assert |(ms - {j}).Keys| < |ms.Keys| by {
        assert (ms - {j}).Keys == ms.Keys - {j};
      }
      assert |(ms - {k}).Keys| < |ms.Keys| by {
        assert (ms - {k}).Keys == ms.Keys - {k};
      }
      TallyRemove(ms - {j}, k, f);
      TallyRemove(ms - {k}, j, f);
      assert ms - {j} - {k} == ms - {k} - {j};
    }
  }

  /** Replacing or adding one member moves the sum by exactly that member's change. */
  lemma TallyUpdate(ms: map<Pubkey, Member>, k: Pubkey, v: Member, f: Field)
    ensures Tally(ms[k := v], f) + (if k in ms then Val(ms[k], f) else 0) == Tally(ms, f) + Val(v, f)
  {
    TallyRemove(ms[k := v], k, f);
    if k in ms {
      TallyRemove(ms, k, f);
      assert ms[k := v] - {k} == ms - {k};
    } else {
      assert ms[k := v] - {k} == ms;
    }
  }

  /** No single member exceeds the aggregate. */
  lemma TallyBounds(ms: map<Pubkey, Member>, k: Pubkey, f: Field)
    requires k in ms
    ensures Val(ms[k], f) <= Tally(ms, f)
  {
    TallyRemove(ms, k, f);
  }

  /** The four aggregates after one member is replaced or added. */
  lemma TallyUpdateAll(ms: map<Pubkey, Member>, k: Pubkey, v: Member)
    ensures forall f: Field :: Tally(ms[k := v], f) + (if k in ms then Val(ms[k], f) else 0) == Tally(ms, f) + Val(v, f)
  {
    forall f: Field
      ensures Tally(ms[k := v], f) + (if k in ms then Val(ms[k], f) else 0) == Tally(ms, f) + Val(v, f)
    {
      TallyUpdate(ms, k, v, f);
    }
  }

  /** The aggregates of `State` agree with the member accounts. */
  ghost predicate Aggregates(st: State, ms: map<Pubkey, Member>)
  {
    && st.totalPresence == Tally(ms, Presence)
    && st.totalCompetence == Tally(ms, Competence)
    && st.activeMembers == Tally(ms, ActiveFlag)
    && st.genesisCount == Tally(ms, GenesisFlag)
  }

  /** Every record lives under the key its seeds are derived from. */
  ghost predicate WellKeyed(s: Store)
    requires s.state.Some?
  {
    var st := s.state.value;
    && (forall a :: a in s.members ==> s.members[a].authority == a)
    && (forall e :: e in s.events ==> s.events[e].id == e && e < st.eventCounter)
    && (forall p :: p in s.proposals ==> s.proposals[p].id == p && p < st.proposalCounter)
    && (forall key :: key in s.registrations ==>
          key.0 in s.events && key.1 in s.members
          && s.registrations[key].eventId == key.0 && s.registrations[key].member == key.1)
    && (forall key :: key in s.votes ==>
          key.0 in s.proposals && key.1 in s.members
          && s.votes[key].proposalId == key.0 && s.votes[key].voter == key.1 && s.votes[key].hasVoted)
  }

  /** The invariant of every reachable store. */
  ghost predicate Valid(s: Store)
  {
    match s.state
    case None =>
      s.members == map[] && s.events == map[] && s.registrations == map[]
      && s.proposals == map[] && s.votes == map[]
    case Some(st) =>
      Aggregates(st, s.members) && st.genesisCount <= MAX_GENESIS_MEMBERS && WellKeyed(s)
  }

  lemma EmptyStoreValid()
    ensures Valid(EmptyStore)
  {
  }

  // ---------------------------------------------------------------------------
  // Each instruction keeps the invariant
  // ---------------------------------------------------------------------------

  lemma InitializeKeepsValid(s: Store, authority: Pubkey)
    requires Valid(s) && Initialize(s, authority).Ok?
    ensures Valid(Initialize(s, authority).value)
  {
  }

  lemma AddGenesisMemberKeepsValid(s: Store, a: Pubkey, now: i64)
    requires Valid(s) && AddGenesisMember(s, a, now).Ok?
    ensures Valid(AddGenesisMember(s, a, now).value)
  {
    TallyUpdateAll(s.members, a, AddGenesisMember(s, a, now).value.members[a]);
  }

  lemma CreateEventKeepsValid(s: Store, creator: Pubkey, startTime: i64, description: string, now: i64)
    requires Valid(s) && CreateEvent(s, creator, startTime, description, now).Ok?
    ensures Valid(CreateEvent(s, creator, startTime, description, now).value)
  {
  }

  lemma RegisterForEventKeepsValid(s: Store, a: Pubkey, e: u64, now: i64)
    requires Valid(s) && RegisterForEvent(s, a, e, now).Ok?
    ensures Valid(RegisterForEvent(s, a, e, now).value)
  {
    TallyUpdateAll(s.members, a, RegisterForEvent(s, a, e, now).value.members[a]);
  }

  lemma WithdrawFromEventKeepsValid(s: Store, a: Pubkey, e: u64, now: i64)
    requires Valid(s) && WithdrawFromEvent(s, a, e, now).Ok?
    ensures Valid(WithdrawFromEvent(s, a, e, now).value)
  {
    TallyUpdateAll(s.members, a, WithdrawFromEvent(s, a, e, now).value.members[a]);
  }

  lemma RecordAttendanceKeepsValid(s: Store, o: Pubkey, a: Pubkey, e: u64, present: bool, now: i64)
    requires Valid(s) && RecordAttendance(s, o, a, e, present, now).Ok?
    ensures Valid(RecordAttendance(s, o, a, e, present, now).value)
  {
    var s' := RecordAttendance(s, o, a, e, present, now).value;
    if s' != s {
      TallyUpdateAll(s.members, a, s'.members[a]);
    }
  }

  lemma FinalizeEventKeepsValid(s: Store, o: Pubkey, e: u64, now: i64)
    requires Valid(s) && FinalizeEvent(s, o, e, now).Ok?
    ensures Valid(FinalizeEvent(s, o, e, now).value)
  {
  }

  /** A peer review changes one competence score and the total by the same amount. */
  lemma UpdateCompetenceShape(s: Store, r: Pubkey, t: Pubkey, delta: i64)
    requires UpdateCompetence(s, r, t, delta).Ok?
    ensures var s' := UpdateCompetence(s, r, t, delta).value;
            var st, m := s.state.value, s.members[t];
            && s.state.Some? && t in s.members && s'.state.Some? && t in s'.members
            && s'.members == s.members[t := m.(competenceScore := s'.members[t].competenceScore)]
            && s'.state.value == st.(totalCompetence := s'.state.value.totalCompetence)
            && s'.state.value.totalCompetence + m.competenceScore == st.totalCompetence + s'.members[t].competenceScore
            && s'.events == s.events && s'.registrations == s.registrations
            && s'.proposals == s.proposals && s'.votes == s.votes
  {
  }

  lemma UpdateCompetenceKeepsValid(s: Store, r: Pubkey, t: Pubkey, delta: i64)
    requires Valid(s) && UpdateCompetence(s, r, t, delta).Ok?
    ensures Valid(UpdateCompetence(s, r, t, delta).value)
  {
    var s' := UpdateCompetence(s, r, t, delta).value;
    UpdateCompetenceShape(s, r, t, delta);
    TallyUpdateAll(s.members, t, s'.members[t]);
  }

  lemma CreateProposalKeepsValid(s: Store, p: Pubkey, title: string, description: string,
                                 ty: ProposalType, period: i64, now: i64)
    requires Valid(s) && CreateProposal(s, p, title, description, ty, period, now).Ok?
    ensures Valid(CreateProposal(s, p, title, description, ty, period, now).value)
  {
  }

  lemma VoteKeepsValid(s: Store, v: Pubkey, p: u64, support: bool, now: i64)
    requires Valid(s) && Vote(s, v, p, support, now).Ok?
    ensures Valid(Vote(s, v, p, support, now).value)
  {
  }

  lemma ExecuteProposalKeepsValid(s: Store, p: u64, now: i64)
    requires Valid(s) && ExecuteProposal(s, p, now).Ok?
    ensures Valid(ExecuteProposal(s, p, now).value)
  {
  }

  lemma BanMemberKeepsValid(s: Store, x: Pubkey, t: Pubkey)
    requires Valid(s) && BanMember(s, x, t).Ok?
    ensures Valid(BanMember(s, x, t).value)
  {
    TallyUpdateAll(s.members, t, BanMember(s, x, t).value.members[t]);
  }

  lemma CooptMemberKeepsValid(s: Store, sp: Pubkey, n: Pubkey, now: i64)
    requires Valid(s) && CooptMember(s, sp, n, now).Ok?
    ensures Valid(CooptMember(s, sp, n, now).value)
  {
    TallyUpdateAll(s.members, n, CooptMember(s, sp, n, now).value.members[n]);
  }

  /** Every instruction that succeeds on a valid store leaves a valid store. */
  lemma StepKeepsValid(s: Store, ix: Instruction, now: i64)
    requires Valid(s) && Step(s, ix, now).Ok?
    ensures Valid(Step(s, ix, now).value)
  {
    match ix
    case InitializeIx(a) => InitializeKeepsValid(s, a);
    case AddGenesisMemberIx(a) => AddGenesisMemberKeepsValid(s, a, now);
    case CreateEventIx(c, t, d) => CreateEventKeepsValid(s, c, t, d, now);
    case RegisterForEventIx(a, e) => RegisterForEventKeepsValid(s, a, e, now);
    case WithdrawFromEventIx(a, e) => WithdrawFromEventKeepsValid(s, a, e, now);
    case RecordAttendanceIx(o, a, e, p) => RecordAttendanceKeepsValid(s, o, a, e, p, now);
    case FinalizeEventIx(o, e) => FinalizeEventKeepsValid(s, o, e, now);
    case UpdateCompetenceIx(r, t, d) => UpdateCompetenceKeepsValid(s, r, t, d);
    case CreateProposalIx(p, ti, de, ty, vp) => CreateProposalKeepsValid(s, p, ti, de, ty, vp, now);
    case VoteIx(v, p, su) => VoteKeepsValid(s, v, p, su, now);
    case ExecuteProposalIx(p) => ExecuteProposalKeepsValid(s, p, now);
    case BanMemberIx(x, t) => BanMemberKeepsValid(s, x, t);
    case CooptMemberIx(sp, n) => CooptMemberKeepsValid(s, sp, n, now);
  }

  /** The stores reachable from the empty deployment by any sequence of instructions. */
  ghost function Run(s: Store, trace: seq<(Instruction, i64)>): Store
    decreases |trace|
  {
    if trace == [] then s
    else
      match Step(s, trace[0].0, trace[0].1)
      case Ok(s') => Run(s', trace[1..])
      case Err(_) => Run(s, trace[1..])
  }

  /** Whatever the instructions and times, the invariant holds after every run. */
  lemma {:induction false} RunKeepsValid(s: Store, trace: seq<(Instruction, i64)>)
    requires Valid(s)
    ensures Valid(Run(s, trace))
    decreases |trace|
  {
    if trace != [] {
      match Step(s, trace[0].0, trace[0].1)
      case Ok(s') =>
        StepKeepsValid(s, trace[0].0, trace[0].1);
        RunKeepsValid(s', trace[1..]);
      case Err(_) =>
        RunKeepsValid(s, trace[1..]);
    }
  }
}
