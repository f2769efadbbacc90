/**
  The event rules: creation with a fresh id, registration and withdrawal with
  the 24-hour late penalty, the attendance table, and finalisation.
 */
module EventRules {
  import opened Arith
  import opened Accounts
  import opened Handlers
  import opened Invariants
  import opened Lifecycle

  /**
    `create_event` only schedules the future: a successful call stores the
    event under the current counter, not finalised and with no
    registrations, and advances the counter by one.
   */
  lemma CreateEventAssignsId(s: Store, creator: Pubkey, startTime: i64, description: string, now: i64)
    requires CreateEvent(s, creator, startTime, description, now).Ok?
    ensures var s', st := CreateEvent(s, creator, startTime, description, now).value, s.state.value;
            && startTime > now
            && creator in s.members && s.members[creator].isActive
            && st.eventCounter !in s.events
            && s'.events == s.events[st.eventCounter := TrackSession(st.eventCounter, creator, startTime, description, false, 0, 0)]
            && s'.state == Some(st.(eventCounter := st.eventCounter + 1))
            && s'.members == s.members && s'.proposals == s.proposals
            && s'.registrations == s.registrations && s'.votes == s.votes
  {
  }

  /**
    The converse: with the accounts in place and the quorum met, an event in
    the future is created unless the counter overflows.
   */
  lemma CreateEventSucceeds(s: Store, creator: Pubkey, startTime: i64, description: string, now: i64)
    ensures CreateEvent(s, creator, startTime, description, now).Ok? <==>
              && CreateEventAccounts(s, creator).None?
              && s.state.value.activeMembers >= MIN_QUORUM
              && startTime > now
              && s.state.value.eventCounter + 1 <= U64_MAX
  {
  }

  /** An event that would not start after `now` is refused. */
  lemma CreateEventRejectsPast(s: Store, creator: Pubkey, startTime: i64, description: string, now: i64)
    requires CreateEventAccounts(s, creator).None? && s.state.value.activeMembers >= MIN_QUORUM
    requires startTime <= now
    ensures CreateEvent(s, creator, startTime, description, now) == Err(InvalidEventTime)
  {
  }

  /**
    A registration requires an open, not yet started event; it records the
    member as registered, raises `registered_count` by one, and deducts the
    late penalty, clamped at the member's presence, exactly when the event
    starts within one slot.
   */
  lemma RegisterEffect(s: Store, a: Pubkey, e: u64, now: i64)
    requires RegisterForEvent(s, a, e, now).Ok?
    ensures var s', st, ev, m := RegisterForEvent(s, a, e, now).value, s.state.value, s.events[e], s.members[a];
            var penalty := if ev.startTime - now < SLOT_DURATION then MinU64(LATE_PENALTY, m.presenceScore) else 0;
            && !ev.isFinalized && now < ev.startTime && m.isActive
            && (e, a) !in s.registrations
            && s'.registrations == s.registrations[(e, a) := EventRegistration(m.authority, ev.id, true, false, now)]
            && s'.events == s.events[e := ev.(registeredCount := ev.registeredCount + 1)]
            && s'.members == s.members[a := m.(presenceScore := m.presenceScore - penalty)]
            && s'.state == Some(st.(totalPresence := st.totalPresence - penalty))
            && s'.proposals == s.proposals && s'.votes == s.votes
  {
  }

  /**
    The converse on a valid store: with the accounts in place and the quorum
    met, a registration for an open event that has not started succeeds
    unless the time difference or `registered_count` overflows. The late
    penalty never makes it fail.
   */
  lemma RegisterSucceeds(s: Store, a: Pubkey, e: u64, now: i64)
    requires Valid(s)
    ensures RegisterForEvent(s, a, e, now).Ok? <==>
              && RegisterForEventAccounts(s, a, e).None?
              && s.state.value.activeMembers >= MIN_QUORUM
              && !s.events[e].isFinalized && now < s.events[e].startTime
              && s.events[e].startTime - now <= I64_MAX
              && s.events[e].registeredCount + 1 <= U32_MAX
  {
    if a in s.members {
      TallyBounds(s.members, a, Presence);
    }
  }

  /** The refusals of `register_for_event`, in the order the handler tests them. */
  lemma RegisterRejects(s: Store, a: Pubkey, e: u64, now: i64)
    requires RegisterForEventAccounts(s, a, e).None? && s.state.value.activeMembers >= MIN_QUORUM
    ensures s.events[e].isFinalized ==> RegisterForEvent(s, a, e, now) == Err(EventAlreadyFinalized)
    ensures !s.events[e].isFinalized && now >= s.events[e].startTime ==>
              RegisterForEvent(s, a, e, now) == Err(EventAlreadyStarted)
  {
  }

  /**
    A withdrawal requires an open, not yet started event and a live
    registration; it clears `is_registered` (the record stays), lowers
    `registered_count` by one, and deducts the same late penalty.
   */
  lemma WithdrawEffect(s: Store, a: Pubkey, e: u64, now: i64)
    requires WithdrawFromEvent(s, a, e, now).Ok?
    ensures var s', st, ev, m := WithdrawFromEvent(s, a, e, now).value, s.state.value, s.events[e], s.members[a];
            var r := s.registrations[(e, a)];
            var penalty := if ev.startTime - now < SLOT_DURATION then MinU64(LATE_PENALTY, m.presenceScore) else 0;
            && !ev.isFinalized && now < ev.startTime && m.isActive && r.isRegistered
            && s'.registrations == s.registrations[(e, a) := r.(isRegistered := false)]
            && (e, a) in s'.registrations
            && s'.events == s.events[e := ev.(registeredCount := ev.registeredCount - 1)]
            && s'.members == s.members[a := m.(presenceScore := m.presenceScore - penalty)]
            && s'.state == Some(st.(totalPresence := st.totalPresence - penalty))
            && s'.proposals == s.proposals && s'.votes == s.votes
  {
  }

  /**
    The converse on a valid store: with the accounts in place and the quorum
    met, withdrawing a live registration from an open event that has not
    started succeeds unless the time difference overflows or
    `registered_count` is already 0.
   */
  lemma WithdrawSucceeds(s: Store, a: Pubkey, e: u64, now: i64)
    requires Valid(s)
    ensures WithdrawFromEvent(s, a, e, now).Ok? <==>
              && WithdrawFromEventAccounts(s, a, e).None?
              && s.state.value.activeMembers >= MIN_QUORUM
              && !s.events[e].isFinalized && now < s.events[e].startTime
              && s.registrations[(e, a)].isRegistered
              && s.events[e].startTime - now <= I64_MAX
              && s.events[e].registeredCount > 0
  {
    if a in s.members {
      TallyBounds(s.members, a, Presence);
    }
  }

  /** The refusals of `withdraw_from_event`, in the order the handler tests them. */
  lemma WithdrawRejects(s: Store, a: Pubkey, e: u64, now: i64)
    requires WithdrawFromEventAccounts(s, a, e).None? && s.state.value.activeMembers >= MIN_QUORUM
    ensures s.events[e].isFinalized ==> WithdrawFromEvent(s, a, e, now) == Err(EventAlreadyFinalized)
    ensures !s.events[e].isFinalized && now >= s.events[e].startTime ==>
              WithdrawFromEvent(s, a, e, now) == Err(EventAlreadyStarted)
    ensures !s.events[e].isFinalized && now < s.events[e].startTime && !s.registrations[(e, a)].isRegistered ==>
              WithdrawFromEvent(s, a, e, now) == Err(NotRegistered)
  {
  }

  /**
    A registration record is created once per (event, member): after a
    registration or a withdrawal, registering again fails on the existing
    account, at any time.
   */
  lemma NoSecondRegistration(s: Store, a: Pubkey, e: u64, now: i64, later: i64)
    ensures RegisterForEvent(s, a, e, now).Ok? ==>
              RegisterForEvent(RegisterForEvent(s, a, e, now).value, a, e, later) == Err(AccountAlreadyInUse)
    ensures WithdrawFromEvent(s, a, e, now).Ok? ==>
              RegisterForEvent(WithdrawFromEvent(s, a, e, now).value, a, e, later) == Err(AccountAlreadyInUse)
  {
  }

  /**
    Never again: once a member has registered for an event, or withdrawn
    from it, no later registration of that member for that event succeeds,
    whatever instructions run in between.
   */
  lemma NeverRegisterAgain(s: Store, a: Pubkey, e: u64, now: i64, trace: seq<(Instruction, i64)>, later: i64)
    ensures RegisterForEvent(s, a, e, now).Ok? ==>
              RegisterForEvent(Run(RegisterForEvent(s, a, e, now).value, trace), a, e, later).Err?
    ensures WithdrawFromEvent(s, a, e, now).Ok? ==>
              RegisterForEvent(Run(WithdrawFromEvent(s, a, e, now).value, trace), a, e, later).Err?
  {
    if RegisterForEvent(s, a, e, now).Ok? {
      RecordsPersistAlong(RegisterForEvent(s, a, e, now).value, trace, (e, a));
    }
    if WithdrawFromEvent(s, a, e, now).Ok? {
      RecordsPersistAlong(WithdrawFromEvent(s, a, e, now).value, trace, (e, a));
    }
  }

  /**
    The attendance table, once the event has started: a registered member
    who came gains `ATTENDANCE_REWARD`; a registered member who did not come
    loses the ghosting penalty; an unregistered member who came loses the
    "oubli" penalty but is still counted; an unregistered absentee changes
    nothing. Penalties are clamped at the member's presence, and the total
    moves by the member's change.
   */
  lemma AttendanceTable(s: Store, o: Pubkey, a: Pubkey, e: u64, present: bool, now: i64)
    requires RecordAttendance(s, o, a, e, present, now).Ok?
    ensures var s', st, ev, m := RecordAttendance(s, o, a, e, present, now).value, s.state.value, s.events[e], s.members[a];
            var r := s.registrations[(e, a)];
            && now >= ev.startTime && ev.creator == o
            && (r.isRegistered && present ==>
                  && s'.members == s.members[a := m.(presenceScore := m.presenceScore + ATTENDANCE_REWARD)]
                  && s'.state == Some(st.(totalPresence := st.totalPresence + ATTENDANCE_REWARD))
                  && s'.events == s.events[e := ev.(attendedCount := ev.attendedCount + 1)]
                  && s'.registrations == s.registrations[(e, a) := r.(hasAttended := true)])
            && (r.isRegistered && !present ==>
                  var penalty := MinU64(GHOSTING_PENALTY, m.presenceScore);
                  && s'.members == s.members[a := m.(presenceScore := m.presenceScore - penalty)]
                  && s'.state == Some(st.(totalPresence := st.totalPresence - penalty))
                  && s'.events == s.events && s'.registrations == s.registrations)
            && (!r.isRegistered && present ==>
                  var penalty := MinU64(OUBLI_PENALTY, m.presenceScore);
                  && s'.members == s.members[a := m.(presenceScore := m.presenceScore - penalty)]
                  && s'.state == Some(st.(totalPresence := st.totalPresence - penalty))
                  && s'.events == s.events[e := ev.(attendedCount := ev.attendedCount + 1)]
                  && s'.registrations == s.registrations[(e, a) := r.(hasAttended := true)])
            && (!r.isRegistered && !present ==> s' == s)
            && s'.proposals == s.proposals && s'.votes == s.votes
  {
  }

  /**
    The converse on a valid store: with the accounts in place and the quorum
    met, attendance for a started event is recorded unless a reward or
    `attended_count` overflows. The penalties never make it fail.
   */
  lemma AttendanceSucceeds(s: Store, o: Pubkey, a: Pubkey, e: u64, present: bool, now: i64)
    requires Valid(s)
    ensures RecordAttendance(s, o, a, e, present, now).Ok? <==>
              && RecordAttendanceAccounts(s, o, a, e).None?
              && s.state.value.activeMembers >= MIN_QUORUM
              && now >= s.events[e].startTime
              && (s.registrations[(e, a)].isRegistered && present ==>
                    && s.members[a].presenceScore + ATTENDANCE_REWARD <= U64_MAX
                    && s.state.value.totalPresence + ATTENDANCE_REWARD <= U64_MAX)
              && (present ==> s.events[e].attendedCount + 1 <= U32_MAX)
  {
    if a in s.members {
      TallyBounds(s.members, a, Presence);
    }
  }

  /** Attendance cannot be recorded before the event starts. */
  lemma AttendanceRejectsEarly(s: Store, o: Pubkey, a: Pubkey, e: u64, present: bool, now: i64)
    requires RecordAttendanceAccounts(s, o, a, e).None? && s.state.value.activeMembers >= MIN_QUORUM
    requires now < s.events[e].startTime
    ensures RecordAttendance(s, o, a, e, present, now) == Err(EventNotStartedYet)
  {
  }

  /**
    `finalize_event` is allowed to the creator once the event has started;
    it only sets `is_finalized`, and any later call fails with
    `EventAlreadyFinalized`.
   */
  lemma FinalizeOnce(s: Store, o: Pubkey, e: u64, now: i64, later: i64)
    requires FinalizeEvent(s, o, e, now).Ok?
    ensures var s' := FinalizeEvent(s, o, e, now).value;
            && now >= s.events[e].startTime && s.events[e].creator == o && !s.events[e].isFinalized
            && s' == s.(events := s.events[e := s.events[e].(isFinalized := true)])
            && FinalizeEvent(s', o, e, later) == Err(EventAlreadyFinalized)
  {
  }

  /**
    The converse: with the accounts in place and the quorum met,
    finalisation succeeds exactly on an event that has started and is not
    finalised yet.
   */
  lemma FinalizeSucceeds(s: Store, o: Pubkey, e: u64, now: i64)
    ensures FinalizeEvent(s, o, e, now).Ok? <==>
              && FinalizeEventAccounts(s, o, e).None?
              && s.state.value.activeMembers >= MIN_QUORUM
              && !s.events[e].isFinalized && now >= s.events[e].startTime
  {
  }

  /** Finalisation is not consulted when attendance is recorded. */
  lemma AttendanceIgnoresFinalization(s: Store, o: Pubkey, a: Pubkey, e: u64, present: bool, now: i64)
    requires FinalizeEvent(s, o, e, now).Ok?
    ensures RecordAttendanceAccounts(FinalizeEvent(s, o, e, now).value, o, a, e)
            == RecordAttendanceAccounts(s, o, a, e)
    ensures RecordAttendance(FinalizeEvent(s, o, e, now).value, o, a, e, present, now).Ok?
            == RecordAttendance(s, o, a, e, present, now).Ok?
    ensures RecordAttendance(FinalizeEvent(s, o, e, now).value, o, a, e, present, now).Err? ==>
              RecordAttendance(FinalizeEvent(s, o, e, now).value, o, a, e, present, now)
              == RecordAttendance(s, o, a, e, present, now)
  {
  }
}
