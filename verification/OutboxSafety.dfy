/** Exactly when the outbox is safe: passes must not overlap, and no recording of a delivery
    may be committed without being confirmed. */
module OutboxSafety {
  import opened EmailOutbox
  import opened OutboxProtocol
  import opened OutboxWithoutLease

  /** What the safety theorems of the protocol say of a state. */
  ghost predicate Safe(s: State) {
    && (forall id :: id in s.table ==>
          && s.table[id].attempts <= MAX_ATTEMPTS
          && (s.table[id].status == Pending ==> s.table[id].attempts <= 4)
          && (s.table[id].status == Failed ==> s.table[id].attempts == MAX_ATTEMPTS)
          && (s.table[id].status == Succeeded ==> id in s.accepted))
    && (forall id :: Times(s.handed, id) <= MAX_ATTEMPTS)
    && (forall i :: 0 <= i < |s.handed| ==>
          s.handed[i].id in s.texts && s.handed[i].body == Sealed(s.texts[s.handed[i].id]))
  }

  /** Every run is safe; with `confirmed`, every run without an unconfirmed recording. */
  ghost predicate EveryRunIsSafe(workers: nat, lease: bool, confirmed: bool) {
    forall now, events ::
      var s := Execute(Initial(workers, now), events, lease);
      (confirmed ==> s.unconfirmed == {}) ==> Safe(s)
  }

  lemma LeaseMakesSafe(workers: nat, now: int, events: seq<Event>)
    requires Execute(Initial(workers, now), events, true).unconfirmed == {}
    ensures Safe(Execute(Initial(workers, now), events, true))
  {
    hide Execute;
    var s := Execute(Initial(workers, now), events, true);
    forall id | id in s.table
      ensures s.table[id].attempts <= MAX_ATTEMPTS
        && (s.table[id].status == Pending ==> s.table[id].attempts <= 4)
        && (s.table[id].status == Failed ==> s.table[id].attempts == MAX_ATTEMPTS)
        && (s.table[id].status == Succeeded ==> id in s.accepted)
    {
      AttemptsAreBounded(workers, now, events, id);
    }
    forall id ensures Times(s.handed, id) <= MAX_ATTEMPTS {
      HandedAtMostFiveTimes(workers, now, events, id);
    }
    forall i | 0 <= i < |s.handed|
      ensures s.handed[i].id in s.texts && s.handed[i].body == Sealed(s.texts[s.handed[i].id])
    {
      QueuedTextIsHanded(workers, now, events, i);
    }
  }

  // ---- one unconfirmed recording ----

  ghost predicate MailsTheMark(s: State) {
    |s.handed| == 2 && s.handed[1] == Handover("mail", Redacted) && "mail" in s.accepted
  }

  /** One worker is enough, with the lease or without it: the message is delivered and
      recorded, the worker does not learn of it and gives the row back, and its next pass
      mails the mark. */
  lemma UnconfirmedRecordingMailsTheMark(workers: nat, lease: bool)
    requires workers > 0
    ensures exists events :: MailsTheMark(Execute(Initial(workers, 0), events, lease))
  {
    hide Execute, Reaches;
    var a, m := Initial(workers, 0), Message("mail", MAIL);
    var queued := Enqueue("mail", "to", "subject", "text", 0);
    ReachesItself(a, lease);
    ReachesNext(a, a, queued, lease);
    var s1 := After(a, queued, lease);
    assert s1.table == map["mail" := MAIL];
    PassClaimsTheRow(a, s1, 0, "mail", MAIL, lease);
    var s2 := s1.(runners := a.runners[0 := Claimed(m, [])],
                  table := map["mail" := MAIL.(status := Running, attempts := 1)]);
    ReopensTheRow(a, s2, lease);
    var open := MAIL.(attempts := 1, body := Redacted);
    var s3 := s2.(runners := s2.runners[0 := Idle], table := map["mail" := open], unconfirmed := {"mail"},
                  handed := [Handover("mail", MAIL.body)], accepted := {"mail"});
    assert NobodyActive(s3.runners);
    PassClaimsTheRow(a, s3, 0, "mail", open, lease);
    var n := Message("mail", open);
    var s4 := s3.(runners := s3.runners[0 := Claimed(n, [])],
                  table := map["mail" := open.(status := Running, attempts := 2)]);
    ReachesNext(a, s4, Act(0, HandOver(true)), lease);
    assert MailsTheMark(After(s4, Act(0, HandOver(true)), lease));
  }

  /** Delivered, recorded without confirmation, given back. */
  lemma ReopensTheRow(a: State, s: State, lease: bool)
    requires Reaches(a, s, lease) && s.runners != [] && s.runners[0] == Claimed(Message("mail", MAIL), [])
    requires s.table == map["mail" := MAIL.(status := Running, attempts := 1)]
    requires s.now == 0 && s.handed == [] && s.accepted == {} && s.unconfirmed == {}
    ensures Reaches(a, s.(
      runners := s.runners[0 := Idle], table := map["mail" := MAIL.(attempts := 1, body := Redacted)],
      unconfirmed := {"mail"}, handed := [Handover("mail", MAIL.body)], accepted := {"mail"}), lease)
  {
    hide Execute, Reaches;
    var m := Message("mail", MAIL);
    var s1 := After(s, Act(0, HandOver(true)), lease);
    ReachesNext(a, s, Act(0, HandOver(true)), lease);
    assert s1 == s.(runners := s.runners[0 := Delivered(m, [])], handed := [Handover("mail", MAIL.body)],
                    accepted := {"mail"});
    RecordsAndGivesBack(a, s1, m, lease);
    assert s.runners[0 := Delivered(m, [])][0 := Idle] == s.runners[0 := Idle];
  }

  lemma RecordsAndGivesBack(a: State, s: State, m: Message, lease: bool)
    requires m == Message("mail", MAIL)
    requires Reaches(a, s, lease) && s.runners != [] && s.runners[0] == Delivered(m, [])
    requires s.table == map["mail" := MAIL.(status := Running, attempts := 1)]
    requires s.now == 0 && s.unconfirmed == {}
    ensures Reaches(a, s.(
      runners := s.runners[0 := Idle], table := map["mail" := MAIL.(attempts := 1, body := Redacted)],
      unconfirmed := {"mail"}), lease)
  {
    hide Execute, Reaches;
    var s1 := After(s, Act(0, RecordUnconfirmed), lease);
    ReachesNext(a, s, Act(0, RecordUnconfirmed), lease);
    var done := MAIL.(status := Succeeded, attempts := 1, body := Redacted);
    assert s1 == s.(runners := s.runners[0 := Refused(m, [])], table := map["mail" := done], unconfirmed := {"mail"});
    GivesBack(a, s1, m, done, lease);
    assert s.runners[0 := Refused(m, [])][0 := Idle] == s.runners[0 := Idle];
    assert done.(status := Pending) == MAIL.(attempts := 1, body := Redacted);
  }

  lemma GivesBack(a: State, s: State, m: Message, row: Row, lease: bool)
    requires Reaches(a, s, lease) && s.runners != [] && s.runners[0] == Refused(m, [])
    requires m.row.attempts < 4 && s.table == map[m.id := row]
    ensures Reaches(a, s.(runners := s.runners[0 := Idle],
                          table := map[m.id := row.(status := Pending, updatedAt := s.now)]), lease)
  {
    hide Execute, Reaches;
    var s1 := After(s, Act(0, GiveBack), lease);
    ReachesNext(a, s, Act(0, GiveBack), lease);
    assert s1 == s.(runners := s.runners[0 := Working([])],
                    table := map[m.id := row.(status := Pending, updatedAt := s.now)]);
    ReachesNext(a, s1, Act(0, Finish), lease);
    assert s.runners[0 := Working([])][0 := Idle] == s.runners[0 := Idle];
  }

  // ---- exactly ----

  lemma MailedMarkIsUnsafe(s: State, i: nat)
    requires i < |s.handed| && s.handed[i].body == Redacted
    ensures !Safe(s)
  {
    assert s.handed[i].body.Redacted?;
  }

  /** Without a worker nothing is ever handed over and nothing recorded. */
  lemma {:induction false} NobodyRecords(now: int, events: seq<Event>, lease: bool)
    ensures var s := Execute(Initial(0, now), events, lease); s.runners == [] && s.unconfirmed == {}
  {
    if events != [] {
      NobodyRecords(now, events[..|events| - 1], lease);
    }
  }

  lemma SafeIfGuarded(workers: nat, lease: bool, confirmed: bool)
    requires workers == 0 || (confirmed && (lease || workers == 1))
    ensures EveryRunIsSafe(workers, lease, confirmed)
  {
    hide Execute, Safe;
    forall now, events |
      confirmed ==> Execute(Initial(workers, now), events, lease).unconfirmed == {}
      ensures Safe(Execute(Initial(workers, now), events, lease))
    {
      if workers == 0 {
        NobodyRecords(now, events, lease);
      }
      if workers <= 1 {
        LoneWorkerNeedsNoLease(workers, now, events);
      }
      LeaseMakesSafe(workers, now, events);
    }
  }

  /** OUTBOX SAFETY, EXACTLY. For every number of workers, with the lease or without it, and
      whether or not a recording may go unconfirmed: every run is safe if and only if there is
      no worker at all, or every recording is confirmed and passes are serialised, by the lease
      or by there being only one worker. */
  lemma SafeExactly(workers: nat, lease: bool, confirmed: bool)
    ensures EveryRunIsSafe(workers, lease, confirmed)
      <==> workers == 0 || (confirmed && (lease || workers == 1))
  {
    hide Execute, Safe;
    if workers == 0 || (confirmed && (lease || workers == 1)) {
      SafeIfGuarded(workers, lease, confirmed);
    } else if !confirmed {
      UnconfirmedRecordingMailsTheMark(workers, lease);
      var events :| MailsTheMark(Execute(Initial(workers, 0), events, lease));
      MailedMarkIsUnsafe(Execute(Initial(workers, 0), events, lease), 1);
    } else {
      WithoutLeaseRedactedBodyIsSent(workers);
      var events :| MarkWasMailed(Execute(Initial(workers, 0), events, false));
      var s := Execute(Initial(workers, 0), events, false);
      MailedMarkIsUnsafe(s, |s.handed| - 1);
    }
  }
}
