/** Why the runner lease is needed: without it two passes can overlap, and a message
    already delivered is reopened and sent again with its redacted body. */
module OutboxWithoutLease {
  import opened EmailOutbox
  import opened OutboxProtocol

  /** The first steps of a pass over a table with one row. */
  lemma PassSweepsTheRow(a: State, s: State, who: nat, id: Id, row: Row, lease: bool)
    requires Reaches(a, s, lease) && who < |s.runners| && s.runners[who].Idle?
    requires lease ==> NobodyActive(s.runners)
    requires id in s.table && s.table == map[id := s.table[id]]
    requires row == FailRow(RecoverRow(s.table[id], s.now - STALE_MS, s.now), s.now - STALE_MS, s.now)
    ensures Reaches(a, s.(runners := s.runners[who := SweptUp], table := map[id := row]), lease)
  {
    hide Execute, Reaches, RecoverRow, FailRow;
    var lock := s.now - STALE_MS;
    var recovered := RecoverStale(s.table, lock, s.now);
    assert recovered == map[id := RecoverRow(s.table[id], lock, s.now)];
    assert FailStale(recovered, lock, s.now) == map[id := row];
    var s1 := After(s, Act(who, Begin), lease);
    ReachesNext(a, s, Act(who, Begin), lease);
    var s2 := After(s1, Act(who, Recover), lease);
    ReachesNext(a, s1, Act(who, Recover), lease);
    ReachesNext(a, s2, Act(who, Sweep), lease);
    assert After(s2, Act(who, Sweep), lease) == s.(runners := s.runners[who := SweptUp], table := map[id := row]);
  }

  /** The steps of a pass that opens the table's only row, up to its claim. */
  lemma PassClaimsTheRow(a: State, s: State, who: nat, id: Id, row: Row, lease: bool)
    requires Reaches(a, s, lease) && who < |s.runners| && s.runners[who].Idle?
    requires lease ==> NobodyActive(s.runners)
    requires id in s.table && s.table == map[id := s.table[id]]
    requires row == FailRow(RecoverRow(s.table[id], s.now - STALE_MS, s.now), s.now - STALE_MS, s.now)
    requires Due(row, s.now)
    ensures Reaches(a, s.(
      runners := s.runners[who := Claimed(Message(id, row), [])],
      table := map[id := row.(status := Running, attempts := row.attempts + 1, updatedAt := s.now)]), lease)
  {
    hide Execute, Reaches, RecoverRow, FailRow;
    var m := Message(id, row);
    PassSweepsTheRow(a, s, who, id, row, lease);
    var s3 := s.(runners := s.runners[who := SweptUp], table := map[id := row]);
    OnlyRowIsFetched(id, row, s.now);
    hide IsFindMany;
    var s4 := After(s3, Act(who, Fetch(1, [m])), lease);
    ReachesNext(a, s3, Act(who, Fetch(1, [m])), lease);
    assert s4 == s3.(runners := s.runners[who := Working([m])]);
    ReachesNext(a, s4, Act(who, ClaimNext), lease);
    var s5 := After(s4, Act(who, ClaimNext), lease);
    var claimed := row.(status := Running, attempts := row.attempts + 1, updatedAt := s.now);
    assert [m][1..] == [];
    assert s5.table == map[id := claimed];
    assert s5 == s.(runners := s.runners[who := Claimed(m, [])], table := map[id := claimed]);
  }

  lemma OnlyRowIsFetched(id: Id, row: Row, now: int)
    requires Due(row, now)
    ensures IsFindMany(map[id := row], now, 1, [Message(id, row)])
  {
    assert [Message(id, row)][0].id == id;
    assert id in Ids([Message(id, row)]);
  }

  lemma ReachesAfterTwo(a: State, s: State, e: Event, f: Event)
    requires Reaches(a, s, false)
    ensures Reaches(a, After(After(s, e, false), f, false), false)
  {
    hide Execute, Reaches;
    ReachesNext(a, s, e, false);
    ReachesNext(a, After(s, e, false), f, false);
  }

  const MAIL := Row("to", "subject", Sealed("text"), Pending, 0, 0, 0)

  /** All workers idle but possibly the first two. */
  function Two(workers: nat, first: Runner, second: Runner): (runners: seq<Runner>)
    requires workers >= 2
    ensures |runners| == workers && runners[0] == first && runners[1] == second
    ensures forall i :: 2 <= i < workers ==> runners[i].Idle?
  {
    seq(workers, i => if i == 0 then first else if i == 1 then second else Idle)
  }

  lemma FirstMoves(workers: nat, first: Runner, second: Runner, r: Runner)
    requires workers >= 2
    ensures Two(workers, first, second)[0 := r] == Two(workers, r, second)
    ensures Two(workers, first, second)[1 := r] == Two(workers, first, r)
    ensures Initial(workers, 0).runners == Two(workers, Idle, Idle)
  {
  }

  ghost predicate MarkWasMailed(s: State) {
    s.handed != [] && s.handed[|s.handed| - 1] == Handover("mail", Redacted) && "mail" in s.accepted
    && s.unconfirmed == {}
  }

  /** Two workers or more, no lease: the first stalls for more than ten minutes while holding
      the message, the second recovers and delivers it, the first is then refused and
      puts the delivered row back into the queue. The next pass mails the redaction
      mark instead of the text. */
  lemma WithoutLeaseRedactedBodyIsSent(workers: nat)
    requires workers >= 2
    ensures exists events :: MarkWasMailed(Execute(Initial(workers, 0), events, false))
  {
    hide Execute, Reaches, Two;
    var a := Initial(workers, 0);
    var m := Message("mail", MAIL);
    ReachesItself(a, false);
    var s1 := After(a, Enqueue("mail", "to", "subject", "text", 0), false);
    ReachesNext(a, a, Enqueue("mail", "to", "subject", "text", 0), false);
    assert s1.table == map["mail" := MAIL];
    FirstMoves(workers, Idle, Idle, Claimed(m, []));
    PassClaimsTheRow(a, s1, 0, "mail", MAIL, false);
    var s2 := s1.(runners := Two(workers, Claimed(m, []), Idle),
                  table := map["mail" := MAIL.(status := Running, attempts := 1)]);
    var s3 := After(s2, Tick(STALE_MS + 1), false);
    ReachesNext(a, s2, Tick(STALE_MS + 1), false);
    SecondWorkerDelivers(workers, a, s3, m);
  }

  lemma SecondWorkerDelivers(workers: nat, a: State, s: State, m: Message)
    requires workers >= 2 && Reaches(a, s, false) && s.now == STALE_MS + 1 && s.handed == []
    requires s.unconfirmed == {}
    requires m == Message("mail", MAIL) && s.runners == Two(workers, Claimed(m, []), Idle)
    requires s.table == map["mail" := MAIL.(status := Running, attempts := 1)]
    ensures exists events :: MarkWasMailed(Execute(a, events, false))
  {
    hide Execute, Reaches, IsFindMany, RecoverStale, FailStale, Release, Queue, Two;
    var again := MAIL.(attempts := 1, updatedAt := s.now);
    var n := Message("mail", again);
    PassClaimsTheRow(a, s, 1, "mail", again, false);
    FirstMoves(workers, Claimed(m, []), Idle, Claimed(n, []));
    var s1 := s.(runners := Two(workers, Claimed(m, []), Claimed(n, [])),
                 table := map["mail" := again.(status := Running, attempts := 2)]);
    Delivers(a, s1, n);
    var done := again.(status := Succeeded, attempts := 2, body := Redacted);
    FirstMoves(workers, Claimed(m, []), Claimed(n, []), Idle);
    var s2 := s1.(runners := Two(workers, Claimed(m, []), Idle), table := map["mail" := done],
                  handed := [Handover("mail", MAIL.body)], accepted := s.accepted + {"mail"});
    assert Complete(s1.table, "mail", s.now) == s2.table;
    assert s.handed + [Handover("mail", again.body)] == s2.handed;
    assert Reaches(a, s2, false);
    FirstWorkerReopens(workers, a, s2, m, done);
  }

  /** The second worker hands over its only message, records it and finishes. */
  lemma Delivers(a: State, s: State, n: Message)
    requires Reaches(a, s, false) && |s.runners| >= 2 && s.runners[1] == Claimed(n, []) && n.id in s.table
    ensures Reaches(a, s.(runners := s.runners[1 := Idle], table := Complete(s.table, n.id, s.now),
                          handed := s.handed + [Handover(n.id, n.row.body)], accepted := s.accepted + {n.id}), false)
  {
    hide Execute, Reaches, Complete;
    var s1 := After(s, Act(1, HandOver(true)), false);
    ReachesNext(a, s, Act(1, HandOver(true)), false);
    var s2 := After(s1, Act(1, Record), false);
    ReachesNext(a, s1, Act(1, Record), false);
    ReachesNext(a, s2, Act(1, Finish), false);
    assert s.runners[1 := Delivered(n, [])][1 := Working([])][1 := Idle] == s.runners[1 := Idle];
  }

  lemma FirstWorkerReopens(workers: nat, a: State, s: State, m: Message, done: Row)
    requires workers >= 2 && Reaches(a, s, false) && |s.handed| == 1 && "mail" in s.accepted && s.now == STALE_MS + 1
    requires s.unconfirmed == {}
    requires m == Message("mail", MAIL) && s.runners == Two(workers, Claimed(m, []), Idle)
    requires done == MAIL.(status := Succeeded, attempts := 2, body := Redacted, updatedAt := s.now)
    requires s.table == map["mail" := done]
    ensures exists events :: MarkWasMailed(Execute(a, events, false))
  {
    hide Execute, IsFindMany, RecoverStale, FailStale, Two;
    ReachesAfterTwo(a, s, Act(0, HandOver(false)), Act(0, GiveBack));
    var open := done.(status := Pending);
    var n := Message("mail", open);
    FirstMoves(workers, Claimed(m, []), Idle, Refused(m, []));
    FirstMoves(workers, Refused(m, []), Idle, Working([]));
    FirstMoves(workers, Working([]), Idle, Claimed(n, []));
    var s1 := s.(runners := Two(workers, Working([]), Idle), table := map["mail" := open],
                 handed := s.handed + [Handover("mail", MAIL.body)]);
    assert After(After(s, Act(0, HandOver(false)), false), Act(0, GiveBack), false) == s1;
    PassClaimsTheRow(a, s1, 1, "mail", open, false);
    var s2 := s1.(runners := Two(workers, Working([]), Claimed(n, [])),
                  table := map["mail" := open.(status := Running, attempts := 3)]);
    assert Reaches(a, s2, false);
    ReachesNext(a, s2, Act(1, HandOver(true)), false);
    var last := After(s2, Act(1, HandOver(true)), false);
    assert MarkWasMailed(last);
  }

  // ---- a lone worker ----

  lemma LoneStep(s: State, e: Event)
    requires |s.runners| <= 1
    ensures After(s, e, false) == After(s, e, true) && |After(s, e, true).runners| == |s.runners|
  {
    hide Claim, Complete, Release, RecoverStale, FailStale, IsFindMany, Claimable;
  }

  /** A lone worker never finds another pass under way: its runs are the same with and
      without the lease. */
  lemma {:induction false} LoneWorkerNeedsNoLease(workers: nat, now: int, events: seq<Event>)
    requires workers <= 1
    ensures var s := Execute(Initial(workers, now), events, true);
      Execute(Initial(workers, now), events, false) == s && |s.runners| == workers
  {
    if events != [] {
      LoneWorkerNeedsNoLease(workers, now, events[..|events| - 1]);
      hide After;
      LoneStep(Execute(Initial(workers, now), events[..|events| - 1], true), events[|events| - 1]);
    }
  }
}
