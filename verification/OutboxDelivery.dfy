/** How often the mailer takes a message: once, unless an acceptance is lost. */
module OutboxDelivery {
  import opened EmailOutbox
  import opened OutboxProtocol
  import opened OutboxDrain

  // ---- what is counted along a run ----

  /** The worker has an acceptance of this message in hand, not yet recorded. */
  predicate Delivering(r: Runner, id: Id) {
    r.Delivered? && r.current.id == id
  }

  /** The mailer takes the message in this step. */
  predicate Takes(s: State, e: Event, id: Id) {
    && e.Act? && e.who < |s.runners| && e.action == HandOver(true)
    && s.runners[e.who].Claimed? && s.runners[e.who].current.id == id
  }

  /** The acceptance is lost in this step: the worker dies, or recording it throws, or a
      worker gives the message back although it is recorded as sent. */
  predicate Loses(s: State, e: Event, id: Id) {
    && e.Act? && e.who < |s.runners|
    && (((e.action.Crash? || e.action.RecordThrows?) && Delivering(s.runners[e.who], id))
        || (e.action.GiveBack? && GivingBack(s.runners[e.who], id) && Sent(s, id)))
  }

  predicate GivingBack(r: Runner, id: Id) {
    r.Refused? && r.current.id == id
  }

  /** The worker's update marks the message as sent, whether it learns of it or not. */
  predicate Records(r: Runner, action: Action, id: Id) {
    Delivering(r, id) && (action.Record? || action.RecordUnconfirmed?)
  }

  function One(b: bool): nat {
    if b then 1 else 0
  }

  /** How often the mailer took the message in a run. */
  ghost function Taken(s: State, events: seq<Event>, id: Id): nat {
    if events == [] then 0
    else
      var init := events[..|events| - 1];
      Taken(s, init, id) + One(Takes(Execute(s, init, true), events[|events| - 1], id))
  }

  /** How often an acceptance of it was lost. */
  ghost function Lost(s: State, events: seq<Event>, id: Id): nat {
    if events == [] then 0
    else
      var init := events[..|events| - 1];
      Lost(s, init, id) + One(Loses(Execute(s, init, true), events[|events| - 1], id))
  }

  predicate Sent(s: State, id: Id) {
    id in s.table && s.table[id].status == Succeeded
  }

  ghost predicate InDelivery(s: State, id: Id) {
    exists j :: 0 <= j < |s.runners| && Delivering(s.runners[j], id)
  }

  // ---- each step balances ----

  lemma OnlyOneDelivers(runners: seq<Runner>, who: nat, s: State, id: Id)
    requires s.runners == runners && who < |runners|
    requires forall j :: 0 <= j < |runners| && j != who ==> runners[j].Idle?
    ensures InDelivery(s, id) <==> Delivering(runners[who], id)
  {
  }

  /** A row is newly marked as sent only by the worker that records it, and stays so unless
      it is given back. */
  lemma SentByRecording(s: State, who: nat, action: Action, id: Id)
    requires who < |s.runners|
    requires s.runners[who].Delivered? || s.runners[who].Refused? ==> s.runners[who].current.id in s.table
    requires Delivering(s.runners[who], id) ==> !Sent(s, id)
    ensures var t := Step(s, who, action, true);
      Sent(t, id) <==> (Sent(s, id) && !Loses(s, Act(who, action), id)) || Records(s.runners[who], action, id)
  {
    hide IsFindMany, NobodyActive;
  }

  /** What one step does to the acceptances its worker has in hand. */
  lemma DeliveringAfter(s: State, who: nat, action: Action, id: Id)
    requires who < |s.runners| && (Delivering(s.runners[who], id) ==> id in s.table)
    ensures var t, e := Step(s, who, action, true), Act(who, action);
      && |t.runners| == |s.runners|
      && (forall j :: 0 <= j < |s.runners| && j != who ==> t.runners[j] == s.runners[j])
      && (Delivering(t.runners[who], id)
          <==> Takes(s, e, id)
               || (Delivering(s.runners[who], id) && !Loses(s, e, id) && !Records(s.runners[who], action, id)))
  {
    hide IsFindMany, NobodyActive, Claim, Complete, Release, RecoverStale, FailStale, Claimable;
  }

  /** A message in flight is not marked as sent. */
  lemma InFlightIsUnsent(s: State, who: nat, action: Action, id: Id)
    requires Inv(s) && who < |s.runners|
    ensures Takes(s, Act(who, action), id) || Delivering(s.runners[who], id) ==> id in s.table && !Sent(s, id)
    ensures Takes(s, Act(who, action), id) ==> !Delivering(s.runners[who], id)
  {
    assert RunnerOk(s, s.runners[who]);
    hide Times, LogOk, TableOk;
  }

  lemma ActBalances(s: State, who: nat, action: Action, id: Id)
    requires Inv(s) && who < |s.runners|
    ensures var t, e := Step(s, who, action, true), Act(who, action);
      One(Sent(t, id)) + One(InDelivery(t, id)) + One(Loses(s, e, id))
      == One(Sent(s, id)) + One(InDelivery(s, id)) + One(Takes(s, e, id))
  {
    assert RunnerOk(s, s.runners[who]);
    SentByRecording(s, who, action, id);
    InFlightIsUnsent(s, who, action, id);
    DeliveringAfter(s, who, action, id);
    var t := Step(s, who, action, true);
    assert AtMostOneActive(s.runners);
    assert s.runners[who].Idle? ==> !Takes(s, Act(who, action), id) && !Delivering(s.runners[who], id);
    hide Step, Inv, Sent, InDelivery, Loses;
    if s.runners[who].Idle? {
      assert !Delivering(t.runners[who], id);
      SameDeliveries(s, t, who, id);
    } else {
      OthersAreIdle(s.runners, who);
      OnlyOneDelivers(s.runners, who, s, id);
      OnlyOneDelivers(t.runners, who, t, id);
    }
  }

  lemma OthersAreIdle(runners: seq<Runner>, who: nat)
    requires AtMostOneActive(runners) && who < |runners| && !runners[who].Idle?
    ensures forall j :: 0 <= j < |runners| && j != who ==> runners[j].Idle?
  {
  }

  lemma SameDeliveries(s: State, t: State, who: nat, id: Id)
    requires who < |s.runners| && |t.runners| == |s.runners|
    requires forall j :: 0 <= j < |s.runners| && j != who ==> t.runners[j] == s.runners[j]
    requires !Delivering(s.runners[who], id) && !Delivering(t.runners[who], id)
    ensures InDelivery(t, id) <==> InDelivery(s, id)
  {
    if InDelivery(s, id) {
      var j :| 0 <= j < |s.runners| && Delivering(s.runners[j], id);
      assert Delivering(t.runners[j], id);
    }
    if InDelivery(t, id) {
      var j :| 0 <= j < |t.runners| && Delivering(t.runners[j], id);
      assert Delivering(s.runners[j], id);
    }
  }

  lemma EventBalances(s: State, e: Event, id: Id)
    requires Inv(s)
    ensures var t := After(s, e, true);
      One(Sent(t, id)) + One(InDelivery(t, id)) + One(Loses(s, e, id))
      == One(Sent(s, id)) + One(InDelivery(s, id)) + One(Takes(s, e, id))
  {
    if e.Act? && e.who < |s.runners| {
      ActBalances(s, e.who, e.action, id);
      hide Step;
    } else {
      hide TableOk, LogOk, RunnerOk;
      assert After(s, e, true).runners == s.runners;
    }
  }

  // ---- every run ----

  /** TAKEN, EXACTLY. In every run with the lease the mailer has taken a message once for
      every acceptance of it that was lost, before it was recorded or afterwards, and once
      more if the message is marked as sent or its acceptance is just being recorded. */
  lemma {:induction false} TakenExactly(workers: nat, now: int, events: seq<Event>, id: Id)
    ensures var a := Initial(workers, now);
      var s := Execute(a, events, true);
      Taken(a, events, id) == Lost(a, events, id) + One(Sent(s, id)) + One(InDelivery(s, id))
  {
    if events != [] {
      var init := events[..|events| - 1];
      TakenExactly(workers, now, init, id);
      EveryRunKeepsInv(workers, now, init);
      hide Inv, After, Sent, InDelivery, Takes, Loses;
      EventBalances(Execute(Initial(workers, now), init, true), events[|events| - 1], id);
    }
  }

  /** So a message marked as sent was taken more than once exactly if an acceptance was lost;
      one marked as failed was taken although exactly if one was; and without a loss no
      message is taken twice. */
  lemma LossesExactly(workers: nat, now: int, events: seq<Event>, id: Id)
    requires id in Execute(Initial(workers, now), events, true).table
    ensures var a := Initial(workers, now);
      var row := Execute(a, events, true).table[id];
      && (row.status == Succeeded ==> (Taken(a, events, id) > 1 <==> Lost(a, events, id) > 0))
      && (row.status == Failed ==> (Taken(a, events, id) > 0 <==> Lost(a, events, id) > 0))
      && (Lost(a, events, id) == 0 ==> Taken(a, events, id) <= 1)
  {
    hide Execute, Taken, Lost;
    var s := Execute(Initial(workers, now), events, true);
    TakenExactly(workers, now, events, id);
    EveryRunKeepsInv(workers, now, events);
    if InDelivery(s, id) {
      var j :| 0 <= j < |s.runners| && Delivering(s.runners[j], id);
      assert RunnerOk(s, s.runners[j]);
    }
  }

  // ---- both do happen ----

  /** A run that has lost an acceptance of the message. */
  ghost predicate ReachesLosing(a: State, b: State, id: Id) {
    exists events :: Execute(a, events, true) == b && Lost(a, events, id) > 0
  }

  lemma LosingNow(a: State, b: State, e: Event, id: Id)
    requires Reaches(a, b, true) && Loses(b, e, id)
    ensures ReachesLosing(a, After(b, e, true), id)
  {
    var events :| Execute(a, events, true) == b;
    assert (events + [e])[..|events|] == events;
    assert Execute(a, events + [e], true) == After(b, e, true) && Lost(a, events + [e], id) > 0;
  }

  lemma {:induction false} LossesStay(a: State, first: seq<Event>, rest: seq<Event>, id: Id)
    ensures Lost(a, first + rest, id) >= Lost(a, first, id)
    decreases |rest|
  {
    hide Execute, Loses;
    if rest == [] {
      assert first + rest == first;
    } else {
      LossesStay(a, first, rest[..|rest| - 1], id);
      assert (first + rest)[..|first + rest| - 1] == first + rest[..|rest| - 1];
    }
  }

  lemma LosingThrough(a: State, b: State, c: State, id: Id)
    requires ReachesLosing(a, b, id) && Reaches(b, c, true)
    ensures ReachesLosing(a, c, id)
  {
    var first :| Execute(a, first, true) == b && Lost(a, first, id) > 0;
    var rest :| Execute(b, rest, true) == c;
    hide Execute, Lost;
    ExecuteJoins(a, first, rest, true);
    LossesStay(a, first, rest, id);
  }

  const MAIL := Row("to", "subject", Sealed("text"), Pending, 0, 0, 0)
  const LATER := STALE_MS + 1
  const ABANDONED := MAIL.(status := Running, attempts := 1)

  /** The only worker fetches the message. */
  lemma FetchesTheMail() returns (s: State)
    ensures Reaches(Initial(1, 0), s, true) && s.now == 0
    ensures s.table == map["mail" := MAIL] && s.runners == [Working([Message("mail", MAIL)])]
  {
    hide Execute, Reaches, IsFindMany, RecoverStale, FailStale, Swept;
    var a, m := Initial(1, 0), Message("mail", MAIL);
    ReachesItself(a, true);
    var queued := Enqueue("mail", "to", "subject", "text", 0);
    ReachesNext(a, a, queued, true);
    var s1 := After(a, queued, true);
    assert s1.table == map["mail" := MAIL] && s1.runners == [Idle];
    OneRowPass(MAIL, 0, Rejected);
    PassBeginsARun(s1, 0, Pass(0, 1, [m], _ => Rejected));
    s := s1.(runners := [Working([m])]);
    assert s1.runners[0 := Working([m])] == [Working([m])];
    ReachesThrough(a, s1, s, true);
  }

  /** It delivers the message and dies before recording it; more than ten minutes pass. */
  lemma DiesAfterDelivery() returns (s: State)
    ensures ReachesLosing(Initial(1, 0), s, "mail") && s.now == LATER
    ensures s.table == map["mail" := ABANDONED] && s.runners == [Idle]
  {
    hide Execute, Reaches, ReachesLosing, IsFindMany, RecoverStale, FailStale, Swept;
    var a, m := Initial(1, 0), Message("mail", MAIL);
    var s2 := FetchesTheMail();
    var s3 := After(s2, Act(0, ClaimNext), true);
    ReachesNext(a, s2, Act(0, ClaimNext), true);
    assert [m][1..] == [];
    assert s3.table == map["mail" := ABANDONED] && s3.runners == [Claimed(m, [])];
    var s4 := After(s3, Act(0, HandOver(true)), true);
    ReachesNext(a, s3, Act(0, HandOver(true)), true);
    assert s4.runners == [Delivered(m, [])];
    var s5 := After(s4, Act(0, Crash), true);
    LosingNow(a, s4, Act(0, Crash), "mail");
    ReachesItself(s5, true);
    ReachesNext(s5, s5, Tick(LATER), true);
    s := After(s5, Tick(LATER), true);
    LosingThrough(a, s5, s, "mail");
  }

  function SweptRow(row: Row, now: int): Row {
    FailRow(RecoverRow(row, now - STALE_MS, now), now - STALE_MS, now)
  }

  predicate Written(outcome: Outcome) {
    outcome.Accepted? || outcome.RecordedButUnconfirmed?
  }

  /** A pass over a table of one row. */
  lemma OneRowPass(row: Row, now: int, outcome: Outcome)
    requires Due(SweptRow(row, now), now)
    ensures Swept(map["mail" := row], now) == map["mail" := SweptRow(row, now)]
    ensures var p, swept := Pass(now, 1, [Message("mail", SweptRow(row, now))], _ => outcome), SweptRow(row, now);
      && GoodPass(map["mail" := row], p)
      && RunPass(map["mail" := row], p)
         == map["mail" := swept.(
              status := if outcome.Accepted? then Succeeded else if swept.attempts >= 4 then Failed else Pending,
              body := if Written(outcome) then Redacted else swept.body,
              attempts := swept.attempts + 1, updatedAt := now)]
  {
    var swept := SweptRow(row, now);
    var t, m := map["mail" := row], Message("mail", swept);
    SweepOne(row, now);
    hide Swept, SweptRow;
    assert [m][0].id == "mail" && "mail" in Ids([m]);
    assert IsFindMany(map["mail" := swept], now, 1, [m]);
    hide IsFindMany;
    assert [m][..0] == [];
    assert ProcessMessages(map["mail" := swept], [], _ => outcome, now) == map["mail" := swept];
    ProcessOneRow(swept, now, outcome);
    hide ProcessMessage;
  }

  lemma SweepOne(row: Row, now: int)
    ensures Swept(map["mail" := row], now) == map["mail" := SweptRow(row, now)]
  {
    hide RecoverRow, FailRow;
    var lock := now - STALE_MS;
    assert RecoverStale(map["mail" := row], lock, now) == map["mail" := RecoverRow(row, lock, now)];
  }

  lemma ProcessOneRow(row: Row, now: int, outcome: Outcome)
    requires row.status == Pending
    ensures ProcessMessage(map["mail" := row], Message("mail", row), outcome, now)
      == map["mail" := row.(
           status := if outcome.Accepted? then Succeeded else if row.attempts >= 4 then Failed else Pending,
           body := if Written(outcome) then Redacted else row.body,
           attempts := row.attempts + 1, updatedAt := now)]
  {
    var claimed := Claim(map["mail" := row], "mail", now);
    assert claimed == map["mail" := row.(status := Running, attempts := row.attempts + 1, updatedAt := now)];
    hide Claim;
  }

  const RECOVERED := MAIL.(attempts := 1, updatedAt := LATER)

  lemma AbandonedIsRecovered()
    ensures SweptRow(ABANDONED, LATER) == RECOVERED && Due(RECOVERED, LATER)
  {
  }

  /** The next pass delivers the message again: it is taken twice. */
  lemma TakenTwiceAfterACrash()
    ensures exists events ::
      && Sent(Execute(Initial(1, 0), events, true), "mail") && Taken(Initial(1, 0), events, "mail") > 1
  {
    hide Execute, Reaches, ReachesLosing, RunPass, GoodPass, Taken, Lost;
    var s := DiesAfterDelivery();
    AbandonedIsRecovered();
    OneRowPass(ABANDONED, LATER, Accepted);
    var p := Pass(LATER, 1, [Message("mail", SweptRow(ABANDONED, LATER))], _ => Accepted);
    PassIsARun(s, 0, p);
    var t :| Reaches(s, t, true) && t.table == RunPass(s.table, p);
    LosingThrough(Initial(1, 0), s, t, "mail");
    var events := LosingEvents(Initial(1, 0), t, "mail");
    LossesExactly(1, 0, events, "mail");
  }

  lemma LosingEvents(a: State, b: State, id: Id) returns (events: seq<Event>)
    requires ReachesLosing(a, b, id)
    ensures Execute(a, events, true) == b && Lost(a, events, id) > 0
  {
    events :| Execute(a, events, true) == b && Lost(a, events, id) > 0;
  }

  /** A refused attempt on a waiting row. */
  function Refusal(row: Row): Row {
    row.(status := if row.attempts >= 4 then Failed else Pending, attempts := row.attempts + 1, updatedAt := LATER)
  }

  lemma RefusedPass(s: State, t: State, row: Row) returns (u: State)
    requires ReachesLosing(s, t, "mail") && t.runners == [Idle] && t.now == LATER
    requires t.table == map["mail" := row] && row.status == Pending && row.sendAt == 0
    ensures ReachesLosing(s, u, "mail") && u.runners == [Idle] && u.now == LATER
    ensures u.table == map["mail" := Refusal(row)]
  {
    hide Execute, Reaches, ReachesLosing, RunPass, GoodPass;
    assert SweptRow(row, LATER) == row;
    OneRowPass(row, LATER, Rejected);
    var p := Pass(LATER, 1, [Message("mail", SweptRow(row, LATER))], _ => Rejected);
    PassIsARun(t, 0, p);
    u :| Reaches(t, u, true) && u.table == RunPass(t.table, p) && u.runners == t.runners && u.now == t.now;
    LosingThrough(s, t, u, "mail");
  }

  /** Or the mailer refuses it from then on: it is marked as failed although it was taken. */
  lemma FailedAlthoughTaken()
    ensures exists events ::
      var s := Execute(Initial(1, 0), events, true);
      && "mail" in s.table && s.table["mail"].status == Failed && Taken(Initial(1, 0), events, "mail") > 0
  {
    hide Execute, Reaches, ReachesLosing, RunPass, GoodPass, Taken, Lost;
    var a := Initial(1, 0);
    var s := DiesAfterDelivery();
    AbandonedIsRecovered();
    OneRowPass(ABANDONED, LATER, Rejected);
    var p := Pass(LATER, 1, [Message("mail", SweptRow(ABANDONED, LATER))], _ => Rejected);
    PassIsARun(s, 0, p);
    var t :| Reaches(s, t, true) && t.table == RunPass(s.table, p) && t.runners == s.runners && t.now == s.now;
    LosingThrough(a, s, t, "mail");
    var row := RECOVERED.(attempts := 2);
    assert t.table == map["mail" := row];
    var t3 := RefusedPass(a, t, row);
    var t4 := RefusedPass(a, t3, Refusal(row));
    var t5 := RefusedPass(a, t4, Refusal(Refusal(row)));
    var events := LosingEvents(a, t5, "mail");
    LossesExactly(1, 0, events, "mail");
  }
}
