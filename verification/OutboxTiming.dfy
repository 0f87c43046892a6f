/** No message is mailed before its time, with the lease or without it. */
module OutboxTiming {
  import opened EmailOutbox
  import opened OutboxProtocol

  /** The messages a worker still has in hand. */
  function InHand(r: Runner): seq<Message> {
    match r
    case Working(queue) => queue
    case Claimed(m, queue) => [m] + queue
    case Delivered(m, queue) => [m] + queue
    case Refused(m, queue) => [m] + queue
    case _ => []
  }

  /** The row's send time has come. */
  predicate TimeHasCome(table: Table, now: int, id: Id) {
    id in table && table[id].sendAt <= now
  }

  ghost predicate HandsDue(table: Table, now: int, r: Runner) {
    forall i :: 0 <= i < |InHand(r)| ==> TimeHasCome(table, now, InHand(r)[i].id)
  }

  ghost predicate NothingEarly(s: State) {
    && (forall i :: 0 <= i < |s.handed| ==> TimeHasCome(s.table, s.now, s.handed[i].id))
    && (forall j :: 0 <= j < |s.runners| ==> HandsDue(s.table, s.now, s.runners[j]))
  }

  /** What no step changes: a row stays, with its recipient, subject and send time, and
      the clock does not run back. */
  ghost predicate KeepsRows(s: State, t: State) {
    && s.now <= t.now
    && forall id :: id in s.table ==>
         && id in t.table
         && t.table[id].sendAt == s.table[id].sendAt
         && t.table[id].toEmail == s.table[id].toEmail
         && t.table[id].subject == s.table[id].subject
         && t.table[id].attempts >= s.table[id].attempts
  }

  lemma AfterKeepsRows(s: State, e: Event, lease: bool)
    ensures KeepsRows(s, After(s, e, lease))
  {
    hide IsFindMany, NobodyActive;
    if e.Act? && e.who < |s.runners| {
      StepKeepsRows(s, e.who, e.action, lease);
      hide Step;
    }
  }

  lemma StepKeepsRows(s: State, who: nat, action: Action, lease: bool)
    requires who < |s.runners|
    ensures KeepsRows(s, Step(s, who, action, lease))
  {
    hide IsFindMany, NobodyActive;
    var r := s.runners[who];
    if action.Recover? && r.Begun? {
      assert Step(s, who, action, lease).table == RecoverStale(s.table, r.staleLock, s.now);
    } else if action.Sweep? && r.Recovered? {
      assert Step(s, who, action, lease).table == FailStale(s.table, r.staleLock, s.now);
    } else {
      hide RecoverStale, FailStale;
    }
  }

  lemma LaterIsDue(s: State, t: State, r: Runner)
    requires KeepsRows(s, t) && HandsDue(s.table, s.now, r)
    ensures HandsDue(t.table, t.now, r)
  {
  }

  /** A worker only ever takes up rows that are due. */
  lemma StepKeepsHandsDue(s: State, who: nat, action: Action, lease: bool)
    requires who < |s.runners| && HandsDue(s.table, s.now, s.runners[who])
    ensures var t := Step(s, who, action, lease);
      && |t.runners| == |s.runners|
      && HandsDue(t.table, t.now, t.runners[who])
      && (forall j :: 0 <= j < |s.runners| && j != who ==> t.runners[j] == s.runners[j])
      && (t.handed == s.handed
          || exists h :: t.handed == s.handed + [h] && TimeHasCome(t.table, t.now, h.id))
  {
    var t := Step(s, who, action, lease);
    AfterKeepsRows(s, Act(who, action), lease);
    LaterIsDue(s, t, s.runners[who]);
    hide KeepsRows;
    forall i | 0 <= i < |InHand(t.runners[who])|
      ensures TimeHasCome(t.table, t.now, InHand(t.runners[who])[i].id)
    {
      NextInHand(s, who, action, lease, i);
    }
    if t.handed != s.handed {
      assert InHand(s.runners[who])[0] == s.runners[who].current;
    }
  }

  /** What is in hand afterwards was in hand before or was just fetched. */
  lemma NextInHand(s: State, who: nat, action: Action, lease: bool, i: nat)
    requires who < |s.runners|
    requires i < |InHand(Step(s, who, action, lease).runners[who])|
    ensures var t := Step(s, who, action, lease);
      var m := InHand(t.runners[who])[i];
      m in InHand(s.runners[who]) || (t.table == s.table && t.now == s.now && TimeHasCome(s.table, s.now, m.id))
  {
    if action.Fetch? && s.runners[who].SweptUp? {
      assert IsFindMany(s.table, s.now, action.limit, action.messages);
      hide Ids, NoneAfter;
    } else {
      HandsOnlyEmpty(s, who, action, lease);
      hide Step;
    }
  }

  lemma HandsOnlyEmpty(s: State, who: nat, action: Action, lease: bool)
    requires who < |s.runners| && !(action.Fetch? && s.runners[who].SweptUp?)
    ensures var before, hands := InHand(s.runners[who]), InHand(Step(s, who, action, lease).runners[who]);
      hands == before || hands == [] || (before != [] && hands == before[1..])
  {
    hide Claim, Complete, Release, RecoverStale, FailStale, IsFindMany, Claimable, NobodyActive;
    match s.runners[who]
    case Working(queue) =>
      assert queue != [] ==> [queue[0]] + queue[1..] == queue;
    case Claimed(m, queue) =>
    case Delivered(m, queue) =>
      assert ([m] + queue)[1..] == queue;
    case Refused(m, queue) =>
      assert ([m] + queue)[1..] == queue;
    case _ =>
  }

  lemma AfterKeepsNothingEarly(s: State, e: Event, lease: bool)
    requires NothingEarly(s)
    ensures NothingEarly(After(s, e, lease))
  {
    var t := After(s, e, lease);
    AfterKeepsRows(s, e, lease);
    hide After, KeepsRows, HandsDue;
    forall j | 0 <= j < |s.runners| ensures HandsDue(t.table, t.now, s.runners[j]) {
      LaterIsDue(s, t, s.runners[j]);
    }
    HandedStaysDue(s, t);
    hide TimeHasCome;
    if e.Act? && e.who < |s.runners| {
      StepKeepsHandsDue(s, e.who, e.action, lease);
      ActIsStep(s, e, lease);
    } else {
      OthersMoveNobody(s, e, lease);
    }
  }

  lemma HandedStaysDue(s: State, t: State)
    requires NothingEarly(s) && KeepsRows(s, t)
    ensures forall i :: 0 <= i < |s.handed| ==> TimeHasCome(t.table, t.now, s.handed[i].id)
  {
  }

  lemma ActIsStep(s: State, e: Event, lease: bool)
    requires e.Act? && e.who < |s.runners|
    ensures After(s, e, lease) == Step(s, e.who, e.action, lease)
  {
  }

  lemma OthersMoveNobody(s: State, e: Event, lease: bool)
    requires e.Act? ==> e.who >= |s.runners|
    ensures After(s, e, lease).handed == s.handed && After(s, e, lease).runners == s.runners
  {
  }

  /** NOTHING IS SENT EARLY. In every run, with or without the lease and whatever crashes,
      every message given to the mailer so far has a send time that has come; since this
      holds after every step, it held when the message was handed over. */
  lemma {:induction false} NothingIsSentEarly(workers: nat, now: int, events: seq<Event>, lease: bool)
    ensures NothingEarly(Execute(Initial(workers, now), events, lease))
  {
    if events != [] {
      NothingIsSentEarly(workers, now, events[..|events| - 1], lease);
      hide NothingEarly, After;
      var s := Execute(Initial(workers, now), events[..|events| - 1], lease);
      AfterKeepsNothingEarly(s, events[|events| - 1], lease);
    }
  }

  /** Whatever happens to a row, no run changes whom it is for, its subject or its time. */
  lemma {:induction false} RowsAreKept(s: State, events: seq<Event>, lease: bool)
    ensures KeepsRows(s, Execute(s, events, lease))
  {
    if events != [] {
      RowsAreKept(s, events[..|events| - 1], lease);
      hide After;
      AfterKeepsRows(Execute(s, events[..|events| - 1], lease), events[|events| - 1], lease);
    }
  }
}
