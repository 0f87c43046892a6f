/** The outbox as a protocol: any number of workers, each database statement one
    atomic step, time and new messages arriving between any two steps, and a crash
    possible at every point. `lease` says whether a worker may only begin a pass when
    no other pass is under way. */
module OutboxProtocol {
  import opened EmailOutbox

  /** Where a worker is in `processEmailOutbox`. */
  datatype Runner =
    | Idle
    | Begun(staleLock: int)
    | Recovered(staleLock: int)
    | SweptUp
    | Working(queue: seq<Message>)
    | Claimed(current: Message, queue: seq<Message>)
    | Delivered(current: Message, queue: seq<Message>)
    | Refused(current: Message, queue: seq<Message>)

  datatype Handover = Handover(id: Id, body: Body)

  /** `handed` is everything ever given to the mailer, `accepted` the messages it took,
      `texts` what was queued under each key, and `unconfirmed` the messages whose recording
      was once committed without the worker learning of it. */
  datatype State = State(
    now: int,
    table: Table,
    runners: seq<Runner>,
    handed: seq<Handover>,
    accepted: set<Id>,
    texts: map<Id, string>,
    unconfirmed: set<Id>)

  /** After a delivery the worker may get no answer, or its update may throw without effect
      (`RecordThrows`), or the update may be committed and throw (`RecordUnconfirmed`). */
  datatype Action =
    | Begin
    | Recover
    | Sweep
    | Fetch(limit: nat, messages: seq<Message>)
    | ClaimNext
    | HandOver(taken: bool)
    | Record
    | RecordThrows
    | RecordUnconfirmed
    | GiveBack
    | Finish
    | Crash

  datatype Event =
    | Tick(ms: nat)
    | Enqueue(key: Id, toEmail: string, subject: string, text: string, sendAt: int)
    | Act(who: nat, action: Action)

  predicate NobodyActive(runners: seq<Runner>) {
    forall j :: 0 <= j < |runners| ==> runners[j].Idle?
  }

  function Move(s: State, who: nat, r: Runner): State
    requires who < |s.runners|
  {
    s.(runners := s.runners[who := r])
  }

  /** One step; an action the worker is not in a position to take changes nothing. */
  ghost function Step(s: State, who: nat, action: Action, lease: bool): State
    requires who < |s.runners|
  {
    match (s.runners[who], action)
    case (Idle, Begin) =>
      if lease && !NobodyActive(s.runners) then s else Move(s, who, Begun(s.now - STALE_MS))
    case (Begun(lock), Recover) => Move(s.(table := RecoverStale(s.table, lock, s.now)), who, Recovered(lock))
    case (Recovered(lock), Sweep) => Move(s.(table := FailStale(s.table, lock, s.now)), who, SweptUp)
    case (SweptUp, Fetch(limit, messages)) =>
      if IsFindMany(s.table, s.now, limit, messages) then Move(s, who, Working(messages)) else s
    case (Working(queue), ClaimNext) =>
      if queue == [] then s
      else if Claimable(s.table, queue[0].id)
      then Move(s.(table := Claim(s.table, queue[0].id, s.now)), who, Claimed(queue[0], queue[1..]))
      else Move(s, who, Working(queue[1..]))
    case (Claimed(m, queue), HandOver(taken)) =>
      var after := s.(handed := s.handed + [Handover(m.id, m.row.body)]);
      if taken then Move(after.(accepted := s.accepted + {m.id}), who, Delivered(m, queue))
      else Move(after, who, Refused(m, queue))
    case (Delivered(m, queue), Record) =>
      if m.id in s.table then Move(s.(table := Complete(s.table, m.id, s.now)), who, Working(queue)) else s
    case (Delivered(m, queue), RecordThrows) => Move(s, who, Refused(m, queue))
    case (Delivered(m, queue), RecordUnconfirmed) =>
      if m.id in s.table
      then
        Move(s.(table := Complete(s.table, m.id, s.now), unconfirmed := s.unconfirmed + {m.id}),
             who, Refused(m, queue))
      else s
    case (Refused(m, queue), GiveBack) =>
      if m.id in s.table then Move(s.(table := Release(s.table, m, s.now)), who, Working(queue)) else s
    case (Working(queue), Finish) => if queue == [] then Move(s, who, Idle) else s
    case (_, Crash) => Move(s, who, Idle)
    case _ => s
  }

  ghost function After(s: State, e: Event, lease: bool): State {
    match e
    case Tick(ms) => s.(now := s.now + ms)
    case Enqueue(key, toEmail, subject, text, sendAt) =>
      if key in s.table then s
      else s.(table := Queue(s.table, key, toEmail, subject, text, sendAt, s.now), texts := s.texts[key := text])
    case Act(who, action) => if who < |s.runners| then Step(s, who, action, lease) else s
  }

  ghost function Execute(s: State, events: seq<Event>, lease: bool): State {
    if events == [] then s
    else After(Execute(s, events[..|events| - 1], lease), events[|events| - 1], lease)
  }

  ghost predicate Reaches(a: State, b: State, lease: bool) {
    exists events :: Execute(a, events, lease) == b
  }

  lemma ReachesItself(a: State, lease: bool)
    ensures Reaches(a, a, lease)
  {
    assert Execute(a, [], lease) == a;
  }

  lemma ReachesNext(a: State, b: State, e: Event, lease: bool)
    requires Reaches(a, b, lease)
    ensures Reaches(a, After(b, e, lease), lease)
  {
    var events :| Execute(a, events, lease) == b;
    assert (events + [e])[..|events|] == events;
    assert Execute(a, events + [e], lease) == After(b, e, lease);
  }

  lemma {:induction false} ExecuteJoins(s: State, first: seq<Event>, rest: seq<Event>, lease: bool)
    ensures Execute(s, first + rest, lease) == Execute(Execute(s, first, lease), rest, lease)
    decreases |rest|
  {
    hide After;
    if rest == [] {
      assert first + rest == first;
    } else {
      ExecuteJoins(s, first, rest[..|rest| - 1], lease);
      assert (first + rest)[..|first + rest| - 1] == first + rest[..|rest| - 1];
    }
  }

  lemma ReachesThrough(a: State, b: State, c: State, lease: bool)
    requires Reaches(a, b, lease) && Reaches(b, c, lease)
    ensures Reaches(a, c, lease)
  {
    var first :| Execute(a, first, lease) == b;
    var rest :| Execute(b, rest, lease) == c;
    ExecuteJoins(a, first, rest, lease);
  }

  function Initial(workers: nat, now: int): State {
    State(now, map[], seq(workers, i => Idle), [], {}, map[], {})
  }

  // ---- the invariant ----

  function Times(handed: seq<Handover>, id: Id): nat {
    if handed == [] then 0
    else Times(handed[..|handed| - 1], id) + if handed[|handed| - 1].id == id then 1 else 0
  }

  predicate RowOk(row: Row) {
    match row.status
    case Pending => row.attempts <= 4
    case Running => 1 <= row.attempts <= MAX_ATTEMPTS
    case Succeeded => row.attempts <= MAX_ATTEMPTS
    case Failed => row.attempts == MAX_ATTEMPTS
  }

  /** The text is there until a recording replaced it by the mark. */
  predicate BodyOk(s: State, id: Id)
    requires id in s.table && id in s.texts
  {
    s.table[id].body
    == if s.table[id].status == Succeeded || id in s.unconfirmed then Redacted else Sealed(s.texts[id])
  }

  ghost predicate TableOk(s: State) {
    && s.texts.Keys == s.table.Keys && s.unconfirmed <= s.table.Keys
    && (forall id :: id in s.table ==> RowOk(s.table[id]))
    && (forall id :: id in s.table ==> BodyOk(s, id))
    && (forall id :: id in s.table && s.table[id].status == Succeeded ==> id in s.accepted)
  }

  /** What is handed over is the text, or the mark of a recording that was not confirmed. */
  predicate HandoverOk(s: State, h: Handover) {
    && h.id in s.texts
    && (h.body == Sealed(s.texts[h.id]) || (h.body == Redacted && h.id in s.unconfirmed))
  }

  ghost predicate LogOk(s: State) {
    && (forall i :: 0 <= i < |s.handed| ==> HandoverOk(s, s.handed[i]))
    && (forall id :: id in s.table ==> Times(s.handed, id) <= s.table[id].attempts)
  }

  predicate AtMostOneActive(runners: seq<Runner>) {
    forall j, k :: 0 <= j < k < |runners| ==> runners[j].Idle? || runners[k].Idle?
  }

  ghost predicate QueueOk(table: Table, queue: seq<Message>) {
    && (forall i :: 0 <= i < |queue| ==> queue[i].id in table && queue[i].row == table[queue[i].id]
                                         && queue[i].row.status == Pending)
    && (forall i, j :: 0 <= i < j < |queue| ==> queue[i].id != queue[j].id)
  }

  predicate InFlight(table: Table, m: Message) {
    && m.id in table
    && table[m.id].status == Running
    && table[m.id].attempts == m.row.attempts + 1
    && table[m.id].body == m.row.body
  }

  /** The rest of a queue is in order and does not hold the current message again. */
  ghost predicate RestOk(table: Table, m: Message, queue: seq<Message>) {
    QueueOk(table, queue) && forall i :: 0 <= i < |queue| ==> queue[i].id != m.id
  }

  ghost predicate HoldsOk(s: State, m: Message, queue: seq<Message>) {
    InFlight(s.table, m) && RestOk(s.table, m, queue)
  }

  /** A worker about to give its message back holds a running row, or one that its own
      unconfirmed recording marked as sent. */
  ghost predicate GivesBackOk(s: State, m: Message, queue: seq<Message>) {
    && m.id in s.table
    && s.table[m.id].attempts == m.row.attempts + 1
    && (s.table[m.id].status == Running || (s.table[m.id].status == Succeeded && m.id in s.unconfirmed))
    && RestOk(s.table, m, queue)
  }

  ghost predicate RunnerOk(s: State, r: Runner) {
    match r
    case Working(queue) => QueueOk(s.table, queue)
    case Claimed(m, queue) => HoldsOk(s, m, queue) && Times(s.handed, m.id) < s.table[m.id].attempts
    case Delivered(m, queue) => HoldsOk(s, m, queue) && m.id in s.accepted
    case Refused(m, queue) => GivesBackOk(s, m, queue)
    case _ => true
  }

  ghost predicate Inv(s: State) {
    && TableOk(s)
    && LogOk(s)
    && AtMostOneActive(s.runners)
    && (forall j :: 0 <= j < |s.runners| ==> RunnerOk(s, s.runners[j]))
  }

  // ---- each step keeps it ----

  lemma NeverHanded(s: State, id: Id)
    requires LogOk(s) && id !in s.texts
    ensures Times(s.handed, id) == 0
    decreases |s.handed|
  {
    if s.handed != [] {
      var shorter := s.(handed := s.handed[..|s.handed| - 1], table := map[]);
      NeverHanded(shorter, id);
    }
  }

  lemma EnqueueKeepsTable(s: State, e: Event, lease: bool)
    requires Inv(s) && e.Enqueue? && e.key !in s.table
    ensures TableOk(After(s, e, lease))
  {
  }

  lemma EnqueueKeepsLog(s: State, e: Event, lease: bool)
    requires Inv(s) && e.Enqueue? && e.key !in s.table
    ensures LogOk(After(s, e, lease))
  {
    NeverHanded(s, e.key);
    hide Times, RowOk;
  }

  lemma EnqueueKeepsRunner(s: State, e: Event, lease: bool, r: Runner)
    requires Inv(s) && e.Enqueue? && e.key !in s.table && RunnerOk(s, r)
    ensures RunnerOk(After(s, e, lease), r)
  {
    hide TableOk, LogOk, Times;
  }

  lemma EnqueueKeepsInv(s: State, e: Event, lease: bool)
    requires Inv(s) && e.Enqueue?
    ensures Inv(After(s, e, lease))
  {
    hide TableOk, LogOk, RunnerOk;
    if e.key !in s.table {
      EnqueueKeepsTable(s, e, lease);
      EnqueueKeepsLog(s, e, lease);
      forall j | 0 <= j < |s.runners| ensures RunnerOk(After(s, e, lease), s.runners[j]) {
        EnqueueKeepsRunner(s, e, lease, s.runners[j]);
      }
    }
  }

  lemma OthersIdle(runners: seq<Runner>, who: nat, r: Runner)
    requires AtMostOneActive(runners) && who < |runners|
    requires runners[who].Idle? ==> r.Idle? || NobodyActive(runners)
    ensures AtMostOneActive(runners[who := r])
    ensures !runners[who].Idle? ==> forall j :: 0 <= j < |runners| && j != who ==> runners[j].Idle?
  {
  }

  lemma SameBodies(s: State, t: State)
    requires TableOk(s) && t.table.Keys == s.table.Keys && t.texts == s.texts && t.unconfirmed == s.unconfirmed
    requires forall id :: id in s.table ==>
      && t.table[id].body == s.table[id].body
      && (t.table[id].status == Succeeded <==> s.table[id].status == Succeeded)
    ensures forall id :: id in t.table ==> BodyOk(t, id)
  {
    forall id | id in t.table ensures BodyOk(t, id) {
      assert BodyOk(s, id);
    }
  }

  /** The two bulk statements of a pass touch stale running rows only. */
  lemma SweepKeepsInv(s: State, who: nat, action: Action)
    requires Inv(s) && who < |s.runners|
    requires (s.runners[who].Begun? && action.Recover?) || (s.runners[who].Recovered? && action.Sweep?)
    ensures Inv(Step(s, who, action, true))
  {
    var t := Step(s, who, action, true);
    OthersIdle(s.runners, who, t.runners[who]);
    var lock := s.runners[who].staleLock;
    assert t == if action.Recover? then Move(s.(table := RecoverStale(s.table, lock, s.now)), who, Recovered(lock))
                else Move(s.(table := FailStale(s.table, lock, s.now)), who, SweptUp);
    hide Step, Times, IsFindMany;
    forall id | id in t.table
      ensures RowOk(t.table[id]) && t.table[id].body == s.table[id].body && t.table[id].attempts == s.table[id].attempts
      ensures t.table[id].status == Succeeded <==> s.table[id].status == Succeeded
    {
      assert RowOk(s.table[id]);
    }
    assert t.table.Keys == s.table.Keys;
    SameBodies(s, t);
  }

  lemma ClaimKeepsInv(s: State, who: nat)
    requires Inv(s) && who < |s.runners| && s.runners[who].Working?
    ensures Inv(Step(s, who, ClaimNext, true))
  {
    var queue := s.runners[who].queue;
    var t := Step(s, who, ClaimNext, true);
    assert RunnerOk(s, s.runners[who]);
    OthersIdle(s.runners, who, t.runners[who]);
    if queue != [] {
      var m := queue[0];
      assert t == Move(s.(table := Claim(s.table, m.id, s.now)), who, Claimed(m, queue[1..]));
      hide Step;
      assert RowOk(s.table[m.id]);
      assert Times(s.handed, m.id) <= s.table[m.id].attempts;
      assert t.table.Keys == s.table.Keys;
      SameBodies(s, t);
      assert HoldsOk(t, m, queue[1..]);
    }
  }

  lemma HandOverKeepsInv(s: State, who: nat, taken: bool)
    requires Inv(s) && who < |s.runners| && s.runners[who].Claimed?
    ensures Inv(Step(s, who, HandOver(taken), true))
  {
    var m, queue := s.runners[who].current, s.runners[who].queue;
    var t := Step(s, who, HandOver(taken), true);
    var h := Handover(m.id, m.row.body);
    assert t == Move(s.(handed := s.handed + [h], accepted := if taken then s.accepted + {m.id} else s.accepted),
                     who, if taken then Delivered(m, queue) else Refused(m, queue));
    hide Step;
    assert RunnerOk(s, s.runners[who]);
    OthersIdle(s.runners, who, t.runners[who]);
    HandOverIsLogged(s, t, m);
    hide LogOk, Times;
    assert RunnerOk(t, t.runners[who]);
  }

  lemma HandOverIsLogged(s: State, t: State, m: Message)
    requires TableOk(s) && LogOk(s) && InFlight(s.table, m) && Times(s.handed, m.id) < s.table[m.id].attempts
    requires t.table == s.table && t.texts == s.texts && t.unconfirmed == s.unconfirmed
    requires t.handed == s.handed + [Handover(m.id, m.row.body)]
    ensures LogOk(t)
  {
    hide Times;
    assert RowOk(s.table[m.id]) && BodyOk(s, m.id);
    forall i | 0 <= i < |t.handed| ensures HandoverOk(t, t.handed[i]) {
      assert i < |s.handed| ==> HandoverOk(s, s.handed[i]);
    }
    forall id | id in t.table ensures Times(t.handed, id) <= t.table[id].attempts {
      assert Times(s.handed, id) <= s.table[id].attempts;
      TimesGrows(s.handed, Handover(m.id, m.row.body), id);
    }
  }

  lemma TimesGrows(handed: seq<Handover>, h: Handover, id: Id)
    ensures Times(handed + [h], id) == Times(handed, id) + if h.id == id then 1 else 0
  {
    assert (handed + [h])[..|handed|] == handed;
  }

  /** A worker that is done with its message may write a row that is in order over it. */
  lemma DoneKeepsInv(s: State, who: nat, m: Message, queue: seq<Message>, row: Row)
    requires Inv(s) && who < |s.runners| && !s.runners[who].Idle? && m.id in s.table && RestOk(s.table, m, queue)
    requires RowOk(row) && row.attempts >= s.table[m.id].attempts
    requires BodyOk(s.(table := s.table[m.id := row]), m.id)
    requires row.status == Succeeded ==> m.id in s.accepted
    ensures Inv(Move(s.(table := s.table[m.id := row]), who, Working(queue)))
  {
    hide RowOk, Times;
    var t := Move(s.(table := s.table[m.id := row]), who, Working(queue));
    OthersIdle(s.runners, who, Working(queue));
    assert t.table.Keys == s.table.Keys;
    forall id | id in t.table ensures BodyOk(t, id) {
      assert BodyOk(s, id);
    }
    assert QueueOk(t.table, queue);
    forall id | id in t.table ensures Times(t.handed, id) <= t.table[id].attempts {
      assert Times(s.handed, id) <= s.table[id].attempts;
    }
  }

  lemma RecordKeepsInv(s: State, who: nat)
    requires Inv(s) && who < |s.runners| && s.runners[who].Delivered?
    ensures Inv(Step(s, who, Record, true))
  {
    var m, queue := s.runners[who].current, s.runners[who].queue;
    assert RunnerOk(s, s.runners[who]) && RowOk(s.table[m.id]);
    var row := s.table[m.id].(status := Succeeded, body := Redacted, updatedAt := s.now);
    assert Step(s, who, Record, true) == Move(s.(table := s.table[m.id := row]), who, Working(queue));
    hide Step, Inv;
    DoneKeepsInv(s, who, m, queue, row);
  }

  lemma UnconfirmedKeepsInv(s: State, who: nat)
    requires Inv(s) && who < |s.runners| && s.runners[who].Delivered?
    ensures Inv(Step(s, who, RecordUnconfirmed, true))
  {
    var m, queue := s.runners[who].current, s.runners[who].queue;
    assert RunnerOk(s, s.runners[who]);
    RecordKeepsInv(s, who);
    RecordsThenRefuses(s, who, m, queue);
    var done := Step(s, who, Record, true);
    var t := done.(unconfirmed := done.unconfirmed + {m.id});
    hide Step, Inv;
    RestStays(s.table, m, queue, done.table);
    SentMayBeUnconfirmed(done, m.id);
    MoveKeepsInv(t, who, Refused(m, queue));
  }

  /** An unconfirmed recording is a recording after which the worker believes otherwise. */
  lemma RecordsThenRefuses(s: State, who: nat, m: Message, queue: seq<Message>)
    requires who < |s.runners| && s.runners[who] == Delivered(m, queue) && m.id in s.table
    ensures var done := Step(s, who, Record, true);
      && done.runners == s.runners[who := Working(queue)]
      && done.table == s.table[m.id := s.table[m.id].(status := Succeeded, body := Redacted, updatedAt := s.now)]
      && Step(s, who, RecordUnconfirmed, true)
         == Move(done.(unconfirmed := done.unconfirmed + {m.id}), who, Refused(m, queue))
  {
  }

  lemma RestStays(table: Table, m: Message, queue: seq<Message>, after: Table)
    requires RestOk(table, m, queue) && m.id in after && after == table[m.id := after[m.id]]
    ensures RestOk(after, m, queue)
  {
  }

  lemma SentMayBeUnconfirmed(s: State, id: Id)
    requires Inv(s) && id in s.table && s.table[id].status == Succeeded
    ensures Inv(s.(unconfirmed := s.unconfirmed + {id}))
  {
    hide Times, RowOk, QueueOk;
    var t := s.(unconfirmed := s.unconfirmed + {id});
    forall other | other in t.table ensures BodyOk(t, other) {
      assert BodyOk(s, other);
    }
    forall i | 0 <= i < |t.handed| ensures HandoverOk(t, t.handed[i]) {
      assert HandoverOk(s, s.handed[i]);
    }
    forall j | 0 <= j < |t.runners| ensures RunnerOk(t, t.runners[j]) {
      assert RunnerOk(s, s.runners[j]);
    }
  }

  lemma GiveBackKeepsInv(s: State, who: nat)
    requires Inv(s) && who < |s.runners| && s.runners[who].Refused?
    ensures Inv(Step(s, who, GiveBack, true))
  {
    var m, queue := s.runners[who].current, s.runners[who].queue;
    assert RunnerOk(s, s.runners[who]) && RowOk(s.table[m.id]) && BodyOk(s, m.id);
    var row := s.table[m.id].(status := if m.row.attempts >= 4 then Failed else Pending, updatedAt := s.now);
    assert Step(s, who, GiveBack, true) == Move(s.(table := s.table[m.id := row]), who, Working(queue));
    hide Step, Inv;
    DoneKeepsInv(s, who, m, queue, row);
  }

  lemma MoveKeepsInv(s: State, who: nat, r: Runner)
    requires Inv(s) && who < |s.runners| && RunnerOk(s, r)
    requires s.runners[who].Idle? ==> r.Idle? || NobodyActive(s.runners)
    ensures Inv(Move(s, who, r))
  {
    OthersIdle(s.runners, who, r);
    var t := Move(s, who, r);
    forall j | 0 <= j < |t.runners| ensures RunnerOk(t, t.runners[j]) {
      assert RunnerOk(s, t.runners[j]);
    }
  }

  /** Steps that only move a worker on. */
  lemma QuietStepKeepsInv(s: State, who: nat, action: Action)
    requires Inv(s) && who < |s.runners|
    requires action.Begin? || action.Fetch? || action.RecordThrows? || action.Finish? || action.Crash?
    ensures Inv(Step(s, who, action, true))
  {
    assert RunnerOk(s, s.runners[who]);
    hide TableOk, LogOk, Step, RunnerOk;
    QuietStepRunner(s, who, action);
    MoveKeepsInv(s, who, Step(s, who, action, true).runners[who]);
  }

  lemma QuietStepRunner(s: State, who: nat, action: Action)
    requires who < |s.runners| && RunnerOk(s, s.runners[who])
    requires action.Begin? || action.Fetch? || action.RecordThrows? || action.Finish? || action.Crash?
    ensures |Step(s, who, action, true).runners| == |s.runners|
    ensures var r := Step(s, who, action, true).runners[who];
      && Step(s, who, action, true) == Move(s, who, r)
      && RunnerOk(s, r) && (s.runners[who].Idle? ==> r.Idle? || NobodyActive(s.runners))
  {
    hide Times, Claim, Complete, Release, RecoverStale, FailStale, Ids, NoneAfter;
  }

  lemma StepKeepsInv(s: State, who: nat, action: Action)
    requires Inv(s) && who < |s.runners|
    ensures Inv(Step(s, who, action, true))
  {
    var r := s.runners[who];
    if (r.Begun? && action.Recover?) || (r.Recovered? && action.Sweep?) {
      SweepKeepsInv(s, who, action);
    } else if r.Working? && action.ClaimNext? {
      ClaimKeepsInv(s, who);
    } else if r.Claimed? && action.HandOver? {
      HandOverKeepsInv(s, who, action.taken);
    } else if r.Delivered? && action.Record? {
      RecordKeepsInv(s, who);
    } else if r.Delivered? && action.RecordUnconfirmed? {
      UnconfirmedKeepsInv(s, who);
    } else if r.Refused? && action.GiveBack? {
      GiveBackKeepsInv(s, who);
    } else if action.Begin? || action.Fetch? || action.RecordThrows? || action.Finish? || action.Crash? {
      QuietStepKeepsInv(s, who, action);
    } else {
      hide Inv;
      assert Step(s, who, action, true) == s;
    }
  }

  lemma AfterKeepsInv(s: State, e: Event)
    requires Inv(s)
    ensures Inv(After(s, e, true))
  {
    match e
    case Tick(ms) =>
      forall j | 0 <= j < |s.runners| ensures RunnerOk(After(s, e, true), s.runners[j]) {
        assert RunnerOk(s, s.runners[j]);
      }
    case Enqueue(_, _, _, _, _) => EnqueueKeepsInv(s, e, true);
    case Act(who, action) =>
      if who < |s.runners| {
        StepKeepsInv(s, who, action);
      }
  }

  // ---- safety of every run ----

  lemma {:induction false} EveryRunKeepsInv(workers: nat, now: int, events: seq<Event>)
    ensures Inv(Execute(Initial(workers, now), events, true))
  {
    if events != [] {
      EveryRunKeepsInv(workers, now, events[..|events| - 1]);
      hide Inv, After;
      AfterKeepsInv(Execute(Initial(workers, now), events[..|events| - 1], true), events[|events| - 1]);
    }
  }

  /** OUTBOX SAFETY, the rows. In every run with the lease, whatever crashes, delays and
      refusals it contains: no row is tried more than five times, a waiting row has at most
      four attempts behind it, a failed row has used all five, and a row is marked as sent
      only if the mailer took it. */
  lemma AttemptsAreBounded(workers: nat, now: int, events: seq<Event>, id: Id)
    requires id in Execute(Initial(workers, now), events, true).table
    ensures var s := Execute(Initial(workers, now), events, true);
      var row := s.table[id];
      && row.attempts <= MAX_ATTEMPTS
      && (row.status == Pending ==> row.attempts <= 4)
      && (row.status == Failed ==> row.attempts == MAX_ATTEMPTS)
      && (row.status == Succeeded ==> id in s.accepted)
  {
    EveryRunKeepsInv(workers, now, events);
    hide Execute;
    assert RowOk(Execute(Initial(workers, now), events, true).table[id]);
  }

  /** OUTBOX SAFETY, the mailer. Every message reaches it at most five times. */
  lemma HandedAtMostFiveTimes(workers: nat, now: int, events: seq<Event>, id: Id)
    ensures Times(Execute(Initial(workers, now), events, true).handed, id) <= MAX_ATTEMPTS
  {
    EveryRunKeepsInv(workers, now, events);
    hide Execute;
    var s := Execute(Initial(workers, now), events, true);
    if id in s.table {
      assert RowOk(s.table[id]);
    } else {
      NeverHanded(s, id);
    }
  }

  /** In this step the message is recorded as sent without the worker learning of it. */
  predicate RecordsUnconfirmed(s: State, e: Event, id: Id) {
    && e.Act? && e.who < |s.runners| && e.action.RecordUnconfirmed?
    && s.runners[e.who].Delivered? && s.runners[e.who].current.id == id && id in s.table
  }

  lemma UnconfirmedAfter(s: State, e: Event, lease: bool, id: Id)
    ensures id in After(s, e, lease).unconfirmed <==> id in s.unconfirmed || RecordsUnconfirmed(s, e, id)
  {
    hide Claim, Complete, Release, RecoverStale, FailStale, IsFindMany, Claimable, NobodyActive;
  }

  /** A message is among the unconfirmed ones exactly if such a step is part of the run. */
  lemma {:induction false} UnconfirmedExactly(s: State, events: seq<Event>, lease: bool, id: Id)
    ensures id in Execute(s, events, lease).unconfirmed
      <==> id in s.unconfirmed || exists i :: UnconfirmedAt(s, events, lease, id, i)
  {
    if events != [] {
      var init, last := events[..|events| - 1], |events| - 1;
      UnconfirmedExactly(s, init, lease, id);
      UnconfirmedAfter(Execute(s, init, lease), events[last], lease, id);
      assert UnconfirmedAt(s, events, lease, id, last)
        <==> RecordsUnconfirmed(Execute(s, init, lease), events[last], id);
      forall i: int | i < last
        ensures UnconfirmedAt(s, events, lease, id, i) <==> UnconfirmedAt(s, init, lease, id, i)
      {
        assert 0 <= i ==> init[..i] == events[..i];
      }
      forall i: int | i >= last ensures !UnconfirmedAt(s, init, lease, id, i) {
      }
      assert Execute(s, events, lease) == After(Execute(s, init, lease), events[last], lease);
      hide After, Execute, RecordsUnconfirmed, UnconfirmedAt;
    }
  }

  ghost predicate UnconfirmedAt(s: State, events: seq<Event>, lease: bool, id: Id, i: int) {
    0 <= i < |events| && RecordsUnconfirmed(Execute(s, events[..i], lease), events[i], id)
  }

  /** OUTBOX SAFETY, the text. Whatever was handed to the mailer is the text that was queued,
      or the mark left after a delivery whose recording was not confirmed; if every recording
      was confirmed, it is the text. */
  lemma QueuedTextIsHanded(workers: nat, now: int, events: seq<Event>, i: nat)
    requires i < |Execute(Initial(workers, now), events, true).handed|
    ensures var s := Execute(Initial(workers, now), events, true);
      && s.handed[i].id in s.texts
      && (s.handed[i].body == Sealed(s.texts[s.handed[i].id])
          || (s.handed[i].body == Redacted && s.handed[i].id in s.unconfirmed))
      && (s.unconfirmed == {} ==> s.handed[i].body == Sealed(s.texts[s.handed[i].id]))
  {
    EveryRunKeepsInv(workers, now, events);
    hide Execute;
    var s := Execute(Initial(workers, now), events, true);
    assert HandoverOk(s, s.handed[i]);
  }

  /** THE TEXT, EXACTLY. At every moment of every run, a worker that hands a message over
      gives the mailer the mark if a recording of that message was once not confirmed, and
      its queued text otherwise. */
  lemma MarkIsHandedExactly(workers: nat, now: int, events: seq<Event>, who: nat, taken: bool)
    requires var s := Execute(Initial(workers, now), events, true); who < |s.runners| && s.runners[who].Claimed?
    ensures var s := Execute(Initial(workers, now), events, true);
      var m := s.runners[who].current;
      && m.id in s.texts
      && Step(s, who, HandOver(taken), true).handed
         == s.handed + [Handover(m.id, if m.id in s.unconfirmed then Redacted else Sealed(s.texts[m.id]))]
  {
    EveryRunKeepsInv(workers, now, events);
    hide Execute;
    var s := Execute(Initial(workers, now), events, true);
    assert RunnerOk(s, s.runners[who]) && BodyOk(s, s.runners[who].current.id);
  }

  predicate Terminal(row: Row) {
    row.status == Succeeded || row.status == Failed
  }

  /** A worker that was refused, or believes so, is about to give this message back. */
  ghost predicate AwaitsGiveBack(s: State, id: Id) {
    exists j :: 0 <= j < |s.runners| && s.runners[j].Refused? && s.runners[j].current.id == id
  }

  /** A sent or failed row that nobody is about to give back is never touched again, by any
      step of any worker. */
  lemma TerminalRowStays(s: State, e: Event, id: Id)
    requires Inv(s) && id in s.table && Terminal(s.table[id]) && !AwaitsGiveBack(s, id)
    ensures var t := After(s, e, true); id in t.table && t.table[id] == s.table[id] && !AwaitsGiveBack(t, id)
  {
    if e.Act? && e.who < |s.runners| {
      assert RunnerOk(s, s.runners[e.who]);
      hide Inv;
      StepLeavesTerminal(s, e.who, e.action, id);
      hide Step;
    }
  }

  /** The message a worker has in hand, if any. */
  predicate HasInHand(r: Runner, id: Id) {
    (r.Claimed? || r.Delivered? || r.Refused?) && r.current.id == id
  }

  lemma StepLeavesTerminal(s: State, who: nat, action: Action, id: Id)
    requires who < |s.runners| && id in s.table && Terminal(s.table[id]) && !HasInHand(s.runners[who], id)
    ensures var t := Step(s, who, action, true);
      && id in t.table && t.table[id] == s.table[id] && |t.runners| == |s.runners|
      && (forall j :: 0 <= j < |s.runners| && j != who ==> t.runners[j] == s.runners[j])
      && !(t.runners[who].Refused? && t.runners[who].current.id == id)
  {
    hide IsFindMany, NobodyActive;
  }

  /** Nor by any continuation of the run. */
  lemma {:induction false} TerminalRowStaysForever(s: State, events: seq<Event>, id: Id)
    requires Inv(s) && id in s.table && Terminal(s.table[id]) && !AwaitsGiveBack(s, id)
    ensures var t := Execute(s, events, true);
      Inv(t) && id in t.table && t.table[id] == s.table[id] && !AwaitsGiveBack(t, id)
  {
    if events != [] {
      TerminalRowStaysForever(s, events[..|events| - 1], id);
      hide Inv, After, AwaitsGiveBack;
      var t := Execute(s, events[..|events| - 1], true);
      AfterKeepsInv(t, events[|events| - 1]);
      TerminalRowStays(t, events[|events| - 1], id);
    }
  }

  /** No continuation changes the row. */
  ghost predicate StaysForever(s: State, id: Id)
    requires id in s.table
  {
    forall events :: id in Execute(s, events, true).table && Execute(s, events, true).table[id] == s.table[id]
  }

  /** TERMINAL MEANS TERMINAL, EXACTLY. No continuation of a run changes a sent or failed row,
      if and only if no worker is about to give the message back. */
  lemma TerminalRowStaysExactly(s: State, id: Id)
    requires Inv(s) && id in s.table && Terminal(s.table[id])
    ensures StaysForever(s, id) <==> !AwaitsGiveBack(s, id)
  {
    if AwaitsGiveBack(s, id) {
      var j :| 0 <= j < |s.runners| && s.runners[j].Refused? && s.runners[j].current.id == id;
      GivingBackReopens(s, j);
    } else {
      forall events ensures id in Execute(s, events, true).table && Execute(s, events, true).table[id] == s.table[id] {
        TerminalRowStaysForever(s, events, id);
      }
    }
  }

  /** A sent row that is given back is waiting again, or failed after its fifth attempt. */
  lemma GivingBackReopens(s: State, who: nat)
    requires Inv(s) && who < |s.runners| && s.runners[who].Refused?
    requires s.runners[who].current.id in s.table && Terminal(s.table[s.runners[who].current.id])
    ensures var id := s.runners[who].current.id;
      var t := Execute(s, [Act(who, GiveBack)], true);
      && s.table[id].status == Succeeded && id in s.unconfirmed
      && id in t.table && t.table[id].body == Redacted
      && t.table[id].status == (if s.table[id].attempts < MAX_ATTEMPTS then Pending else Failed)
  {
    var id := s.runners[who].current.id;
    assert RunnerOk(s, s.runners[who]) && BodyOk(s, id) && RowOk(s.table[id]);
    var e := Act(who, GiveBack);
    assert [e][..0] == [];
    assert Execute(s, [], true) == s;
    assert Execute(s, [e], true) == After(s, e, true);
  }
}
