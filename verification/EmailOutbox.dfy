/** The e-mail outbox table: its statements, and one crash-free pass over it. */
module EmailOutbox {

  type Id = string

  datatype Status = Pending | Running | Succeeded | Failed

  /** A stored body is either the sealed text or the mark left after delivery. */
  datatype Body = Sealed(text: string) | Redacted

  datatype Row = Row(
    toEmail: string,
    subject: string,
    body: Body,
    status: Status,
    attempts: nat,
    sendAt: int,
    updatedAt: int)

  type Table = map<Id, Row>

  datatype Message = Message(id: Id, row: Row)

  const STALE_MS := 10 * 60000
  const MAX_ATTEMPTS := 5

  // ---- one statement each ----

  /** `upsert` with an empty update: an existing key is left alone. */
  function Queue(table: Table, key: Id, toEmail: string, subject: string, text: string, sendAt: int, now: int): Table {
    if key in table then table
    else table[key := Row(toEmail, subject, Sealed(text), Pending, 0, sendAt, now)]
  }

  /** The key makes queueing idempotent: a second message under it changes nothing, whatever
      it says. */
  lemma QueueingTwice(table: Table, key: Id, first: Row, second: Row)
    requires first.body.Sealed? && second.body.Sealed?
    ensures var once := Queue(table, key, first.toEmail, first.subject, first.body.text, first.sendAt, first.updatedAt);
      Queue(once, key, second.toEmail, second.subject, second.body.text, second.sendAt, second.updatedAt) == once
  {
  }

  predicate Stale(row: Row, staleLock: int) {
    row.status == Running && row.updatedAt < staleLock
  }

  function RecoverRow(row: Row, staleLock: int, now: int): Row {
    if Stale(row, staleLock) && row.attempts < MAX_ATTEMPTS then row.(status := Pending, updatedAt := now) else row
  }

  function FailRow(row: Row, staleLock: int, now: int): Row {
    if Stale(row, staleLock) && row.attempts >= MAX_ATTEMPTS then row.(status := Failed, updatedAt := now) else row
  }

  function RecoverStale(table: Table, staleLock: int, now: int): Table {
    map id | id in table :: RecoverRow(table[id], staleLock, now)
  }

  function FailStale(table: Table, staleLock: int, now: int): Table {
    map id | id in table :: FailRow(table[id], staleLock, now)
  }

  predicate Due(row: Row, now: int) {
    row.status == Pending && row.sendAt <= now
  }

  /** What `findMany` may answer: due rows as they stand, earliest first, at most
      `limit` of them, and none left out that comes before one returned. The order
      of equal send times is the database's choice. */
  ghost predicate IsFindMany(table: Table, now: int, limit: nat, messages: seq<Message>) {
    && |messages| <= limit
    && DueInOrder(table, now, messages)
    && (forall id :: id in table && Due(table[id], now) && id !in Ids(messages)
          ==> |messages| == limit && NoneAfter(messages, table[id].sendAt))
  }

  ghost function Ids(messages: seq<Message>): set<Id> {
    set i | 0 <= i < |messages| :: messages[i].id
  }

  /** Distinct due rows as they stand, earliest first. */
  ghost predicate DueInOrder(table: Table, now: int, messages: seq<Message>) {
    && (forall i :: 0 <= i < |messages| ==>
          messages[i].id in table && messages[i].row == table[messages[i].id] && Due(messages[i].row, now))
    && (forall i, j :: 0 <= i < j < |messages| ==>
          messages[i].id != messages[j].id && messages[i].row.sendAt <= messages[j].row.sendAt)
  }

  ghost predicate NoneAfter(messages: seq<Message>, sendAt: int) {
    forall i :: 0 <= i < |messages| ==> messages[i].row.sendAt <= sendAt
  }

  predicate Claimable(table: Table, id: Id) {
    id in table && table[id].status == Pending
  }

  function Claim(table: Table, id: Id, now: int): Table
    requires Claimable(table, id)
  {
    table[id := table[id].(status := Running, attempts := table[id].attempts + 1, updatedAt := now)]
  }

  /** Recording a delivery is guarded by the id alone. */
  function Complete(table: Table, id: Id, now: int): Table
    requires id in table
  {
    table[id := table[id].(status := Succeeded, body := Redacted, updatedAt := now)]
  }

  /** Recording a failure is guarded by the id alone, and decides by the attempts the
      message had when it was fetched. */
  function Release(table: Table, m: Message, now: int): Table
    requires m.id in table
  {
    table[m.id := table[m.id].(status := if m.row.attempts >= 4 then Failed else Pending, updatedAt := now)]
  }

  // ---- a pass without a crash ----

  /** What the mailer and the recording of its answer do with one message. The recording can
      throw without having happened, or after it was committed; both are caught alike. */
  datatype Outcome = Accepted | Rejected | AcceptedButNotRecorded | RecordedButUnconfirmed

  function ProcessMessage(table: Table, m: Message, outcome: Outcome, now: int): Table {
    if !Claimable(table, m.id) then table
    else
      var claimed := Claim(table, m.id, now);
      match outcome
      case Accepted => Complete(claimed, m.id, now)
      case RecordedButUnconfirmed => Release(Complete(claimed, m.id, now), m, now)
      case _ => Release(claimed, m, now)
  }

  function ProcessMessages(table: Table, messages: seq<Message>, outcome: Id -> Outcome, now: int): Table {
    if messages == [] then table
    else
      var before := ProcessMessages(table, messages[..|messages| - 1], outcome, now);
      var m := messages[|messages| - 1];
      ProcessMessage(before, m, outcome(m.id), now)
  }

  function Swept(table: Table, now: int): Table {
    FailStale(RecoverStale(table, now - STALE_MS, now), now - STALE_MS, now)
  }

  function CountAccepted(messages: seq<Message>, outcome: Id -> Outcome): nat {
    if messages == [] then 0
    else
      CountAccepted(messages[..|messages| - 1], outcome)
      + if outcome(messages[|messages| - 1].id).Accepted? then 1 else 0
  }

  lemma EarliestExists(table: Table, ids: set<Id>)
    requires ids <= table.Keys && ids != {}
    ensures exists first :: first in ids && forall id :: id in ids ==> table[first].sendAt <= table[id].sendAt
  {
    var some :| some in ids;
    var rest := ids - {some};
    if rest == {} {
      assert ids == {some};
    } else {
      EarliestExists(table, rest);
      var first :| first in rest && forall id :: id in rest ==> table[first].sendAt <= table[id].sendAt;
      EarliestOf(table, ids, some, first);
    }
  }

  lemma EarliestOf(table: Table, ids: set<Id>, some: Id, first: Id)
    requires ids <= table.Keys && some in ids && first in ids
    requires forall id :: id in ids && id != some ==> table[first].sendAt <= table[id].sendAt
    ensures exists earliest :: earliest in ids && forall id :: id in ids ==> table[earliest].sendAt <= table[id].sendAt
  {
    var earliest := if table[some].sendAt <= table[first].sendAt then some else first;
    assert earliest in ids && forall id :: id in ids ==> table[earliest].sendAt <= table[id].sendAt;
  }

  /** Half-way through the query: `messages` are chosen, `remaining` are the due rows
      not chosen, and none of them comes before one that is. */
  ghost predicate Selecting(table: Table, now: int, messages: seq<Message>, remaining: set<Id>) {
    && DueInOrder(table, now, messages)
    && (forall id :: id in remaining <==> id in table && Due(table[id], now) && id !in Ids(messages))
    && (forall id :: id in remaining ==> NoneAfter(messages, table[id].sendAt))
  }

  lemma SelectNext(table: Table, now: int, messages: seq<Message>, remaining: set<Id>, first: Id)
    requires Selecting(table, now, messages, remaining) && first in remaining
    requires forall id :: id in remaining ==> table[first].sendAt <= table[id].sendAt
    ensures Selecting(table, now, messages + [Message(first, table[first])], remaining - {first})
  {
    var after := messages + [Message(first, table[first])];
    IdsGrow(messages, Message(first, table[first]));
    forall i | 0 <= i < |messages| ensures messages[i].id != first {
      assert messages[i].id in Ids(messages);
    }
    assert NoneAfter(messages, table[first].sendAt);
    assert DueInOrder(table, now, after);
    forall id | id in remaining - {first} ensures NoneAfter(after, table[id].sendAt) {
      assert NoneAfter(messages, table[id].sendAt);
    }
  }

  lemma IdsGrow(messages: seq<Message>, m: Message)
    ensures Ids(messages + [m]) == Ids(messages) + {m.id}
  {
    var after := messages + [m];
    assert after[|messages|] == m;
    assert forall i :: 0 <= i < |messages| ==> after[i] == messages[i];
  }

  class Outbox {
    var table: Table

    constructor ()
      ensures table == map[]
    {
      table := map[];
    }

    /** Every row there was stays as it was, the one under this key included; a key that was
        not there gets a waiting, untried row with the sealed text. */
    method QueueEmail(key: Id, toEmail: string, subject: string, text: string, sendAt: int, now: int)
      modifies this
      ensures table == Queue(old(table), key, toEmail, subject, text, sendAt, now)
      ensures table.Keys == old(table).Keys + {key}
      ensures forall id :: id in old(table) ==> table[id] == old(table)[id]
      ensures key !in old(table) ==>
        && table[key].status == Pending && table[key].attempts == 0 && table[key].body == Sealed(text)
        && table[key].toEmail == toEmail && table[key].subject == subject && table[key].sendAt == sendAt
    {
      if key !in table {
        table := table[key := Row(toEmail, subject, Sealed(text), Pending, 0, sendAt, now)];
      }
    }

    /** The database's answer to the query, earliest due row first. */
    method FindMany(now: int, limit: nat) returns (messages: seq<Message>)
      ensures IsFindMany(table, now, limit, messages)
    {
      messages := [];
      var t := table;
      var remaining := set id | id in t && Due(t[id], now);
      while |messages| < limit && remaining != {}
        invariant |messages| <= limit
        invariant Selecting(t, now, messages, remaining)
        decreases remaining
      {
        EarliestExists(t, remaining);
        var first :| first in remaining && forall id :: id in remaining ==> t[first].sendAt <= t[id].sendAt;
        SelectNext(t, now, messages, remaining, first);
        messages := messages + [Message(first, t[first])];
        remaining := remaining - {first};
      }
    }

    /** `processEmailOutbox`, run to its end with nobody else at the table. */
    method ProcessEmailOutbox(now: int, limit: nat, outcome: Id -> Outcome)
      returns (processed: nat, sent: nat, ghost messages: seq<Message>)
      modifies this
      ensures IsFindMany(Swept(old(table), now), now, limit, messages)
      ensures table == ProcessMessages(Swept(old(table), now), messages, outcome, now)
      ensures processed == |messages| && sent == CountAccepted(messages, outcome)
    {
      table := RecoverStale(table, now - STALE_MS, now);
      table := FailStale(table, now - STALE_MS, now);
      var pending := FindMany(now, limit);
      messages := pending;
      sent := DeliverAll(pending, outcome, now);
      processed := |pending|;
    }

    /** The delivery loop over the fetched messages. */
    method DeliverAll(pending: seq<Message>, outcome: Id -> Outcome, now: int) returns (sent: nat)
      requires forall i :: 0 <= i < |pending| ==> Claimable(table, pending[i].id)
      requires forall i, j :: 0 <= i < j < |pending| ==> pending[i].id != pending[j].id
      modifies this
      ensures table == ProcessMessages(old(table), pending, outcome, now)
      ensures sent == CountAccepted(pending, outcome)
    {
      hide ProcessMessage;
      sent := 0;
      for i := 0 to |pending|
        invariant table == ProcessMessages(old(table), pending[..i], outcome, now)
        invariant forall j :: i <= j < |pending| ==> Claimable(table, pending[j].id)
        invariant sent == CountAccepted(pending[..i], outcome)
      {
        var message := pending[i];
        assert pending[..i + 1][..i] == pending[..i];
        var accepted := ProcessOne(message, outcome(message.id), now);
        if accepted {
          sent := sent + 1;
        }
      }
      assert pending[..|pending|] == pending;
    }

    /** The body of the delivery loop. */
    method ProcessOne(message: Message, outcome: Outcome, now: int) returns (accepted: bool)
      modifies this
      ensures table == ProcessMessage(old(table), message, outcome, now)
      ensures forall id :: id in old(table) && id != message.id ==> id in table && table[id] == old(table)[id]
      ensures accepted <==> Claimable(old(table), message.id) && outcome.Accepted?
    {
      accepted := false;
      if Claimable(table, message.id) {
        table := Claim(table, message.id, now);
        if outcome.Accepted? || outcome.RecordedButUnconfirmed? {
          table := Complete(table, message.id, now);
        }
        if outcome.Accepted? {
          accepted := true;
        } else {
          table := Release(table, message, now);
        }
      }
    }
  }
}
