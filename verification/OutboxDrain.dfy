/** Repeated crash-free passes empty the outbox. */
module OutboxDrain {
  import opened EmailOutbox
  import opened OutboxProtocol

  /** How many status changes a row can still go through. */
  function Weight(row: Row): nat {
    match row.status
    case Pending => if row.attempts <= 4 then 2 * (MAX_ATTEMPTS - row.attempts) else 0
    case Running => if row.attempts <= MAX_ATTEMPTS then 2 * (MAX_ATTEMPTS - row.attempts) + 1 else 0
    case Succeeded => 0
    case Failed => 0
  }

  ghost function TotalWeight(table: Table): nat {
    if table == map[] then 0
    else
      var id :| id in table;
      Weight(table[id]) + TotalWeight(table - {id})
  }

  lemma {:induction false} TotalWeightPicks(table: Table, id: Id)
    requires id in table
    ensures TotalWeight(table) == Weight(table[id]) + TotalWeight(table - {id})
  {
    hide Weight;
    var first :| first in table && TotalWeight(table) == Weight(table[first]) + TotalWeight(table - {first});
    if first != id {
      TotalWeightPicks(table - {first}, id);
      TotalWeightPicks(table - {id}, first);
      assert table - {first} - {id} == table - {id} - {first};
    }
  }

  /** Row by row no heavier means no heavier in all, and lighter if some row is. */
  lemma {:induction false} LighterRowsLighterTable(before: Table, after: Table)
    requires after.Keys == before.Keys
    requires forall id :: id in before ==> Weight(after[id]) <= Weight(before[id])
    ensures TotalWeight(after) <= TotalWeight(before)
    ensures (exists id :: id in before && Weight(after[id]) < Weight(before[id]))
      ==> TotalWeight(after) < TotalWeight(before)
    decreases |before|
  {
    hide Weight;
    if before != map[] {
      var id :| id in before;
      TotalWeightPicks(before, id);
      TotalWeightPicks(after, id);
      assert (after - {id}).Keys == after.Keys - {id} == (before - {id}).Keys;
      LighterRowsLighterTable(before - {id}, after - {id});
      if other :| other in before && Weight(after[other]) < Weight(before[other]) && other != id {
        assert other in before - {id};
      }
    } else {
      assert after == map[];
    }
  }

  ghost predicate RowsOk(table: Table) {
    forall id :: id in table ==> RowOk(table[id])
  }

  /** A pass at `now` can take the row up: it is waiting, or its worker has been silent
      for more than ten minutes. */
  predicate Ready(row: Row, now: int) {
    row.sendAt <= now && (row.status == Pending || Stale(row, now - STALE_MS))
  }

  ghost predicate AllReady(table: Table, now: int) {
    forall id :: id in table ==> Terminal(table[id]) || Ready(table[id], now)
  }

  ghost predicate Drained(table: Table) {
    forall id :: id in table ==> Terminal(table[id])
  }

  ghost predicate NoneRunning(table: Table) {
    forall id :: id in table ==> table[id].status != Running
  }

  lemma SweepLightens(table: Table, now: int)
    requires RowsOk(table) && AllReady(table, now)
    ensures var swept := Swept(table, now);
      && swept.Keys == table.Keys && RowsOk(swept) && NoneRunning(swept)
      && (forall id :: id in table ==>
            && Weight(swept[id]) <= Weight(table[id])
            && (table[id].status == Running ==> Weight(swept[id]) < Weight(table[id]))
            && (Terminal(swept[id]) || Due(swept[id], now)))
      && TotalWeight(swept) <= TotalWeight(table)
      && (!NoneRunning(table) ==> TotalWeight(swept) < TotalWeight(table))
  {
    hide Weight, Terminal, Due, RecoverRow, FailRow;
    var swept := Swept(table, now);
    forall id | id in table ensures SweptRowLightens(table[id], swept[id], now) {
      SweepRowLightens(table[id], now);
    }
    LighterRowsLighterTable(table, swept);
  }

  predicate SweptRowLightens(row: Row, swept: Row, now: int) {
    && RowOk(swept) && swept.status != Running
    && Weight(swept) <= Weight(row)
    && (row.status == Running ==> Weight(swept) < Weight(row))
    && (Terminal(swept) || Due(swept, now))
  }

  lemma SweepRowLightens(row: Row, now: int)
    requires RowOk(row) && (Terminal(row) || Ready(row, now))
    ensures SweptRowLightens(row, FailRow(RecoverRow(row, now - STALE_MS, now), now - STALE_MS, now), now)
  {
  }

  lemma ProcessLightens(table: Table, m: Message, outcome: Outcome, now: int)
    requires RowsOk(table) && NoneRunning(table) && Claimable(table, m.id) && m.row.attempts == table[m.id].attempts
    ensures var after := ProcessMessage(table, m, outcome, now);
      && after.Keys == table.Keys && RowsOk(after) && NoneRunning(after)
      && (forall id :: id in table && id != m.id ==> after[id] == table[id])
      && after[m.id].sendAt == table[m.id].sendAt
      && TotalWeight(after) < TotalWeight(table)
  {
    MessageLightensItsRow(table, m, outcome, now);
    hide ProcessMessage, Weight, TotalWeight, RowOk;
    LighterRowsLighterTable(table, ProcessMessage(table, m, outcome, now));
  }

  lemma MessageLightensItsRow(table: Table, m: Message, outcome: Outcome, now: int)
    requires RowsOk(table) && Claimable(table, m.id) && m.row.attempts == table[m.id].attempts
    ensures var after := ProcessMessage(table, m, outcome, now);
      && after.Keys == table.Keys
      && (forall id :: id in table && id != m.id ==> after[id] == table[id])
      && after[m.id].sendAt == table[m.id].sendAt && after[m.id].status != Running
      && RowOk(after[m.id]) && Weight(after[m.id]) < Weight(table[m.id])
  {
    assert RowOk(table[m.id]);
  }

  /** The loop over the fetched messages: each of them lightens the table. */
  lemma {:induction false} LoopLightens(table: Table, messages: seq<Message>, outcome: Id -> Outcome, now: int)
    requires RowsOk(table) && NoneRunning(table) && DueInOrder(table, now, messages)
    ensures var after := ProcessMessages(table, messages, outcome, now);
      && after.Keys == table.Keys && RowsOk(after) && NoneRunning(after)
      && (forall id :: id in table && (forall i :: 0 <= i < |messages| ==> messages[i].id != id)
            ==> after[id] == table[id])
      && (forall id :: id in table ==> after[id].sendAt == table[id].sendAt)
      && TotalWeight(after) + |messages| <= TotalWeight(table)
  {
    hide ProcessMessage, Weight, TotalWeight;
    if messages != [] {
      var init, m := messages[..|messages| - 1], messages[|messages| - 1];
      LoopLightens(table, init, outcome, now);
      var before := ProcessMessages(table, init, outcome, now);
      assert before[m.id] == table[m.id];
      ProcessLightens(before, m, outcome(m.id), now);
    }
  }

  /** One crash-free pass. */
  datatype Pass = Pass(now: int, limit: nat, messages: seq<Message>, outcome: Id -> Outcome)

  function RunPass(table: Table, p: Pass): Table {
    ProcessMessages(Swept(table, p.now), p.messages, p.outcome, p.now)
  }

  ghost predicate GoodPass(table: Table, p: Pass) {
    p.limit > 0 && IsFindMany(Swept(table, p.now), p.now, p.limit, p.messages)
  }

  lemma NothingFetchedNothingOpen(table: Table, p: Pass)
    requires GoodPass(table, p) && p.messages == []
    requires forall id :: id in Swept(table, p.now) ==>
      Terminal(Swept(table, p.now)[id]) || Due(Swept(table, p.now)[id], p.now)
    ensures RunPass(table, p) == Swept(table, p.now) && Drained(RunPass(table, p))
  {
    hide Swept;
    forall id | id in Swept(table, p.now) ensures Terminal(Swept(table, p.now)[id]) {
      assert id !in Ids(p.messages);
    }
  }

  /** If every open row is ready, a pass leaves nothing open or makes progress, and
      every row it leaves open is ready for any later pass. */
  lemma PassMakesProgress(table: Table, p: Pass)
    requires RowsOk(table) && AllReady(table, p.now) && GoodPass(table, p)
    ensures var after := RunPass(table, p);
      && RowsOk(after)
      && (forall later :: later >= p.now ==> AllReady(after, later))
      && (Drained(after) || TotalWeight(after) < TotalWeight(table))
  {
    hide Weight, TotalWeight, ProcessMessages, Swept;
    SweepLightens(table, p.now);
    var swept := Swept(table, p.now);
    LoopLightens(swept, p.messages, p.outcome, p.now);
    var after := RunPass(table, p);
    if p.messages == [] {
      NothingFetchedNothingOpen(table, p);
    }
    forall later | later >= p.now ensures AllReady(after, later) {
      forall id | id in after ensures Terminal(after[id]) || Ready(after[id], later) {
        assert after[id].sendAt == swept[id].sendAt;
        if forall i :: 0 <= i < |p.messages| ==> p.messages[i].id != id {
          assert after[id] == swept[id];
        }
      }
    }
  }

  function RunPasses(table: Table, passes: seq<Pass>): Table
    decreases |passes|
  {
    if passes == [] then table else RunPasses(RunPass(table, passes[0]), passes[1..])
  }

  /** Passes one after the other, each fetching what the table then holds. */
  ghost predicate GoodPasses(table: Table, passes: seq<Pass>)
    decreases |passes|
  {
    passes != [] ==>
      && GoodPass(table, passes[0])
      && (|passes| > 1 ==> passes[0].now <= passes[1].now)
      && GoodPasses(RunPass(table, passes[0]), passes[1..])
  }

  lemma WeightlessIsDrained(table: Table)
    requires RowsOk(table) && TotalWeight(table) == 0
    ensures Drained(table)
  {
    forall id | id in table ensures Terminal(table[id]) {
      TotalWeightPicks(table, id);
      assert RowOk(table[id]);
    }
  }

  lemma {:induction false} DrainedStays(table: Table, passes: seq<Pass>)
    requires RowsOk(table) && Drained(table) && GoodPasses(table, passes)
    ensures Drained(RunPasses(table, passes))
    decreases |passes|
  {
    hide RunPass;
    if passes != [] {
      PassLeavesTerminal(table, passes[0]);
      DrainedStays(RunPass(table, passes[0]), passes[1..]);
    }
  }

  lemma FetchedRowIsOpen(table: Table, p: Pass)
    requires GoodPass(table, p) && p.messages != []
    ensures exists id :: id in Swept(table, p.now) && !Terminal(Swept(table, p.now)[id])
  {
    assert p.messages[0].id in Swept(table, p.now);
  }

  lemma PassLeavesTerminal(table: Table, p: Pass)
    requires RowsOk(table) && Drained(table) && GoodPass(table, p)
    ensures RunPass(table, p) == table
  {
    var swept := Swept(table, p.now);
    assert swept == table by {
      assert forall id :: id in table ==> swept[id] == table[id];
    }
    if p.messages != [] {
      FetchedRowIsOpen(table, p);
      assert false;
    }
  }

  /** THE QUEUE DRAINS. Whatever the mailer answers and however the database breaks
      ties, as many passes as the table's weight (at most eleven times the number of
      rows) leave every row sent or failed. */
  lemma {:induction false} PassesDrain(table: Table, passes: seq<Pass>)
    requires RowsOk(table) && GoodPasses(table, passes)
    requires passes != [] ==> AllReady(table, passes[0].now)
    requires |passes| >= TotalWeight(table)
    ensures Drained(RunPasses(table, passes))
    decreases |passes|
  {
    hide RunPass, TotalWeight, GoodPass;
    if passes == [] {
      WeightlessIsDrained(table);
    } else {
      var after := RunPass(table, passes[0]);
      PassMakesProgress(table, passes[0]);
      if Drained(after) {
        DrainedStays(after, passes[1..]);
      } else {
        PassesDrain(after, passes[1..]);
      }
    }
  }

  lemma {:induction false} WeightIsBounded(table: Table)
    ensures TotalWeight(table) <= 11 * |table|
    decreases |table|
  {
    if table != map[] {
      var id :| id in table && TotalWeight(table) == Weight(table[id]) + TotalWeight(table - {id});
      var rest := table - {id};
      assert rest.Keys == table.Keys - {id};
      assert |rest.Keys| == |table.Keys| - 1;
      WeightIsBounded(rest);
      assert |rest| == |table| - 1;
      assert Weight(table[id]) <= 11;
    }
  }

  /** From some moment on every open row is ready, so the theorem above applies to
      every state a run can leave behind. */
  lemma {:induction false} EventuallyReady(table: Table) returns (moment: int)
    ensures forall now :: now >= moment ==> AllReady(table, now)
    decreases |table|
  {
    if table == map[] {
      moment := 0;
    } else {
      var id :| id in table;
      assert (table - {id}).Keys == table.Keys - {id};
      var rest := EventuallyReady(table - {id});
      var own := if table[id].sendAt > table[id].updatedAt + STALE_MS + 1
                 then table[id].sendAt else table[id].updatedAt + STALE_MS + 1;
      moment := if rest > own then rest else own;
      forall now | now >= moment ensures AllReady(table, now) {
        assert AllReady(table - {id}, now);
        forall other | other in table ensures Terminal(table[other]) || Ready(table[other], now) {
          if other != id {
            assert other in table - {id};
          }
        }
      }
    }
  }

  /** The two theorems together: whatever a run with crashes has left behind, once its open
      rows are ready, eleven undisturbed passes per row settle every message. */
  lemma EveryRunDrains(workers: nat, now: int, events: seq<Event>, passes: seq<Pass>)
    requires var table := Execute(Initial(workers, now), events, true).table;
      && GoodPasses(table, passes)
      && (passes != [] ==> AllReady(table, passes[0].now))
      && |passes| >= 11 * |table|
    ensures Drained(RunPasses(Execute(Initial(workers, now), events, true).table, passes))
  {
    hide Execute, GoodPasses, RunPasses, AllReady;
    var s := Execute(Initial(workers, now), events, true);
    EveryRunKeepsInv(workers, now, events);
    WeightIsBounded(s.table);
    assert RowsOk(s.table);
    PassesDrain(s.table, passes);
  }

  // ---- passes are runs of the protocol ----

  /** A worker that is not interrupted performs exactly `ProcessMessages`. */
  lemma {:induction false} LoopIsARun(a: State, s: State, who: nat, messages: seq<Message>, outcome: Id -> Outcome)
    requires Reaches(a, s, true) && who < |s.runners|
    requires s.runners == s.runners[who := Working(messages)]
    requires forall i :: 0 <= i < |messages| ==> messages[i].id in s.table
    ensures exists t ::
      Reaches(a, t, true)
      && t.table == ProcessAll(s.table, messages, outcome, s.now)
      && t.runners == s.runners[who := Working([])] && t.now == s.now
    decreases |messages|
  {
    hide Execute, Reaches;
    if messages == [] {
      assert Reaches(a, s, true) && s.table == ProcessAll(s.table, messages, outcome, s.now);
    } else {
      var m := messages[0];
      var t := MessageIsARun(a, s, who, messages, outcome(m.id));
      LoopIsARun(a, t, who, messages[1..], outcome);
    }
  }

  /** The loop over the messages, first to last. */
  function ProcessAll(table: Table, messages: seq<Message>, outcome: Id -> Outcome, now: int): Table {
    if messages == [] then table
    else ProcessAll(ProcessMessage(table, messages[0], outcome(messages[0].id), now), messages[1..], outcome, now)
  }

  lemma {:induction false} ProcessAllIsProcessMessages(table: Table, first: seq<Message>, rest: seq<Message>,
                                                       outcome: Id -> Outcome, now: int)
    ensures ProcessAll(ProcessMessages(table, first, outcome, now), rest, outcome, now)
      == ProcessMessages(table, first + rest, outcome, now)
    decreases |rest|
  {
    hide ProcessMessage;
    if rest == [] {
      assert first + rest == first;
    } else {
      assert (first + [rest[0]])[..|first|] == first;
      assert first + rest == first + [rest[0]] + rest[1..];
      ProcessAllIsProcessMessages(table, first + [rest[0]], rest[1..], outcome, now);
    }
  }

  lemma MessageIsARun(a: State, s: State, who: nat, messages: seq<Message>, outcome: Outcome) returns (t: State)
    requires Reaches(a, s, true) && who < |s.runners| && messages != []
    requires s.runners == s.runners[who := Working(messages)]
    requires forall i :: 0 <= i < |messages| ==> messages[i].id in s.table
    ensures Reaches(a, t, true) && t.now == s.now
    ensures t.table == ProcessMessage(s.table, messages[0], outcome, s.now) && t.table.Keys == s.table.Keys
    ensures t.runners == s.runners[who := Working(messages[1..])]
  {
    hide Execute, Reaches;
    var m, queue := messages[0], messages[1..];
    assert s.runners[who] == Working(messages);
    t := After(s, Act(who, ClaimNext), true);
    ReachesNext(a, s, Act(who, ClaimNext), true);
    if Claimable(s.table, m.id) {
      assert t == Move(s.(table := Claim(s.table, m.id, s.now)), who, Claimed(m, queue));
      hide After, Step;
      t := DeliveryIsARun(a, t, who, m, queue, outcome);
    }
  }

  lemma DeliveryIsARun(a: State, s: State, who: nat, m: Message, queue: seq<Message>, outcome: Outcome)
    returns (t: State)
    requires Reaches(a, s, true) && who < |s.runners| && s.runners[who] == Claimed(m, queue) && m.id in s.table
    ensures Reaches(a, t, true) && t.now == s.now && t.runners == s.runners[who := Working(queue)]
    ensures t.table ==
      match outcome
      case Accepted => Complete(s.table, m.id, s.now)
      case RecordedButUnconfirmed => Release(Complete(s.table, m.id, s.now), m, s.now)
      case _ => Release(s.table, m, s.now)
  {
    hide Execute, Reaches, Complete, Release;
    var taken := !outcome.Rejected?;
    t := After(s, Act(who, HandOver(taken)), true);
    ReachesNext(a, s, Act(who, HandOver(taken)), true);
    if outcome.AcceptedButNotRecorded? || outcome.RecordedButUnconfirmed? {
      t := ThrowIsARun(a, t, who, m, queue, outcome);
    }
    var last := if outcome.Accepted? then Record else GiveBack;
    ReachesNext(a, t, Act(who, last), true);
    t := After(t, Act(who, last), true);
  }

  /** The recording throws, before it was committed or after. */
  lemma ThrowIsARun(a: State, s: State, who: nat, m: Message, queue: seq<Message>, outcome: Outcome)
    returns (t: State)
    requires Reaches(a, s, true) && who < |s.runners| && s.runners[who] == Delivered(m, queue) && m.id in s.table
    requires outcome.AcceptedButNotRecorded? || outcome.RecordedButUnconfirmed?
    ensures Reaches(a, t, true) && t.now == s.now && t.runners == s.runners[who := Refused(m, queue)]
    ensures m.id in t.table
    ensures t.table == if outcome.RecordedButUnconfirmed? then Complete(s.table, m.id, s.now) else s.table
  {
    hide Execute, Reaches;
    var thrown := if outcome.AcceptedButNotRecorded? then RecordThrows else RecordUnconfirmed;
    ReachesNext(a, s, Act(who, thrown), true);
    t := After(s, Act(who, thrown), true);
  }

  lemma PassBeginsARun(s: State, who: nat, p: Pass)
    requires who < |s.runners| && NobodyActive(s.runners) && p.now == s.now && GoodPass(s.table, p)
    ensures Reaches(s, s.(table := Swept(s.table, s.now), runners := s.runners[who := Working(p.messages)]), true)
  {
    hide Execute, Reaches, RecoverStale, FailStale, IsFindMany;
    ReachesItself(s, true);
    var s1 := After(s, Act(who, Begin), true);
    ReachesNext(s, s, Act(who, Begin), true);
    var s2 := After(s1, Act(who, Recover), true);
    ReachesNext(s, s1, Act(who, Recover), true);
    var s3 := After(s2, Act(who, Sweep), true);
    ReachesNext(s, s2, Act(who, Sweep), true);
    assert s3 == s.(table := Swept(s.table, s.now), runners := s.runners[who := SweptUp]);
    ReachesNext(s, s3, Act(who, Fetch(p.limit, p.messages)), true);
    assert After(s3, Act(who, Fetch(p.limit, p.messages)), true)
      == s3.(runners := s.runners[who := Working(p.messages)]);
  }

  /** The crash-free pass of the class is one of the runs the safety theorem covers. */
  lemma PassIsARun(s: State, who: nat, p: Pass)
    requires who < |s.runners| && NobodyActive(s.runners) && p.now == s.now && GoodPass(s.table, p)
    ensures exists t ::
      Reaches(s, t, true) && t.table == RunPass(s.table, p) && t.runners == s.runners && t.now == s.now
  {
    hide Execute, Reaches, ProcessMessages, ProcessAll, Swept;
    PassBeginsARun(s, who, p);
    var s4 := s.(table := Swept(s.table, s.now), runners := s.runners[who := Working(p.messages)]);
    FetchedRowsExist(s.table, p);
    hide IsFindMany;
    LoopIsARun(s, s4, who, p.messages, p.outcome);
    var t :| Reaches(s, t, true) && t.table == ProcessAll(s4.table, p.messages, p.outcome, s.now)
             && t.runners == s4.runners[who := Working([])] && t.now == s.now;
    ProcessNone(s4.table, p.outcome, s.now);
    ProcessAllIsProcessMessages(s4.table, [], p.messages, p.outcome, s.now);
    assert [] + p.messages == p.messages;
    ReachesNext(s, t, Act(who, Finish), true);
    assert s.runners[who := Idle] == s.runners;
    assert After(t, Act(who, Finish), true).runners == s.runners;
  }

  lemma FetchedRowsExist(table: Table, p: Pass)
    requires GoodPass(table, p)
    ensures forall i :: 0 <= i < |p.messages| ==> p.messages[i].id in Swept(table, p.now)
  {
  }

  lemma ProcessNone(table: Table, outcome: Id -> Outcome, now: int)
    ensures ProcessMessages(table, [], outcome, now) == table
  {
  }

  /** So are any number of passes, with time passing between them. */
  lemma {:induction false} PassesAreARun(s: State, who: nat, passes: seq<Pass>)
    requires who < |s.runners| && NobodyActive(s.runners) && GoodPasses(s.table, passes)
    requires passes != [] ==> passes[0].now >= s.now
    ensures exists t :: Reaches(s, t, true) && t.table == RunPasses(s.table, passes) && t.runners == s.runners
    decreases |passes|
  {
    hide Execute, Reaches, RunPass, GoodPass, NobodyActive;
    if passes == [] {
      ReachesItself(s, true);
    } else {
      var p := passes[0];
      var s1 := After(s, Tick(p.now - s.now), true);
      ReachesItself(s, true);
      ReachesNext(s, s, Tick(p.now - s.now), true);
      PassIsARun(s1, who, p);
      var t1 :| Reaches(s1, t1, true) && t1.table == RunPass(s.table, p) && t1.runners == s.runners && t1.now == p.now;
      ReachesThrough(s, s1, t1, true);
      PassesAreARun(t1, who, passes[1..]);
      var t :| Reaches(t1, t, true) && t.table == RunPasses(t1.table, passes[1..]) && t.runners == t1.runners;
      ReachesThrough(s, t1, t, true);
    }
  }

  /** DRAINING CONTINUES THE RUN. A run that has come to rest, whatever crashes it went
      through, is continued by its passes, eleven per row and each when every open row is
      ready, to a state in which every row is sent or failed. */
  lemma DrainingContinuesTheRun(workers: nat, now: int, events: seq<Event>, who: nat, passes: seq<Pass>)
    requires who < workers
    requires var s := Execute(Initial(workers, now), events, true);
      && NobodyActive(s.runners)
      && GoodPasses(s.table, passes) && |passes| >= 11 * |s.table|
      && (passes != [] ==> passes[0].now >= s.now && AllReady(s.table, passes[0].now))
    ensures exists more ::
      Drained(Execute(Initial(workers, now), events + more, true).table)
      && NobodyActive(Execute(Initial(workers, now), events + more, true).runners)
  {
    hide GoodPasses, RunPasses, AllReady, Drained, NobodyActive, After;
    var s := Execute(Initial(workers, now), events, true);
    WorkersStay(workers, now, events);
    EveryRunDrains(workers, now, events, passes);
    PassesAreARun(s, who, passes);
    var t :| Reaches(s, t, true) && t.table == RunPasses(s.table, passes) && t.runners == s.runners;
    var more :| Execute(s, more, true) == t;
    ExecuteJoins(Initial(workers, now), events, more, true);
  }

  lemma {:induction false} WorkersStay(workers: nat, now: int, events: seq<Event>)
    ensures |Execute(Initial(workers, now), events, true).runners| == workers
  {
    if events != [] {
      WorkersStay(workers, now, events[..|events| - 1]);
      hide Claim, Complete, Release, RecoverStale, FailStale, IsFindMany, Claimable, NobodyActive;
    }
  }

  // ---- from every state there is such a continuation ----

  /** The database always has an answer. */
  lemma {:induction false} FetchGoesOn(table: Table, now: int, limit: nat, messages: seq<Message>, remaining: set<Id>)
    requires Selecting(table, now, messages, remaining) && |messages| <= limit
    requires remaining <= table.Keys
    ensures exists answer :: IsFindMany(table, now, limit, answer)
    decreases remaining
  {
    hide Selecting;
    if |messages| == limit || remaining == {} {
      SelectedIsFound(table, now, limit, messages, remaining);
    } else {
      EarliestExists(table, remaining);
      var first :| first in remaining && forall id :: id in remaining ==> table[first].sendAt <= table[id].sendAt;
      SelectNext(table, now, messages, remaining, first);
      FetchGoesOn(table, now, limit, messages + [Message(first, table[first])], remaining - {first});
    }
  }

  lemma SelectedIsFound(table: Table, now: int, limit: nat, messages: seq<Message>, remaining: set<Id>)
    requires Selecting(table, now, messages, remaining) && |messages| <= limit
    requires |messages| == limit || remaining == {}
    ensures IsFindMany(table, now, limit, messages)
  {
  }

  lemma FetchExists(table: Table, now: int, limit: nat)
    ensures exists answer :: IsFindMany(table, now, limit, answer)
  {
    var remaining := set id | id in table && Due(table[id], now);
    assert Selecting(table, now, [], remaining);
    FetchGoesOn(table, now, limit, [], remaining);
  }

  lemma {:induction false} PassesExist(table: Table, now: int, limit: nat, outcome: Id -> Outcome, n: nat)
    returns (passes: seq<Pass>)
    requires limit > 0
    ensures |passes| == n && GoodPasses(table, passes)
    ensures forall i :: 0 <= i < n ==> passes[i].now == now
    decreases n
  {
    if n == 0 {
      passes := [];
    } else {
      FetchExists(Swept(table, now), now, limit);
      var messages :| IsFindMany(Swept(table, now), now, limit, messages);
      var p := Pass(now, limit, messages, outcome);
      hide RunPass, IsFindMany;
      var rest := PassesExist(RunPass(table, p), now, limit, outcome, n - 1);
      passes := [p] + rest;
      assert passes[1..] == rest;
    }
  }

  /** Whoever is at work stops, and nothing else changes. */
  lemma WorkStops(s: State) returns (t: State)
    requires Inv(s)
    ensures Reaches(s, t, true) && NobodyActive(t.runners) && t.table == s.table && t.now == s.now
    ensures |t.runners| == |s.runners|
  {
    hide Execute, Reaches, TableOk, LogOk, RunnerOk;
    ReachesItself(s, true);
    t := s;
    if j :| 0 <= j < |s.runners| && !s.runners[j].Idle? {
      ReachesNext(s, s, Act(j, Crash), true);
      t := After(s, Act(j, Crash), true);
      OthersIdle(s.runners, j, Idle);
    }
  }

  /** Every run, stopped at any point and whatever the mailer answers from then on, has a
      continuation that settles every message. */
  lemma EveryRunCanBeDrained(workers: nat, now: int, events: seq<Event>, limit: nat, outcome: Id -> Outcome)
    requires workers > 0 && limit > 0
    ensures exists more :: Drained(Execute(Initial(workers, now), events + more, true).table)
  {
    hide Inv, GoodPasses, RunPasses, AllReady, Drained, NobodyActive, After, Initial, IsFindMany;
    var a := Initial(workers, now);
    var s := Execute(a, events, true);
    EveryRunKeepsInv(workers, now, events);
    WorkersStay(workers, now, events);
    var t := WorkStops(s);
    var moment := EventuallyReady(t.table);
    var later := if moment > t.now then moment else t.now;
    var passes := PassesExist(t.table, later, limit, outcome, 11 * |t.table|);
    PassesAreARun(t, 0, passes);
    var u :| Reaches(t, u, true) && u.table == RunPasses(t.table, passes) && u.runners == t.runners;
    WeightIsBounded(t.table);
    InvRowsOk(s);
    PassesDrain(t.table, passes);
    ReachesThrough(s, t, u, true);
    var more :| Execute(s, more, true) == u;
    ExecuteJoins(a, events, more, true);
  }

  lemma InvRowsOk(s: State)
    requires Inv(s)
    ensures RowsOk(s.table)
  {
  }
}
