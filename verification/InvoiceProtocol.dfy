/** Several invoice agents at once, with crashes, uploads, reviews and deletions in between. */
module InvoiceProtocol {
  import opened Basics
  import opened InvoiceClaims

  datatype Worker =
    | Resting
    | Holding(doc: Id)
    | Parsed(doc: Id, version: Version)
    | Failing(doc: Id)

  datatype State = State(now: int, tables: Tables, workers: seq<Worker>)

  datatype Action =
    | Take(doc: Id)
    | Parse(version: Version)
    | ParseFails
    | Store
    | StoreThrows
    | Fail
    | Crash

  datatype Event =
    | Tick(ms: nat)
    | OpenRequest(request: Id)
    | Upload(doc: Id, request: Id)
    | Review(request: Id, reviewed: Option<Id>, status: RequestStatus)
    | Delete(doc: Id)
    | Act(who: nat, action: Action)

  function Move(s: State, who: nat, w: Worker): State
    requires who < |s.workers|
  {
    s.(workers := s.workers[who := w])
  }

  ghost function Step(s: State, who: nat, action: Action): State
    requires who < |s.workers|
  {
    match (s.workers[who], action)
    case (Resting, Take(d)) =>
      if FirstClaimable(s.tables, s.now, d)
      then Move(s.(tables := Claim(s.tables, s.now, d)), who, Holding(d)) else s
    case (Holding(d), Parse(version)) => Move(s, who, Parsed(d, version))
    case (Holding(d), ParseFails) => Move(s, who, Failing(d))
    case (Parsed(d, version), Store) =>
      if d !in s.tables.documents then s
      else
        var stored := Persist(s.tables, s.now, d, version);
        if stored.Some? then Move(s.(tables := stored.value), who, Resting) else Move(s, who, Failing(d))
    case (Parsed(d, _), StoreThrows) => Move(s, who, Failing(d))
    case (Failing(d), Fail) =>
      if d !in s.tables.documents then s else Move(s.(tables := MarkFailed(s.tables, s.now, d)), who, Resting)
    case (_, Crash) => Move(s, who, Resting)
    case _ => s
  }

  // ---- what people do meanwhile ----

  /** An upload goes to a request that is still open, and brings a new document or one that
      was deleted. */
  predicate UploadTakesEffect(t: Tables, d: Id, r: Id) {
    && r in t.requests
    && t.requests[r].status != Confirmed && t.requests[r].status != Canceled
    && (d !in t.documents || (t.documents[d].request == r && t.documents[d].deleted))
  }

  /** It adds the document, or restores it with whatever extraction it had, and marks the
      request as received whatever was going on with it. */
  function AfterUpload(t: Tables, now: int, d: Id, r: Id): Tables {
    if !UploadTakesEffect(t, d, r) then t
    else
      var doc := if d !in t.documents then Document(r, now, false, true, NoExtraction, [])
                 else t.documents[d].(deleted := false, hasContent := true);
      SetRequest(t.(documents := t.documents[d := doc]), r, Received, now)
  }

  /** A review sets any status but the initial one, and may name a document of the request.
      That the document is not deleted is looked up before the transaction. */
  predicate ReviewTakesEffect(t: Tables, r: Id, reviewed: Option<Id>, status: RequestStatus) {
    && r in t.requests && status != Requested
    && (reviewed.Some? ==> reviewed.value in t.documents && t.documents[reviewed.value].request == r)
  }

  /** The status is written whatever it was; a named document gets a manual extraction in
      place of its marker, and no draft of the parser. */
  function AfterReview(t: Tables, now: int, r: Id, reviewed: Option<Id>, status: RequestStatus): Tables {
    if !ReviewTakesEffect(t, r, reviewed, status) then t
    else
      var written := SetRequest(t, r, status, now);
      if reviewed.None? then written
      else written.(documents := t.documents[reviewed.value := t.documents[reviewed.value].(extraction := Reviewed)])
  }

  function AfterDelete(t: Tables, d: Id): Tables {
    if d in t.documents
    then t.(documents := t.documents[d := t.documents[d].(deleted := true, hasContent := false)]) else t
  }

  ghost function After(s: State, e: Event): State {
    match e
    case Tick(ms) => s.(now := s.now + ms)
    case OpenRequest(r) =>
      if r in s.tables.requests then s else s.(tables := SetRequest(s.tables, r, Requested, s.now))
    case Upload(d, r) => s.(tables := AfterUpload(s.tables, s.now, d, r))
    case Review(r, reviewed, status) => s.(tables := AfterReview(s.tables, s.now, r, reviewed, status))
    case Delete(d) => s.(tables := AfterDelete(s.tables, d))
    case Act(who, action) => if who < |s.workers| then Step(s, who, action) else s
  }

  ghost function Execute(s: State, events: seq<Event>): State {
    if events == [] then s else After(Execute(s, events[..|events| - 1]), events[|events| - 1])
  }

  function Initial(tables: Tables, workers: nat, now: int): State {
    State(now, tables, seq(workers, i => Resting))
  }

  // ---- at most one draft of each version ----

  predicate NoDuplicates(drafts: seq<Version>) {
    forall i, j :: 0 <= i < j < |drafts| ==> drafts[i] != drafts[j]
  }

  ghost predicate DraftsOk(t: Tables) {
    t.Valid() && forall d :: d in t.documents ==> NoDuplicates(t.documents[d].drafts)
  }

  /** No document, request or draft is lost, and no document changes its request. */
  ghost predicate Keeps(t: Tables, after: Tables) {
    && (forall r :: r in t.requests ==> r in after.requests)
    && (forall d :: d in t.documents ==>
          && d in after.documents
          && after.documents[d].request == t.documents[d].request
          && t.documents[d].drafts <= after.documents[d].drafts)
  }

  lemma StepKeepsDrafts(s: State, who: nat, action: Action)
    requires DraftsOk(s.tables) && who < |s.workers|
    ensures DraftsOk(Step(s, who, action).tables) && Keeps(s.tables, Step(s, who, action).tables)
  {
    var w := s.workers[who];
    if action.Store? && w.Parsed? && w.doc in s.tables.documents {
      PersistKeepsDrafts(s.tables, s.now, w.doc, w.version);
      hide Persist, DraftsOk, Keeps;
      KeepsItself(s.tables);
    } else {
      hide Persist, FirstClaimable, NoDuplicates;
    }
  }

  lemma PersistKeepsDrafts(t: Tables, now: int, d: Id, version: Version)
    requires DraftsOk(t) && d in t.documents
    ensures var stored := Persist(t, now, d, version);
      stored.Some? ==> DraftsOk(stored.value) && Keeps(t, stored.value)
  {
    hide RequestFree;
  }

  lemma KeepsItself(t: Tables)
    ensures Keeps(t, t)
  {
  }

  lemma AfterKeepsDrafts(s: State, e: Event)
    requires DraftsOk(s.tables)
    ensures DraftsOk(After(s, e).tables) && Keeps(s.tables, After(s, e).tables)
  {
    hide NoDuplicates;
    if e.Act? {
      if e.who < |s.workers| {
        StepKeepsDrafts(s, e.who, e.action);
      }
      hide Step;
    }
    if e.Upload? && e.doc !in s.tables.documents {
      NoDraftsNoDuplicates();
    }
  }

  lemma NoDraftsNoDuplicates()
    ensures NoDuplicates([])
  {
  }

  predicate Settled(doc: Document) {
    V2 in doc.drafts
  }

  /** In every continuation of every state, however workers overlap, crash and repeat each
      other and whatever people do meanwhile: no document ever holds two drafts of one
      version, no document and no draft is lost, and a document with a current draft can
      never be claimed again. */
  lemma {:induction false} DraftsAreStoredOnce(s: State, events: seq<Event>)
    requires DraftsOk(s.tables)
    ensures var t := Execute(s, events).tables;
      && DraftsOk(t)
      && Keeps(s.tables, t)
      && (forall d, moment :: d in s.tables.documents && Settled(s.tables.documents[d]) ==> !Claimable(t, moment, d))
  {
    if events != [] {
      DraftsAreStoredOnce(s, events[..|events| - 1]);
      hide After;
      AfterKeepsDrafts(Execute(s, events[..|events| - 1]), events[|events| - 1]);
    }
    hide DraftsOk;
    var t := Execute(s, events).tables;
    forall d, moment | d in s.tables.documents && Settled(s.tables.documents[d]) ensures !Claimable(t, moment, d) {
      assert V2 in t.documents[d].drafts;
    }
  }

  // ---- the failure marker ----

  /** The two statements that overwrite a document's extraction: a worker storing a draft it
      does not have yet, and a review that names it. */
  predicate WritesExtraction(s: State, e: Event, d: Id)
    requires d in s.tables.documents
  {
    match e
    case Act(who, Store) =>
      && who < |s.workers| && s.workers[who].Parsed? && s.workers[who].doc == d
      && !s.tables.documents[d].deleted && s.workers[who].version !in s.tables.documents[d].drafts
    case Review(r, reviewed, status) => reviewed == Some(d) && ReviewTakesEffect(s.tables, r, reviewed, status)
    case _ => false
  }

  /** A failure marker is lifted exactly by these two statements, and the document is open
      again exactly if it still has its content and no current draft: after a superseded
      draft or a review. */
  lemma MarkerLiftedExactly(s: State, e: Event, d: Id)
    requires d in s.tables.documents && s.tables.documents[d].extraction == FailedMarker
    ensures d in After(s, e).tables.documents
    ensures var doc, after := s.tables.documents[d], After(s, e).tables.documents[d];
      && (after.extraction != FailedMarker <==> WritesExtraction(s, e, d))
      && (WritesExtraction(s, e, d) ==>
            (Open(after) <==> && !doc.deleted && doc.hasContent && !Settled(doc)
                              && (e.Act? ==> s.workers[e.who].version == V1)))
  {
    hide FirstClaimable, RequestFree;
    var drafts := s.tables.documents[d].drafts;
    assert (drafts + [V2])[|drafts|] == V2;
  }

  // ---- a confirmed request ----

  /** A confirmed request is opened again by two statements only: a review, and a worker
      that claimed one of its documents earlier storing a new draft. */
  lemma ConfirmationUndoneExactly(s: State, e: Event, r: Id)
    requires s.tables.Valid() && r in s.tables.requests && s.tables.requests[r].status == Confirmed
    ensures r in After(s, e).tables.requests
    ensures After(s, e).tables.requests[r].status != Confirmed <==>
      || (e.Review? && e.request == r && e.status != Confirmed
          && ReviewTakesEffect(s.tables, r, e.reviewed, e.status))
      || (e.Act? && e.action.Store? && e.who < |s.workers| && s.workers[e.who].Parsed?
          && var d := s.workers[e.who].doc;
          && d in s.tables.documents && s.tables.documents[d].request == r
          && WritesExtraction(s, e, d))
  {
    if e.Act? && e.action.Take? && e.who < |s.workers| && FirstClaimable(s.tables, s.now, e.action.doc) {
      assert Claimable(s.tables, s.now, e.action.doc);
    }
    hide FirstClaimable;
  }

  // ---- mutual exclusion ----

  predicate HoldsRequest(t: Tables, w: Worker, r: Id) {
    !w.Resting? && w.doc in t.documents && t.documents[w.doc].request == r
  }

  /** Some live worker holds a document of the request. */
  ghost predicate Held(s: State, r: Id) {
    exists w :: 0 <= w < |s.workers| && HoldsRequest(s.tables, s.workers[w], r)
  }

  /** Nobody else can claim a document of the request the worker holds. */
  predicate Locked(t: Tables, w: Worker, now: int) {
    w.Resting? || (&& w.doc in t.documents
                   && t.documents[w.doc].request in t.requests
                   && !RequestFree(t.requests[t.documents[w.doc].request], now))
  }

  /** Two workers never hold documents of one request. */
  ghost predicate DifferentRequests(t: Tables, workers: seq<Worker>) {
    forall v, w :: 0 <= v < w < |workers| && !workers[v].Resting? && !workers[w].Resting? ==>
      workers[v].doc in t.documents && workers[w].doc in t.documents
      && t.documents[workers[v].doc].request != t.documents[workers[w].doc].request
  }

  ghost predicate Exclusive(s: State) {
    && DifferentRequests(s.tables, s.workers)
    && forall w :: 0 <= w < |s.workers| ==> Locked(s.tables, s.workers[w], s.now)
  }

  /** The worker's two hours run out. */
  predicate RunsOut(s: State, w: Worker, ms: nat) {
    && !w.Resting? && w.doc in s.tables.documents && s.tables.documents[w.doc].request in s.tables.requests
    && var request := s.tables.requests[s.tables.documents[w.doc].request];
    request.status == Processing && request.updatedAt < s.now + ms - STALE_MS
  }

  /** What ends the exclusion, each to be seen before it happens: time running past a
      worker's two hours, an upload to a request somebody holds, and a review that sends
      such a request back. */
  ghost predicate Breaks(s: State, e: Event) {
    match e
    case Tick(ms) => exists w :: 0 <= w < |s.workers| && RunsOut(s, s.workers[w], ms)
    case Upload(d, r) => UploadTakesEffect(s.tables, d, r) && Held(s, r)
    case Review(r, reviewed, status) =>
      && ReviewTakesEffect(s.tables, r, reviewed, status)
      && (status == Received || status == NeedsInput) && Held(s, r)
    case _ => false
  }

  lemma StepKeepsExclusive(s: State, who: nat, action: Action)
    requires Exclusive(s) && who < |s.workers|
    ensures Exclusive(Step(s, who, action))
  {
    var w := s.workers[who];
    assert Locked(s.tables, w, s.now);
    if w.Resting? && action.Take? && FirstClaimable(s.tables, s.now, action.doc) {
      hide FirstClaimable;
      TakeKeepsExclusive(s, who, action.doc);
    } else if w.Parsed? && action.Store? && w.doc in s.tables.documents
              && Persist(s.tables, s.now, w.doc, w.version).Some? {
      LeaveKeepsExclusive(s, who, Persist(s.tables, s.now, w.doc, w.version).value);
    } else if w.Failing? && action.Fail? && w.doc in s.tables.documents {
      LeaveKeepsExclusive(s, who, MarkFailed(s.tables, s.now, w.doc));
    } else {
      hide FirstClaimable, RequestFree, Persist, MarkFailed;
      SameDocumentKeepsExclusive(s, who, Step(s, who, action).workers[who]);
    }
  }

  lemma TakeKeepsExclusive(s: State, who: nat, d: Id)
    requires Exclusive(s) && who < |s.workers| && s.workers[who].Resting? && Claimable(s.tables, s.now, d)
    ensures Exclusive(Move(s.(tables := Claim(s.tables, s.now, d)), who, Holding(d)))
  {
    var t := Move(s.(tables := Claim(s.tables, s.now, d)), who, Holding(d));
    forall w | 0 <= w < |t.workers|
      ensures Locked(t.tables, t.workers[w], t.now)
      ensures w != who && !t.workers[w].Resting?
        ==> s.tables.documents[t.workers[w].doc].request != s.tables.documents[d].request
    {
      assert Locked(s.tables, s.workers[w], s.now);
    }
  }

  /** A worker that leaves may do what it likes to its own request. */
  lemma LeaveKeepsExclusive(s: State, who: nat, tables: Tables)
    requires Exclusive(s) && who < |s.workers| && !s.workers[who].Resting? && s.workers[who].doc in s.tables.documents
    requires tables.documents.Keys == s.tables.documents.Keys && s.tables.requests.Keys <= tables.requests.Keys
    requires forall d :: d in tables.documents ==> tables.documents[d].request == s.tables.documents[d].request
    requires var own := s.tables.documents[s.workers[who].doc].request;
      forall r :: r in s.tables.requests && r != own ==> tables.requests[r] == s.tables.requests[r]
    ensures Exclusive(Move(s.(tables := tables), who, Resting))
  {
    hide RequestFree;
    var t := Move(s.(tables := tables), who, Resting);
    forall w | 0 <= w < |t.workers| ensures Locked(t.tables, t.workers[w], t.now) {
      assert Locked(s.tables, s.workers[w], s.now);
    }
  }

  lemma SameDocumentKeepsExclusive(s: State, who: nat, w: Worker)
    requires Exclusive(s) && who < |s.workers|
    requires w.Resting? || (!s.workers[who].Resting? && w.doc == s.workers[who].doc)
    ensures Exclusive(Move(s, who, w))
  {
    hide RequestFree;
    var t := Move(s, who, w);
    forall v | 0 <= v < |t.workers| ensures Locked(t.tables, t.workers[v], t.now) {
      assert Locked(s.tables, s.workers[v], s.now);
    }
  }

  lemma TickExcludesExactly(s: State, ms: nat)
    requires Exclusive(s)
    ensures Exclusive(After(s, Tick(ms))) <==> !Breaks(s, Tick(ms))
  {
    var t := After(s, Tick(ms));
    forall w | 0 <= w < |s.workers|
      ensures Locked(t.tables, t.workers[w], t.now) <==> !RunsOut(s, s.workers[w], ms)
    {
      assert Locked(s.tables, s.workers[w], s.now);
    }
    hide Locked, RunsOut;
  }

  /** A write to the status of one request, with documents only added or changed otherwise. */
  lemma WriteExcludesExactly(s: State, tables: Tables, r: Id)
    requires Exclusive(s) && r in tables.requests
    requires s.tables.documents.Keys <= tables.documents.Keys && s.tables.requests.Keys <= tables.requests.Keys
    requires forall d :: d in s.tables.documents ==> tables.documents[d].request == s.tables.documents[d].request
    requires forall x :: x in s.tables.requests && x != r ==> tables.requests[x] == s.tables.requests[x]
    ensures Exclusive(s.(tables := tables)) <==> !(RequestFree(tables.requests[r], s.now) && Held(s, r))
  {
    hide RequestFree;
    var t := s.(tables := tables);
    forall w | 0 <= w < |s.workers|
      ensures Locked(t.tables, t.workers[w], t.now)
        <==> !(HoldsRequest(s.tables, s.workers[w], r) && RequestFree(tables.requests[r], s.now))
    {
      assert Locked(s.tables, s.workers[w], s.now);
    }
    hide Locked, HoldsRequest;
    assert DifferentRequests(t.tables, t.workers);
  }

  /** EXCLUSION, EXACTLY. From a state in which no two workers share a request and nobody else
      can claim what a worker holds, any event leads to such a state again if and only if it
      is not one of those that end the exclusion. */
  lemma EventExcludesExactly(s: State, e: Event)
    requires Exclusive(s)
    ensures Exclusive(After(s, e)) <==> !Breaks(s, e)
  {
    match e
    case Tick(ms) => TickExcludesExactly(s, ms);
    case Act(who, action) =>
      if who < |s.workers| {
        StepKeepsExclusive(s, who, action);
      }
    case Upload(d, r) =>
      if UploadTakesEffect(s.tables, d, r) {
        WriteExcludesExactly(s, AfterUpload(s.tables, s.now, d, r), r);
      } else {
        hide Exclusive;
        assert After(s, e) == s;
      }
    case Review(r, reviewed, status) =>
      if ReviewTakesEffect(s.tables, r, reviewed, status) {
        WriteExcludesExactly(s, AfterReview(s.tables, s.now, r, reviewed, status), r);
      } else {
        hide Exclusive;
        assert After(s, e) == s;
      }
    case OpenRequest(r) =>
      if r !in s.tables.requests {
        WriteExcludesExactly(s, After(s, e).tables, r);
      }
    case Delete(d) =>
      DeleteKeepsExclusive(s, d);
  }

  lemma DeleteKeepsExclusive(s: State, d: Id)
    requires Exclusive(s)
    ensures Exclusive(After(s, Delete(d)))
  {
    hide RequestFree;
    var t := After(s, Delete(d));
    forall w | 0 <= w < |t.workers| ensures Locked(t.tables, t.workers[w], t.now) {
      assert Locked(s.tables, s.workers[w], s.now);
    }
  }

  ghost predicate ExclusiveThroughout(s: State, events: seq<Event>) {
    forall k :: 0 <= k <= |events| ==> Exclusive(Execute(s, events[..k]))
  }

  ghost predicate NothingBreaks(s: State, events: seq<Event>) {
    forall k :: 0 <= k < |events| ==> !Breaks(Execute(s, events[..k]), events[k])
  }

  lemma ExecuteNext(s: State, events: seq<Event>, k: nat)
    requires k < |events|
    ensures Execute(s, events[..k + 1]) == After(Execute(s, events[..k]), events[k])
  {
    assert events[..k + 1][..k] == events[..k];
  }

  lemma {:induction false} UnbrokenIsExclusive(s: State, events: seq<Event>, k: nat)
    requires Exclusive(s) && NothingBreaks(s, events) && k <= |events|
    ensures Exclusive(Execute(s, events[..k]))
  {
    hide Exclusive, Breaks, After;
    if k > 0 {
      UnbrokenIsExclusive(s, events, k - 1);
      ExecuteNext(s, events, k - 1);
      EventExcludesExactly(Execute(s, events[..k - 1]), events[k - 1]);
    }
  }

  /** The same for whole runs, uploads, reviews and the passing of time included: from any
      exclusive state a run excludes at every moment if and only if none of its events, when
      it happens, is one that ends the exclusion. */
  lemma RunExcludesExactly(s: State, events: seq<Event>)
    requires Exclusive(s)
    ensures ExclusiveThroughout(s, events) <==> NothingBreaks(s, events)
  {
    hide Exclusive, Breaks, After, Execute;
    if ExclusiveThroughout(s, events) {
      forall k | 0 <= k < |events| ensures !Breaks(Execute(s, events[..k]), events[k]) {
        assert Exclusive(Execute(s, events[..k + 1]));
        ExecuteNext(s, events, k);
        EventExcludesExactly(Execute(s, events[..k]), events[k]);
      }
    }
    if NothingBreaks(s, events) {
      forall k | 0 <= k <= |events| ensures Exclusive(Execute(s, events[..k])) {
        UnbrokenIsExclusive(s, events, k);
      }
    }
  }

  lemma NobodyIsExclusive(tables: Tables, workers: nat, now: int)
    ensures Exclusive(Initial(tables, workers, now))
  {
  }

  /** MUTUAL EXCLUSION. In every run from the start in which nothing ends the exclusion, two
      workers never hold documents of the same request, whatever crashes, uploads to other
      requests, reviews and deletions it contains. */
  lemma WorkersExclude(tables: Tables, workers: nat, now: int, events: seq<Event>)
    requires NothingBreaks(Initial(tables, workers, now), events)
    ensures var s := Execute(Initial(tables, workers, now), events); DifferentRequests(s.tables, s.workers)
  {
    NobodyIsExclusive(tables, workers, now);
    UnbrokenIsExclusive(Initial(tables, workers, now), events, |events|);
    assert events[..|events|] == events;
    hide NothingBreaks, Execute;
  }

  /** And what ends the exclusion does let another worker in: as soon as the oldest claimable
      document is one of a request somebody holds, the next worker to take it shares it. */
  lemma BreakLetsAnotherIn(s: State, v: nat, w: nat, d: Id)
    requires v < |s.workers| && w < |s.workers| && v != w && s.workers[v].Resting?
    requires FirstClaimable(s.tables, s.now, d) && HoldsRequest(s.tables, s.workers[w], s.tables.documents[d].request)
    ensures var t := After(s, Act(v, Take(d))); !DifferentRequests(t.tables, t.workers)
  {
    hide FirstClaimable;
    var t := After(s, Act(v, Take(d)));
    assert t.workers[v] == Holding(d) && t.workers[w] == s.workers[w];
    assert t.tables.documents == s.tables.documents;
  }

  /** After an event that ends the exclusion the request of some held document is free. */
  lemma BreakFreesARequest(s: State, e: Event) returns (w: nat)
    requires Exclusive(s) && Breaks(s, e)
    ensures var t := After(s, e);
      && t.workers == s.workers && w < |t.workers| && !t.workers[w].Resting?
      && t.workers[w].doc in t.tables.documents
      && var r := t.tables.documents[t.workers[w].doc].request;
      r in t.tables.requests && RequestFree(t.tables.requests[r], t.now)
  {
    match e
    case Tick(ms) =>
      w :| 0 <= w < |s.workers| && RunsOut(s, s.workers[w], ms);
    case Upload(d, r) =>
      w :| 0 <= w < |s.workers| && HoldsRequest(s.tables, s.workers[w], r);
    case Review(r, reviewed, status) =>
      w :| 0 <= w < |s.workers| && HoldsRequest(s.tables, s.workers[w], r);
  }

  // ---- each of the three does happen ----

  const ONE_DOCUMENT := Tables(
    map["request" := Request(Received, 0)],
    map["first" := Document("request", 0, false, true, NoExtraction, [])])

  lemma ExecuteThree(s: State, e1: Event, e2: Event, e3: Event)
    ensures Execute(s, [e1, e2, e3]) == After(After(After(s, e1), e2), e3)
  {
    assert [e1, e2, e3][..2] == [e1, e2];
    assert [e1, e2][..1] == [e1];
    assert [e1][..0] == [];
    assert Execute(s, []) == s;
    assert Execute(s, [e1]) == After(s, e1);
    assert Execute(s, [e1, e2]) == After(After(s, e1), e2);
  }

  /** One worker takes the document and gets an answer of the given version. */
  lemma TakenAndParsed(version: Version) returns (s: State)
    ensures s == Execute(Initial(ONE_DOCUMENT, 1, 0), [Act(0, Take("first")), Act(0, Parse(version))])
    ensures s == State(0, Claim(ONE_DOCUMENT, 0, "first"), [Parsed("first", version)])
  {
    hide Execute;
    var a, e1, e2 := Initial(ONE_DOCUMENT, 1, 0), Act(0, Take("first")), Act(0, Parse(version));
    ExecuteAppends(a, [], e1);
    ExecuteAppends(a, [e1], e2);
    ExecuteNothing(a);
    assert [] + [e1] == [e1] && [e1] + [e2] == [e1, e2];
    s := After(After(a, e1), e2);
    assert FirstClaimable(ONE_DOCUMENT, 0, "first");
    assert a.workers == [Resting];
  }

  lemma ExecuteNothing(s: State)
    ensures Execute(s, []) == s
  {
  }

  lemma ExecuteAppends(s: State, events: seq<Event>, e: Event)
    ensures Execute(s, events + [e]) == After(Execute(s, events), e)
  {
    assert (events + [e])[..|events|] == events;
  }

  const CONFIRMED_WHILE_PARSING :=
    [Act(0, Take("first")), Act(0, Parse(V2)), Review("request", None, Confirmed)]

  /** A review confirms the request while its document is being parsed, and the draft that
      comes afterwards sets it back to needing input. */
  lemma LateDraftReopensConfirmed()
    ensures var s := Execute(Initial(ONE_DOCUMENT, 1, 0), CONFIRMED_WHILE_PARSING);
      "request" in s.tables.requests && s.tables.requests["request"].status == Confirmed
    ensures var s := Execute(Initial(ONE_DOCUMENT, 1, 0), CONFIRMED_WHILE_PARSING + [Act(0, Store)]);
      "request" in s.tables.requests && s.tables.requests["request"].status == NeedsInput
  {
    hide Execute;
    var a, review := Initial(ONE_DOCUMENT, 1, 0), Review("request", None, Confirmed);
    var s := TakenAndParsed(V2);
    ExecuteAppends(a, [Act(0, Take("first")), Act(0, Parse(V2))], review);
    assert [Act(0, Take("first")), Act(0, Parse(V2))] + [review] == CONFIRMED_WHILE_PARSING;
    ExecuteAppends(a, CONFIRMED_WHILE_PARSING, Act(0, Store));
    var t := After(s, review);
    assert t.workers == [Parsed("first", V2)] && t.tables.documents == ONE_DOCUMENT.documents;
  }

  const ANSWERED_IN_V1 := [Act(0, Take("first")), Act(0, Parse(V1)), Act(0, Store)]

  /** A whole turn whose parser answers in the superseded version leaves its document
      claimable at that very moment: the next turn takes it again. */
  lemma SupersededAnswerIsTakenAgain()
    ensures var s := Execute(Initial(ONE_DOCUMENT, 1, 0), ANSWERED_IN_V1);
      && s.workers == [Resting] && "first" in s.tables.documents && s.tables.documents["first"].drafts == [V1]
      && FirstClaimable(s.tables, s.now, "first")
  {
    hide Execute;
    var s := TakenAndParsed(V1);
    ExecuteAppends(Initial(ONE_DOCUMENT, 1, 0), [Act(0, Take("first")), Act(0, Parse(V1))], Act(0, Store));
    assert [Act(0, Take("first")), Act(0, Parse(V1))] + [Act(0, Store)] == ANSWERED_IN_V1;
    var t := After(s, Act(0, Store));
    assert forall d :: d in t.tables.documents ==> d == "first";
  }

  lemma FirstTake() returns (s: State)
    ensures s == After(Initial(ONE_DOCUMENT, 2, 0), Act(0, Take("first")))
    ensures s == State(0, Claim(ONE_DOCUMENT, 0, "first"), [Holding("first"), Resting])
  {
    s := After(Initial(ONE_DOCUMENT, 2, 0), Act(0, Take("first")));
    assert FirstClaimable(ONE_DOCUMENT, 0, "first");
    assert Initial(ONE_DOCUMENT, 2, 0).workers == [Resting, Resting];
  }

  ghost predicate BothHold(s: State) {
    |s.workers| == 2 && s.workers[0] == Holding("first") && s.workers[1] == Holding("first")
  }

  /** An upload to the request while its first document is being parsed lets a second
      worker claim that same document. */
  lemma UploadBreaksExclusion()
    ensures exists events :: BothHold(Execute(Initial(ONE_DOCUMENT, 2, 0), events))
  {
    hide Execute;
    var e1, e2, e3 := Act(0, Take("first")), Upload("second", "request"), Act(1, Take("first"));
    ExecuteThree(Initial(ONE_DOCUMENT, 2, 0), e1, e2, e3);
    var s1 := FirstTake();
    var s2 := After(s1, e2);
    assert s2.tables.documents["second"].createdAt == 0;
    assert FirstClaimable(s2.tables, 0, "first");
    assert BothHold(After(s2, e3));
  }

  /** So does a worker that is still alive after its two hours. */
  lemma SlowWorkerBreaksExclusion()
    ensures exists events :: BothHold(Execute(Initial(ONE_DOCUMENT, 2, 0), events))
  {
    hide Execute;
    var e1, e2, e3 := Act(0, Take("first")), Tick(STALE_MS + 1), Act(1, Take("first"));
    ExecuteThree(Initial(ONE_DOCUMENT, 2, 0), e1, e2, e3);
    var s1 := FirstTake();
    var s2 := After(s1, e2);
    assert FirstClaimable(s2.tables, STALE_MS + 1, "first");
    assert BothHold(After(s2, e3));
  }

  /** And so does a review that asks for more input meanwhile. */
  lemma ReviewBreaksExclusion()
    ensures exists events :: BothHold(Execute(Initial(ONE_DOCUMENT, 2, 0), events))
  {
    hide Execute;
    var e1, e2, e3 := Act(0, Take("first")), Review("request", None, NeedsInput), Act(1, Take("first"));
    ExecuteThree(Initial(ONE_DOCUMENT, 2, 0), e1, e2, e3);
    var s1 := FirstTake();
    var s2 := After(s1, e2);
    assert FirstClaimable(s2.tables, 0, "first");
    assert BothHold(After(s2, e3));
  }
}
