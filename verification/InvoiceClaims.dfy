/** The invoice agent: claiming documents, storing drafts and marking failures. Each
    transaction is one atomic step on the two tables. */
module InvoiceClaims {
  import opened Basics

  type Id = string

  const STALE_MS := 2 * 60 * 60000

  datatype RequestStatus = Requested | Received | Processing | NeedsInput | Confirmed | Canceled

  datatype Request = Request(status: RequestStatus, updatedAt: int)

  /** The two schema versions the draft schema accepts; the second is the current one. */
  datatype Version = V1 | V2

  datatype Extraction = NoExtraction | FailedMarker | Drafted(version: Version) | Reviewed

  datatype Document = Document(
    request: Id,
    createdAt: int,
    deleted: bool,
    hasContent: bool,
    extraction: Extraction,
    drafts: seq<Version>)

  datatype Tables = Tables(requests: map<Id, Request>, documents: map<Id, Document>) {
    /** Foreign keys. */
    predicate Valid() {
      forall d :: d in documents ==> documents[d].request in requests
    }
  }

  // ---- claiming ----

  /** The document part of the claim's condition: nothing has settled it yet. */
  predicate Open(doc: Document) {
    !doc.deleted && doc.hasContent && doc.extraction != FailedMarker && V2 !in doc.drafts
  }

  predicate RequestFree(request: Request, now: int) {
    || request.status == Received
    || request.status == NeedsInput
    || (request.status == Processing && request.updatedAt < now - STALE_MS)
  }

  predicate Claimable(t: Tables, now: int, d: Id) {
    && d in t.documents
    && Open(t.documents[d])
    && t.documents[d].request in t.requests
    && RequestFree(t.requests[t.documents[d].request], now)
  }

  /** The document `findFirst` may return: claimable, and none claimable is older. */
  ghost predicate FirstClaimable(t: Tables, now: int, d: Id) {
    && Claimable(t, now, d)
    && forall other :: Claimable(t, now, other) ==> t.documents[d].createdAt <= t.documents[other].createdAt
  }

  function SetRequest(t: Tables, r: Id, status: RequestStatus, now: int): Tables {
    t.(requests := t.requests[r := Request(status, now)])
  }

  function Claim(t: Tables, now: int, d: Id): Tables
    requires d in t.documents
  {
    SetRequest(t, t.documents[d].request, Processing, now)
  }

  // ---- storing and failing ----

  /** `persistInvoiceAiDraft` throws when the document is gone; storing a version that is
      already there changes nothing. */
  function Persist(t: Tables, now: int, d: Id, version: Version): Option<Tables>
    requires d in t.documents
  {
    var doc := t.documents[d];
    if doc.deleted then None
    else if version in doc.drafts then Some(t)
    else
      var stored := t.(documents := t.documents[d := doc.(drafts := doc.drafts + [version],
                                                          extraction := Drafted(version))]);
      Some(SetRequest(stored, doc.request, NeedsInput, now))
  }

  function MarkFailed(t: Tables, now: int, d: Id): Tables
    requires d in t.documents
  {
    var doc := t.documents[d];
    var released := if doc.request in t.requests && t.requests[doc.request].status == Processing
                    then SetRequest(t, doc.request, NeedsInput, now) else t;
    released.(documents := t.documents[d := doc.(extraction := FailedMarker)])
  }

  /** What the parser and the database make of a claimed document. */
  datatype Outcome = Draft(version: Version) | ParseError | PersistError

  /** A `processOne` that claimed `d` and was not interrupted. */
  function ProcessClaimed(t: Tables, now: int, d: Id, outcome: Outcome): Tables
    requires d in t.documents
  {
    var claimed := Claim(t, now, d);
    match outcome
    case Draft(version) =>
      var persisted := Persist(claimed, now, d, version);
      if persisted.Some? then persisted.value else MarkFailed(claimed, now, d)
    case _ => MarkFailed(claimed, now, d)
  }

  lemma {:induction false} OldestExists(t: Tables, ids: set<Id>)
    requires ids != {} && ids <= t.documents.Keys
    ensures exists d ::
      d in ids && forall other :: other in ids ==> t.documents[d].createdAt <= t.documents[other].createdAt
    decreases |ids|
  {
    var some :| some in ids;
    var rest := ids - {some};
    if rest == {} {
      assert ids == {some};
    } else {
      OldestExists(t, rest);
      var first :| first in rest
        && forall other :: other in rest ==> t.documents[first].createdAt <= t.documents[other].createdAt;
      OldestOf(t, ids, some, first);
    }
  }

  lemma OldestOf(t: Tables, ids: set<Id>, some: Id, first: Id)
    requires ids <= t.documents.Keys && some in ids && first in ids
    requires forall other :: other in ids && other != some ==>
      t.documents[first].createdAt <= t.documents[other].createdAt
    ensures exists d ::
      d in ids && forall other :: other in ids ==> t.documents[d].createdAt <= t.documents[other].createdAt
  {
    var oldest := if t.documents[some].createdAt <= t.documents[first].createdAt then some else first;
    assert oldest in ids
      && forall other :: other in ids ==> t.documents[oldest].createdAt <= t.documents[other].createdAt;
  }

  class Agent {
    var tables: Tables

    constructor (tables: Tables)
      ensures this.tables == tables
    {
      this.tables := tables;
    }

    method ClaimNext(now: int) returns (claimed: Option<Id>)
      modifies this
      ensures claimed.None? ==> tables == old(tables) && forall d :: !Claimable(old(tables), now, d)
      ensures claimed.Some? ==>
        FirstClaimable(old(tables), now, claimed.value) && tables == Claim(old(tables), now, claimed.value)
    {
      var t := tables;
      var candidates := set d | d in t.documents && Claimable(t, now, d);
      if candidates == {} {
        assert forall d :: Claimable(t, now, d) ==> d in candidates;
        return None;
      }
      OldestExists(t, candidates);
      var d :| d in candidates
        && forall other :: other in candidates ==> t.documents[d].createdAt <= t.documents[other].createdAt;
      assert forall other :: Claimable(t, now, other) ==> other in candidates;
      tables := Claim(t, now, d);
      claimed := Some(d);
    }

    /** One turn of the polling loop. */
    method ProcessOne(now: int, outcome: Id -> Outcome) returns (processed: bool, ghost document: Option<Id>)
      modifies this
      ensures processed <==> document.Some?
      ensures !processed ==> tables == old(tables) && forall d :: !Claimable(old(tables), now, d)
      ensures processed ==>
        && FirstClaimable(old(tables), now, document.value)
        && tables == ProcessClaimed(old(tables), now, document.value, outcome(document.value))
    {
      var claimed := ClaimNext(now);
      document := claimed;
      if claimed.None? {
        return false, None;
      }
      var d := claimed.value;
      var answer := outcome(d);
      var persisted := if answer.Draft? then Persist(tables, now, d, answer.version) else None;
      if persisted.Some? {
        tables := persisted.value;
      } else {
        tables := MarkFailed(tables, now, d);
      }
      processed := true;
    }
  }

  // ---- progress ----

  function OpenDocuments(t: Tables): set<Id> {
    set d | d in t.documents && Open(t.documents[d])
  }

  /** PROGRESS. An uninterrupted turn settles exactly the document it claimed, unless the
      parser answered in the superseded schema version: then nothing is settled and the
      same document stays open. */
  lemma TurnSettlesOneExactly(t: Tables, now: int, d: Id, outcome: Outcome)
    requires Claimable(t, now, d)
    ensures var after := ProcessClaimed(t, now, d, outcome);
      && after.documents.Keys == t.documents.Keys
      && OpenDocuments(after) == (if outcome == Draft(V1) then OpenDocuments(t) else OpenDocuments(t) - {d})
      && (|OpenDocuments(after)| == |OpenDocuments(t)| - 1 <==> outcome != Draft(V1))
  {
    var after := ProcessClaimed(t, now, d, outcome);
    assert forall other :: other in t.documents && other != d ==> after.documents[other] == t.documents[other];
    assert d in OpenDocuments(t);
    if outcome == Draft(V1) {
      assert OpenDocuments(after) == OpenDocuments(t);
    } else {
      var drafts := t.documents[d].drafts;
      if outcome.Draft? {
        assert outcome.version == V2;
        assert after.documents[d].drafts == drafts + [V2];
        assert (drafts + [V2])[|drafts|] == V2;
        assert V2 in after.documents[d].drafts;
      } else {
        assert after.documents[d].extraction == FailedMarker;
      }
      assert OpenDocuments(after) == OpenDocuments(t) - {d};
    }
  }

  function ClaimableDocuments(t: Tables, now: int): set<Id> {
    set d | d in t.documents && Claimable(t, now, d)
  }

  /** The outcome that settles nothing: the first draft in the superseded version. */
  predicate Unsettling(t: Tables, d: Id, outcome: Outcome)
    requires d in t.documents
  {
    outcome == Draft(V1) && V1 !in t.documents[d].drafts
  }

  /** The documents that can be claimed at the moment of the turn: the turn takes its own
      away, no other one appears, and the others of the request stay unless the turn found
      its superseded draft already stored and left the request in processing. So their
      number falls exactly when the outcome is not a first superseded draft. */
  lemma TurnLowersClaimable(t: Tables, now: int, d: Id, outcome: Outcome)
    requires Claimable(t, now, d)
    ensures var after := ClaimableDocuments(ProcessClaimed(t, now, d, outcome), now);
      var before := ClaimableDocuments(t, now);
      && after <= before
      && (Unsettling(t, d, outcome) ==> after == before)
      && (outcome != Draft(V1) ==> after == before - {d})
      && (|after| < |before| <==> !Unsettling(t, d, outcome))
  {
    hide ProcessClaimed, Open, RequestFree;
    var after, before := ClaimableDocuments(ProcessClaimed(t, now, d, outcome), now), ClaimableDocuments(t, now);
    forall x | x in t.documents
      ensures x in after ==> x in before
      ensures Unsettling(t, d, outcome) ==> (x in after <==> x in before)
      ensures outcome != Draft(V1) ==> (x in after <==> x in before && x != d)
      ensures !Unsettling(t, d, outcome) ==> d !in after
    {
      TurnAndOneDocument(t, now, d, outcome, x);
      TurnAndOneDocument(t, now, d, outcome, d);
    }
    TurnTouchesOneRequest(t, now, d, outcome);
    if Unsettling(t, d, outcome) {
      assert after == before;
    } else {
      assert outcome != Draft(V1) ==> after == before - {d};
      ProperSubsetIsSmaller(after, before, d);
    }
  }

  lemma TurnAndOneDocument(t: Tables, now: int, d: Id, outcome: Outcome, x: Id)
    requires Claimable(t, now, d) && x in t.documents
    ensures var t' := ProcessClaimed(t, now, d, outcome);
      && (Claimable(t', now, x) ==> Claimable(t, now, x))
      && (Unsettling(t, d, outcome) ==> (Claimable(t', now, x) <==> Claimable(t, now, x)))
      && (outcome != Draft(V1) ==> (Claimable(t', now, x) <==> Claimable(t, now, x) && x != d))
      && (!Unsettling(t, d, outcome) ==> !Claimable(t', now, d))
  {
    var t' := ProcessClaimed(t, now, d, outcome);
    TurnSettlesOneExactly(t, now, d, outcome);
    TurnReleasesRequest(t, now, d, outcome);
    TurnTouchesOneRequest(t, now, d, outcome);
    assert x in OpenDocuments(t') <==> Open(t'.documents[x]);
    assert x in OpenDocuments(t) <==> Open(t.documents[x]);
    assert d in OpenDocuments(t') <==> Open(t'.documents[d]);
    hide ProcessClaimed, Open, RequestFree, OpenDocuments;
  }

  lemma ProperSubsetIsSmaller(a: set<Id>, b: set<Id>, x: Id)
    requires a <= b && x in b && x !in a
    ensures |a| < |b|
  {
    assert a <= b - {x};
    SubsetIsSmaller(a, b - {x});
  }

  lemma {:induction false} SubsetIsSmaller(a: set<Id>, b: set<Id>)
    requires a <= b
    ensures |a| <= |b|
  {
    if a != {} {
      var x :| x in a;
      SubsetIsSmaller(a - {x}, b - {x});
    }
  }

  lemma TurnTouchesOneRequest(t: Tables, now: int, d: Id, outcome: Outcome)
    requires Claimable(t, now, d)
    ensures var after := ProcessClaimed(t, now, d, outcome);
      && after.requests.Keys == t.requests.Keys && after.documents.Keys == t.documents.Keys
      && (forall r :: r in t.requests && r != t.documents[d].request ==> after.requests[r] == t.requests[r])
      && (forall x :: x in t.documents ==> after.documents[x].request == t.documents[x].request)
  {
  }

  datatype Turn = Turn(now: int, doc: Id, outcome: Outcome)

  /** Uninterrupted turns one after the other, each with a document it could claim. */
  ghost predicate GoodTurns(t: Tables, turns: seq<Turn>)
    decreases |turns|
  {
    turns != [] ==>
      && Claimable(t, turns[0].now, turns[0].doc)
      && GoodTurns(ProcessClaimed(t, turns[0].now, turns[0].doc, turns[0].outcome), turns[1..])
  }

  ghost function AfterTurns(t: Tables, turns: seq<Turn>): Tables
    requires GoodTurns(t, turns)
    decreases |turns|
  {
    if turns == [] then t
    else AfterTurns(ProcessClaimed(t, turns[0].now, turns[0].doc, turns[0].outcome), turns[1..])
  }

  /** THE BACKLOG SHRINKS. As long as the parser answers in the current version or not at
      all, every turn takes exactly one document off the backlog, so there can be no more
      turns than there were open documents. */
  lemma {:induction false} BacklogShrinks(t: Tables, turns: seq<Turn>)
    requires GoodTurns(t, turns) && forall i :: 0 <= i < |turns| ==> turns[i].outcome != Draft(V1)
    ensures |OpenDocuments(AfterTurns(t, turns))| + |turns| == |OpenDocuments(t)|
    decreases |turns|
  {
    hide ProcessClaimed, OpenDocuments, Open, RequestFree;
    if turns != [] {
      TurnSettlesOneExactly(t, turns[0].now, turns[0].doc, turns[0].outcome);
      BacklogShrinks(ProcessClaimed(t, turns[0].now, turns[0].doc, turns[0].outcome), turns[1..]);
    }
  }

  /** A claim closes the whole request for two hours, and only that request: no document of
      it can be claimed again before, the same document can be afterwards, and documents of
      other requests are claimable as before. */
  lemma ClaimClosesTheRequest(t: Tables, now: int, d: Id, later: int, other: Id)
    requires Claimable(t, now, d) && other in t.documents
    ensures var after := Claim(t, now, d);
      && (t.documents[other].request == t.documents[d].request ==>
            (Claimable(after, later, other) <==> Open(t.documents[other]) && later > now + STALE_MS))
      && (t.documents[other].request != t.documents[d].request ==>
            (Claimable(after, later, other) <==> Claimable(t, later, other)))
  {
    hide Open;
  }

  /** The turn leaves the request free for its remaining documents, except when it found
      its superseded draft already stored: then the request stays marked as processing. */
  lemma TurnReleasesRequest(t: Tables, now: int, d: Id, outcome: Outcome)
    requires Claimable(t, now, d)
    ensures var after := ProcessClaimed(t, now, d, outcome);
      && t.documents[d].request in after.requests
      && (RequestFree(after.requests[t.documents[d].request], now)
          <==> !(outcome == Draft(V1) && V1 in t.documents[d].drafts))
  {
    var claimed := Claim(t, now, d);
    assert claimed.requests[t.documents[d].request] == Request(Processing, now);
    assert claimed.documents == t.documents;
    if outcome.Draft? {
      assert outcome.version == V1 || outcome.version == V2;
    }
  }
}
