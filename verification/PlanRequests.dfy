/** Uploads, attachments and deletions under way at the same time. Each await is a
    point where other requests run, and what a request writes to the database shows
    only when it commits; blobs show at once. */
module PlanRequests {
  import opened Wrappers
  import opened PlanDocuments

  /** An upload asks for duplicates first. What the planning nodes attach does not,
      and commits its row before its link. */
  datatype AddPhase = Asking | Cleared | Stored | Entered

  /** Kept and Last: whether the listing showed another link. Dropped: the blob has
      been dealt with and the row is deleted in the transaction. */
  datatype DeletePhase = Checked | Unlinked | Kept | Last | Dropped

  datatype Request =
    | Adding(session: string, file: File, documentType: string, docId: string, key: Key, asks: bool, phase: AddPhase)
    | Deleting(session: string, docId: string, key: Key, stage: DeletePhase)

  /** `issued`: every generated document id with the key its blob is to have. */
  datatype World = World(s: Store, requests: map<nat, Request>, issued: map<string, Key>)

  const START := World(Store({}, map[], {}, map[]), map[], map[])

  datatype Step =
    | StartUpload(r: nat, session: string, file: File, documentType: string, docId: string, keyId: string)
    | StartAttach(r: nat, session: string, file: File, documentType: string, docId: string)
    | Query(r: nat)
    | StoreBlob(r: nat)
    | Commit(r: nat)
    | Fail(r: nat)
    | StartDelete(r: nat, session: string, docId: string)
    | Unlink(r: nat)
    | ListLinks(r: nat)
    | DeleteBlob(r: nat, succeeds: bool)
    | Associate(sourceType: string, sourceId: string, docId: string)
    | Sessions(ids: set<string>)

  /** Generated ids do not repeat. */
  predicate NewIds(w: World, docId: string, keyId: string) {
    docId !in w.issued && forall d :: d in w.issued ==> w.issued[d].id != keyId
  }

  function OwnLink(q: Request): Link {
    Link(PLAN, q.session, q.docId)
  }

  /** Another deletion holds the lock on the link's row. */
  predicate Locked(w: World, r: nat)
    requires r in w.requests
  {
    exists q :: q in w.requests && q != r && w.requests[q].Deleting? && !w.requests[q].stage.Checked?
                && OwnLink(w.requests[q]) == OwnLink(w.requests[r])
  }

  predicate Dropping(w: World, docId: string) {
    exists r :: r in w.requests && IsDropping(w.requests[r], docId)
  }

  predicate IsDropping(q: Request, docId: string) {
    q.Deleting? && q.stage.Dropped? && q.docId == docId
  }

  function Entry(q: Request): Document
    requires q.Adding?
  {
    NewDocument(q.file, q.key, q.documentType)
  }

  function Moved(w: World, r: nat, q: Request): World {
    w.(requests := w.requests[r := q])
  }

  function Ended(w: World, r: nat): World {
    w.(requests := w.requests - {r})
  }

  function AddCommitted(w: World, r: nat): World
    requires r in w.requests && w.requests[r].Adding?
  {
    var q := w.requests[r];
    match q.phase
    case Stored =>
      var docs := w.s.docs[q.docId := Entry(q)];
      if q.asks then Ended(w, r).(s := w.s.(docs := docs, links := w.s.links + {OwnLink(q)}))
      else Moved(w, r, q.(phase := Entered)).(s := w.s.(docs := docs))
    case Entered =>
      // The foreign key refuses the link of a document that is gone.
      if q.docId in w.s.docs then Ended(w, r).(s := w.s.(links := w.s.links + {OwnLink(q)})) else Ended(w, r)
    case _ => w
  }

  function DeleteCommitted(w: World, r: nat): World
    requires r in w.requests && w.requests[r].Deleting?
  {
    var q := w.requests[r];
    match q.stage
    case Kept => Ended(w, r).(s := w.s.(links := w.s.links - {OwnLink(q)}))
    case Dropped => Ended(w, r).(s := WithoutDocument(w.s, q.docId))
    case _ => w
  }

  function AddStep(w: World, step: Step): World
    requires (step.Query? || step.StoreBlob? || step.Commit?) && step.r in w.requests && w.requests[step.r].Adding?
  {
    var q := w.requests[step.r];
    match step
    case Query(r) =>
      if !q.phase.Asking? then w
      else if Duplicates(w.s, q.session, q.file.hash) == {} then Moved(w, r, q.(phase := Cleared))
      else Ended(w, r)
    case StoreBlob(r) =>
      if !q.phase.Cleared? then w
      else Moved(w, r, q.(phase := Stored)).(s := w.s.(blobs := w.s.blobs[q.key := StoredContents(q.file)]))
    case Commit(r) => AddCommitted(w, r)
  }

  function DeleteStep(w: World, step: Step): World
    requires step.Unlink? || step.ListLinks? || step.DeleteBlob? || step.Commit?
    requires step.r in w.requests && w.requests[step.r].Deleting?
  {
    var q := w.requests[step.r];
    match step
    case Unlink(r) => if q.stage.Checked? && !Locked(w, r) then Moved(w, r, q.(stage := Unlinked)) else w
    case ListLinks(r) =>
      if !q.stage.Unlinked? then w
      else Moved(w, r, q.(stage := if IsLinked(w.s.links - {OwnLink(q)}, q.docId) then Kept else Last))
    case DeleteBlob(r, succeeds) =>
      if !q.stage.Last? then w
      else
        var t := Moved(w, r, q.(stage := Dropped));
        if succeeds then t.(s := w.s.(blobs := w.s.blobs - {q.key})) else t
    case Commit(r) => DeleteCommitted(w, r)
  }

  function Begun(w: World, r: nat, q: Request): World
    requires q.Adding?
  {
    Moved(w, r, q).(issued := w.issued[q.docId := q.key])
  }

  function UploadRequest(step: Step): Request
    requires step.StartUpload?
  {
    Adding(step.session, step.file, step.documentType, step.docId,
           Key(step.session, step.keyId, Extension(step.file.name)), true, Asking)
  }

  function AttachRequest(step: Step): Request
    requires step.StartAttach?
  {
    Adding(step.session, step.file, step.documentType, step.docId, Key(step.session, step.docId, "md"), false, Cleared)
  }

  /** The step starts a request. */
  predicate Starts(w: World, step: Step) {
    match step
    case StartUpload(r, session, f, _, docId, keyId) =>
      r !in w.requests && NewIds(w, docId, keyId) && session in w.s.sessions && |f.contents| <= MAX_PLAN_FILE_SIZE
    case StartAttach(r, _, _, _, docId) => r !in w.requests && NewIds(w, docId, docId)
    case StartDelete(r, session, docId) => r !in w.requests && DeleteCheck(w.s, session, docId).Removed?
    case _ => false
  }

  function Next(w: World, step: Step): World {
    match step
    case StartUpload(r, _, _, _, _, _) => if Starts(w, step) then Begun(w, r, UploadRequest(step)) else w
    case StartAttach(r, _, _, _, _) => if Starts(w, step) then Begun(w, r, AttachRequest(step)) else w
    case StartDelete(r, session, docId) =>
      if Starts(w, step) then Moved(w, r, Deleting(session, docId, w.s.docs[docId].key, Checked)) else w
    case Associate(sourceType, sourceId, docId) =>
      // The foreign key refuses links to no document, and waits for a deletion under way.
      if docId in w.s.docs && !Dropping(w, docId)
      then w.(s := w.s.(links := w.s.links + {Link(sourceType, sourceId, docId)})) else w
    case Sessions(ids) => w.(s := w.s.(sessions := ids))
    case Fail(r) => Ended(w, r)
    case _ =>
      if step.r !in w.requests then w
      else if w.requests[step.r].Adding?
      then if step.Query? || step.StoreBlob? || step.Commit? then AddStep(w, step) else w
      else if step.Unlink? || step.ListLinks? || step.DeleteBlob? || step.Commit? then DeleteStep(w, step) else w
  }

  function Run(w: World, steps: seq<Step>): World
    decreases |steps|
  {
    if |steps| == 0 then w else Run(Next(w, steps[0]), steps[1..])
  }

  // ---------------------------------------------------- what every run keeps

  ghost predicate LinksLive(s: Store) {
    forall l :: l in s.links ==> l.docId in s.docs
  }

  /** Rows and blobs have generated ids, and no two ids share a key. */
  ghost predicate IdsKnown(w: World) {
    && (forall d :: d in w.s.docs ==> d in w.issued && w.s.docs[d].key == w.issued[d])
    && (forall k :: k in w.s.blobs ==> exists d :: d in w.issued && w.issued[d] == k)
    && (forall d, e :: d in w.issued && e in w.issued && d != e ==> w.issued[d] != w.issued[e])
  }

  predicate RequestOk(w: World, q: Request) {
    && q.docId in w.issued && w.issued[q.docId] == q.key
    && (q.Adding? ==>
          match q.phase
          case Asking => q.docId !in w.s.docs && q.key !in w.s.blobs
          case Cleared => q.docId !in w.s.docs && q.key !in w.s.blobs
          case Stored => q.docId !in w.s.docs && q.key in w.s.blobs && w.s.blobs[q.key] == StoredContents(q.file)
          case Entered => !q.asks && (q.docId in w.s.docs ==> w.s.docs[q.docId] == Entry(q)))
  }

  ghost predicate RequestsOk(w: World) {
    forall r :: r in w.requests ==> RequestOk(w, w.requests[r])
  }

  /** Only a deletion of an entered row shares its document with an addition. */
  ghost predicate RequestsApart(w: World) {
    forall r, q :: r in w.requests && q in w.requests && r != q && w.requests[r].Adding?
                   && w.requests[r].docId == w.requests[q].docId ==>
      w.requests[q].Deleting? && w.requests[r].phase.Entered?
  }

  ghost predicate Base(w: World) {
    LinksLive(w.s) && IdsKnown(w) && RequestsOk(w) && RequestsApart(w)
  }

  /** What a request's own condition is about has not changed. */
  predicate SameFor(w: World, t: World, q: Request) {
    && (q.docId in w.issued ==> q.docId in t.issued && t.issued[q.docId] == w.issued[q.docId])
    && (q.docId in t.s.docs <==> q.docId in w.s.docs)
    && (q.docId in w.s.docs ==> t.s.docs[q.docId] == w.s.docs[q.docId])
    && (q.key in t.s.blobs <==> q.key in w.s.blobs)
    && (q.key in w.s.blobs ==> t.s.blobs[q.key] == w.s.blobs[q.key])
  }

  lemma RequestStays(w: World, t: World, q: Request)
    requires RequestOk(w, q) && SameFor(w, t, q)
    ensures RequestOk(t, q)
  {
    hide StoredContents, Entry;
  }

  /** Requests end or move on, and none is new. */
  predicate OnlyMoves(w: World, t: World) {
    forall p :: p in t.requests ==>
      && p in w.requests && t.requests[p].docId == w.requests[p].docId
      && (t.requests[p].Adding? <==> w.requests[p].Adding?)
      && (w.requests[p].Adding? && w.requests[p].phase.Entered? ==> t.requests[p].phase.Entered?)
  }

  lemma MovesKeepApart(w: World, t: World)
    requires RequestsApart(w) && OnlyMoves(w, t)
    ensures RequestsApart(t)
  {
  }

  /** No new ids, rows or blobs beyond those of `docId`. */
  ghost predicate Within(w: World, t: World, docId: string) {
    && t.issued == w.issued && docId in w.issued
    && (forall d :: d in t.s.docs ==> d == docId || (d in w.s.docs && t.s.docs[d] == w.s.docs[d]))
    && (docId in t.s.docs ==> t.s.docs[docId].key == w.issued[docId])
    && (forall k :: k in t.s.blobs ==> k in w.s.blobs || k == w.issued[docId])
  }

  lemma WithinKeepsIds(w: World, t: World, docId: string)
    requires IdsKnown(w) && Within(w, t, docId)
    ensures IdsKnown(t)
  {
  }

  /** Two requests on different documents have different keys. */
  lemma KeysDiffer(w: World, r: nat, p: nat)
    requires Base(w) && r in w.requests && p in w.requests && w.requests[r].docId != w.requests[p].docId
    ensures w.requests[r].key != w.requests[p].key
  {
    hide LinksLive, RequestsApart, StoredContents, Entry;
    assert RequestOk(w, w.requests[r]) && RequestOk(w, w.requests[p]);
  }

  lemma BeginKeepsIds(w: World, r: nat, q: Request)
    requires IdsKnown(w) && NewIds(w, q.docId, q.key.id) && q.Adding?
    ensures IdsKnown(Begun(w, r, q)) && q.docId !in w.s.docs && q.key !in w.s.blobs
  {
    var t := Begun(w, r, q);
    forall k | k in t.s.blobs ensures exists d :: d in t.issued && t.issued[d] == k {
      var d :| d in w.issued && w.issued[d] == k;
      assert t.issued[d] == k;
    }
  }

  lemma BeginKeepsApart(w: World, r: nat, q: Request)
    requires RequestsOk(w) && RequestsApart(w) && r !in w.requests && NewIds(w, q.docId, q.key.id) && q.Adding?
    ensures RequestsApart(Begun(w, r, q))
  {
    hide StoredContents, Entry;
    forall p | p in w.requests ensures w.requests[p].docId != q.docId {
      KnownRequest(w, w.requests[p]);
    }
  }

  lemma BeginAddKeepsBase(w: World, r: nat, q: Request)
    requires Base(w) && r !in w.requests && NewIds(w, q.docId, q.key.id)
    requires q.Adding? && (q.phase.Asking? || q.phase.Cleared?)
    ensures Base(Begun(w, r, q))
  {
    var t := Begun(w, r, q);
    BeginKeepsIds(w, r, q);
    BeginKeepsApart(w, r, q);
    hide IdsKnown, RequestOk, RequestsApart;
    forall p | p in t.requests ensures RequestOk(t, t.requests[p]) {
      if p != r {
        KnownRequest(w, w.requests[p]);
        RequestStays(w, t, w.requests[p]);
      } else {
        NewRequestOk(t, q);
      }
    }
  }

  lemma KnownRequest(w: World, q: Request)
    requires RequestOk(w, q)
    ensures q.docId in w.issued && w.issued[q.docId] == q.key
  {
  }

  lemma NewRequestOk(t: World, q: Request)
    requires q.docId in t.issued && t.issued[q.docId] == q.key && q.docId !in t.s.docs && q.key !in t.s.blobs
    requires q.Adding? && (q.phase.Asking? || q.phase.Cleared?)
    ensures RequestOk(t, q)
  {
  }

  lemma BeginDeleteKeepsBase(w: World, step: Step)
    requires Base(w) && step.StartDelete? && Starts(w, step)
    ensures Base(Next(w, step))
  {
    hide StoredContents, Entry;
    var t := Next(w, step);
    forall p | p in t.requests ensures RequestOk(t, t.requests[p]) {
      assert p != step.r ==> RequestOk(w, w.requests[p]);
    }
    assert RequestsApart(t) by {
      forall p | p in w.requests && w.requests[p].Adding? && w.requests[p].docId == step.docId
        ensures w.requests[p].phase.Entered?
      {
        assert RequestOk(w, w.requests[p]);
      }
    }
  }

  lemma BeginKeepsBase(w: World, step: Step)
    requires Base(w) && Starts(w, step)
    ensures Base(Next(w, step))
  {
    hide Base;
    match step
    case StartUpload(r, _, _, _, _, _) => BeginAddKeepsBase(w, r, UploadRequest(step));
    case StartAttach(r, _, _, _, _) => BeginAddKeepsBase(w, r, AttachRequest(step));
    case StartDelete(_, _, _) => BeginDeleteKeepsBase(w, step);
  }

  lemma StoreKeepsRequests(w: World, r: nat)
    requires Base(w) && r in w.requests && w.requests[r].Adding? && w.requests[r].phase.Cleared?
    ensures RequestsOk(Next(w, StoreBlob(r)))
  {
    var t, q := Next(w, StoreBlob(r)), w.requests[r];
    assert RequestOk(w, q);
    hide StoredContents, Entry, IdsKnown, LinksLive, RequestOk;
    forall p | p in t.requests ensures RequestOk(t, t.requests[p]) {
      if p == r {
        StoredOk(w, t, q);
      } else {
        assert w.requests[p].docId != q.docId;
        KeysDiffer(w, r, p);
        RequestStays(w, t, w.requests[p]);
      }
    }
  }

  lemma StoreMoves(w: World, r: nat)
    requires r in w.requests && w.requests[r].Adding? && w.requests[r].phase.Cleared?
    ensures OnlyMoves(w, Next(w, StoreBlob(r)))
    ensures w.requests[r].docId in w.issued && w.issued[w.requests[r].docId] == w.requests[r].key && IdsKnown(w) ==>
              Within(w, Next(w, StoreBlob(r)), w.requests[r].docId)
  {
  }

  lemma StoreKeepsBase(w: World, r: nat)
    requires Base(w) && r in w.requests && w.requests[r].Adding? && w.requests[r].phase.Cleared?
    ensures Base(Next(w, StoreBlob(r)))
  {
    var t, q := Next(w, StoreBlob(r)), w.requests[r];
    StoreKeepsRequests(w, r);
    KnownRequest(w, q);
    StoreMoves(w, r);
    hide OnlyMoves, RequestOk, RequestsOk, IdsKnown, RequestsApart, Within;
    WithinKeepsIds(w, t, q.docId);
    MovesKeepApart(w, t);
  }

  lemma StoredOk(w: World, t: World, q: Request)
    requires q.Adding? && RequestOk(w, q) && q.phase.Cleared? && t.issued == w.issued && t.s.docs == w.s.docs
    requires q.key in t.s.blobs && t.s.blobs[q.key] == StoredContents(q.file)
    ensures RequestOk(t, q.(phase := Stored))
  {
  }

  lemma ClearKeepsBase(w: World, r: nat)
    requires Base(w) && r in w.requests && w.requests[r].Adding? && w.requests[r].phase.Asking?
    ensures Base(Moved(w, r, w.requests[r].(phase := Cleared)))
  {
    var t := Moved(w, r, w.requests[r].(phase := Cleared));
    hide StoredContents, Entry, LinksLive;
    MovesKeepApart(w, t);
    assert RequestOk(w, w.requests[r]);
    hide IdsKnown, RequestsApart;
  }

  lemma QueryKeepsBase(w: World, r: nat)
    requires Base(w) && r in w.requests && w.requests[r].Adding?
    ensures Base(Next(w, Query(r)))
  {
    hide Base, Duplicates;
    EndKeepsBase(w, r);
    if w.requests[r].phase.Asking? {
      ClearKeepsBase(w, r);
    }
  }

  lemma AddCommitKeepsRequests(w: World, r: nat)
    requires RequestsOk(w) && RequestsApart(w) && r in w.requests && w.requests[r].Adding?
    ensures RequestsOk(AddCommitted(w, r))
  {
    var t, q := AddCommitted(w, r), w.requests[r];
    hide StoredContents;
    forall p | p in t.requests ensures RequestOk(t, t.requests[p]) {
      assert RequestOk(w, w.requests[p]);
      if p != r {
        assert q.phase.Stored? ==> w.requests[p].docId != q.docId;
        hide RequestOk, Entry;
        RequestStays(w, t, w.requests[p]);
      }
    }
  }

  lemma AddCommitKeepsTables(w: World, r: nat)
    requires Base(w) && r in w.requests && w.requests[r].Adding?
    ensures LinksLive(AddCommitted(w, r).s) && IdsKnown(AddCommitted(w, r))
  {
    var t, q := AddCommitted(w, r), w.requests[r];
    hide StoredContents, RequestsApart;
    KnownRequest(w, q);
    hide RequestOk;
    assert LinksLive(t.s);
    hide LinksLive, IdsKnown;
    WithinKeepsIds(w, t, q.docId);
  }

  lemma AddCommitMoves(w: World, r: nat)
    requires r in w.requests && w.requests[r].Adding?
    ensures OnlyMoves(w, AddCommitted(w, r))
  {
    hide Entry;
  }

  lemma AddCommitKeepsBase(w: World, r: nat)
    requires Base(w) && r in w.requests && w.requests[r].Adding?
    ensures Base(AddCommitted(w, r))
  {
    AddCommitKeepsRequests(w, r);
    AddCommitKeepsTables(w, r);
    AddCommitMoves(w, r);
    hide RequestsOk, LinksLive, IdsKnown, RequestsApart, OnlyMoves;
    MovesKeepApart(w, AddCommitted(w, r));
  }

  lemma MoveKeepsBase(w: World, r: nat, stage: DeletePhase)
    requires Base(w) && r in w.requests && w.requests[r].Deleting?
    ensures Base(Moved(w, r, w.requests[r].(stage := stage)))
  {
    hide StoredContents, Entry;
    MovesKeepApart(w, Moved(w, r, w.requests[r].(stage := stage)));
  }

  lemma DropKeepsBase(w: World, r: nat)
    requires Base(w) && r in w.requests && w.requests[r].Deleting?
    ensures Base(w.(s := w.s.(blobs := w.s.blobs - {w.requests[r].key})))
  {
    hide StoredContents, Entry;
    var q := w.requests[r];
    var t := w.(s := w.s.(blobs := w.s.blobs - {q.key}));
    assert RequestOk(w, q);
    assert RequestsApart(t);
    hide IdsKnown, RequestOk;
    forall p | p in t.requests ensures RequestOk(t, t.requests[p]) {
      if w.requests[p].docId != q.docId {
        KeysDiffer(w, r, p);
        RequestStays(w, t, w.requests[p]);
      } else {
        assert w.requests[p].Adding? ==> w.requests[p].phase.Entered?;
        BloblessOk(w, t, w.requests[p]);
      }
    }
    assert IdsKnown(t) by {
      KnownIds(w, t);
    }
  }

  lemma KnownIds(w: World, t: World)
    requires IdsKnown(w) && t.issued == w.issued && t.s.docs == w.s.docs && t.s.blobs.Keys <= w.s.blobs.Keys
    ensures IdsKnown(t)
  {
    assert forall k :: k in t.s.blobs ==> k in w.s.blobs;
  }

  /** Deletions and entered additions do not speak of blobs. */
  lemma BloblessOk(w: World, t: World, q: Request)
    requires RequestOk(w, q) && (q.Adding? ==> q.phase.Entered?) && t.issued == w.issued && t.s.docs == w.s.docs
    ensures RequestOk(t, q)
  {
  }

  lemma DeleteKeepsBase(w: World, step: Step)
    requires Base(w) && (step.Unlink? || step.ListLinks? || step.DeleteBlob?)
    requires step.r in w.requests && w.requests[step.r].Deleting?
    ensures Base(Next(w, step))
  {
    hide Base, IsLinked, Locked;
    var q := w.requests[step.r];
    match step
    case Unlink(r) => MoveKeepsBase(w, r, Unlinked);
    case ListLinks(r) =>
      MoveKeepsBase(w, r, Kept);
      MoveKeepsBase(w, r, Last);
    case DeleteBlob(r, succeeds) =>
      MoveKeepsBase(w, r, Dropped);
      DropKeepsBase(Moved(w, r, q.(stage := Dropped)), r);
  }

  lemma DeleteCommitKeepsRequests(w: World, r: nat)
    requires RequestsOk(w) && r in w.requests && w.requests[r].Deleting?
    ensures RequestsOk(DeleteCommitted(w, r))
  {
    var t := DeleteCommitted(w, r);
    hide StoredContents, Entry;
    forall p | p in t.requests ensures RequestOk(t, t.requests[p]) {
      assert RequestOk(w, w.requests[p]);
    }
  }

  lemma DeleteCommitKeepsTables(w: World, r: nat)
    requires LinksLive(w.s) && IdsKnown(w) && r in w.requests && w.requests[r].Deleting?
    ensures LinksLive(DeleteCommitted(w, r).s) && IdsKnown(DeleteCommitted(w, r))
  {
  }

  lemma DeleteCommitKeepsBase(w: World, r: nat)
    requires Base(w) && r in w.requests && w.requests[r].Deleting?
    ensures Base(DeleteCommitted(w, r))
  {
    DeleteCommitKeepsRequests(w, r);
    DeleteCommitKeepsTables(w, r);
    hide RequestsOk, LinksLive, IdsKnown, RequestsApart;
    MovesKeepApart(w, DeleteCommitted(w, r));
  }

  lemma EndKeepsBase(w: World, r: nat)
    requires Base(w)
    ensures Base(Ended(w, r))
  {
    hide StoredContents, Entry;
    MovesKeepApart(w, Ended(w, r));
  }

  lemma TableKeepsBase(w: World, step: Step)
    requires Base(w) && (step.Associate? || step.Sessions?)
    ensures Base(Next(w, step))
  {
    hide StoredContents, Entry, Dropping;
    var t := Next(w, step);
    assert LinksLive(t.s) && IdsKnown(t) && RequestsApart(t);
    hide LinksLive, IdsKnown, RequestsApart;
    forall p | p in t.requests ensures RequestOk(t, t.requests[p]) {
      assert RequestOk(w, w.requests[p]);
    }
  }

  lemma NextKeepsBase(w: World, step: Step)
    requires Base(w)
    ensures Base(Next(w, step))
  {
    hide Base, AddCommitted, DeleteCommitted, Ended, Duplicates;
    if step.StartUpload? || step.StartAttach? || step.StartDelete? {
      if Starts(w, step) {
        BeginKeepsBase(w, step);
      }
    } else if step.Associate? || step.Sessions? {
      TableKeepsBase(w, step);
    } else if step.Fail? {
      EndKeepsBase(w, step.r);
    } else if step.r in w.requests {
      if w.requests[step.r].Adding? {
        match step
        case Query(r) => QueryKeepsBase(w, r);
        case StoreBlob(r) =>
          if w.requests[r].phase.Cleared? {
            StoreKeepsBase(w, r);
          }
        case Commit(r) => AddCommitKeepsBase(w, r);
        case _ =>
      } else if step.Commit? {
        DeleteCommitKeepsBase(w, step.r);
      } else if step.Unlink? || step.ListLinks? || step.DeleteBlob? {
        DeleteKeepsBase(w, step);
      }
    }
  }

  lemma {:induction false} RunKeepsBase(w: World, steps: seq<Step>)
    requires Base(w)
    ensures Base(Run(w, steps))
    decreases |steps|
  {
    hide Base, Next;
    if |steps| > 0 {
      NextKeepsBase(w, steps[0]);
      RunKeepsBase(Next(w, steps[0]), steps[1..]);
    }
  }

  /** In every run, overlapping and failing requests included, every link points to a
      live document, and no two documents share a blob. */
  lemma RunConsistent(steps: seq<Step>)
    ensures var s := Run(START, steps).s;
            && (forall l :: l in s.links ==> l.docId in s.docs)
            && (forall d, e :: d in s.docs && e in s.docs && d != e ==> s.docs[d].key != s.docs[e].key)
  {
    RunKeepsBase(START, steps);
  }
}
