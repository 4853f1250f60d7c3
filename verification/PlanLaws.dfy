/** Four laws of the document store, each with exactly the steps that break it. */
module PlanLaws {
  import opened PlanDocuments
  import opened PlanRequests

  // ------------------------------------------------------------ equal documents

  /** The addition will link its document without asking any more. */
  predicate Pending(w: World, q: Request) {
    q.Adding? && !q.phase.Asking? && (q.phase.Entered? ==> q.docId in w.s.docs)
  }

  predicate PendingFor(w: World, q: Request, session: string, hash: string) {
    Pending(w, q) && q.session == session && q.file.hash == hash
  }

  /** Another request is about to link the same content to the session. */
  predicate HasTwin(w: World, r: nat, session: string, hash: string) {
    exists p :: p in w.requests && p != r && PendingFor(w, w.requests[p], session, hash)
  }

  /** No session links two documents with one hash, now or when what is pending is done. */
  ghost predicate HashesClear(w: World) {
    && HashesDistinct(w.s)
    && (forall r :: r in w.requests && Pending(w, w.requests[r]) ==>
          Duplicates(w.s, w.requests[r].session, w.requests[r].file.hash) <= {w.requests[r].docId})
    && (forall r :: r in w.requests && Pending(w, w.requests[r]) ==>
          !HasTwin(w, r, w.requests[r].session, w.requests[r].file.hash))
  }

  predicate MakesDuplicate(w: World, step: Step) {
    match step
    case Query(r) =>
      && r in w.requests && w.requests[r].Adding? && w.requests[r].phase.Asking?
      && Duplicates(w.s, w.requests[r].session, w.requests[r].file.hash) == {}
      && HasTwin(w, r, w.requests[r].session, w.requests[r].file.hash)
    case StartAttach(r, session, f, _, _) =>
      Starts(w, step) && (Duplicates(w.s, session, f.hash) != {} || HasTwin(w, r, session, f.hash))
    case Associate(sourceType, sourceId, d) =>
      && sourceType == PLAN && d in w.s.docs && !Dropping(w, d)
      && (!(Duplicates(w.s, sourceId, w.s.docs[d].hash) <= {d})
          || OtherPending(w, d, sourceId, w.s.docs[d].hash))
    case _ => false
  }

  /** Tables in which every session holds no more than before. */
  ghost predicate HoldsLess(w: World, t: World) {
    forall session, d :: Holds(t.s, session, d) ==> Holds(w.s, session, d) && t.s.docs[d].hash == w.s.docs[d].hash
  }

  /** Requests that are pending were pending. */
  ghost predicate PendsLess(w: World, t: World) {
    forall p :: p in t.requests && Pending(t, t.requests[p]) ==>
      && p in w.requests && Pending(w, w.requests[p])
      && t.requests[p].session == w.requests[p].session && t.requests[p].file == w.requests[p].file
      && t.requests[p].docId == w.requests[p].docId
  }

  lemma TwinWas(w: World, t: World, r: nat, session: string, hash: string)
    requires PendsLess(w, t)
    ensures HasTwin(t, r, session, hash) ==> HasTwin(w, r, session, hash)
  {
    if HasTwin(t, r, session, hash) {
      var p :| p in t.requests && p != r && PendingFor(t, t.requests[p], session, hash);
      assert PendingFor(w, w.requests[p], session, hash);
    }
  }

  lemma LessStaysClear(w: World, t: World)
    requires HashesClear(w) && HoldsLess(w, t) && PendsLess(w, t)
    ensures HashesClear(t)
  {
    forall r | r in t.requests && Pending(t, t.requests[r])
      ensures Duplicates(t.s, t.requests[r].session, t.requests[r].file.hash) <= {t.requests[r].docId}
      ensures !HasTwin(t, r, t.requests[r].session, t.requests[r].file.hash)
    {
      forall d | d in Duplicates(t.s, t.requests[r].session, t.requests[r].file.hash) ensures d == t.requests[r].docId {
        assert Holds(t.s, t.requests[r].session, d);
        assert d in Duplicates(w.s, w.requests[r].session, w.requests[r].file.hash);
      }
      TwinWas(w, t, r, t.requests[r].session, t.requests[r].file.hash);
    }
  }

  /** Beginning to pend keeps the law exactly if there is neither a document nor a
      pending request with the same content. */
  lemma PendClearExactlyWhen(w: World, t: World, r: nat)
    requires HashesClear(w) && t.s == w.s && r in t.requests && Pending(t, t.requests[r])
    requires forall p :: p != r ==>
               (p in t.requests <==> p in w.requests) && (p in w.requests ==> t.requests[p] == w.requests[p])
    requires r in w.requests ==> !Pending(w, w.requests[r])
    ensures var q := t.requests[r];
            HashesClear(t) <==>
              Duplicates(w.s, q.session, q.file.hash) <= {q.docId} && !HasTwin(w, r, q.session, q.file.hash)
  {
    var q := t.requests[r];
    assert HasTwin(t, r, q.session, q.file.hash) <==> HasTwin(w, r, q.session, q.file.hash);
    forall p | p in t.requests && p != r && Pending(t, t.requests[p])
      ensures HasTwin(t, p, t.requests[p].session, t.requests[p].file.hash) ==>
                PendingFor(w, w.requests[p], q.session, q.file.hash)
    {
      var z := w.requests[p];
      if HasTwin(t, p, z.session, z.file.hash) {
        var o :| o in t.requests && o != p && PendingFor(t, t.requests[o], z.session, z.file.hash);
        if o != r {
          assert PendingFor(w, w.requests[o], z.session, z.file.hash);
        }
      }
    }
  }

  /** The session holds one more document, or the same. */
  ghost predicate HoldsAlso(w: World, t: World, session: string, d: string) {
    && (forall other, e :: Holds(t.s, other, e) <==> Holds(w.s, other, e) || (other == session && e == d))
    && (forall other, e :: Holds(w.s, other, e) ==> e in t.s.docs && t.s.docs[e].hash == w.s.docs[e].hash)
  }

  /** Some other document's addition is pending with this content. */
  predicate OtherPending(w: World, d: string, session: string, hash: string) {
    exists p :: p in w.requests && w.requests[p].docId != d && PendingFor(w, w.requests[p], session, hash)
  }

  /** Linking a document keeps the law exactly if nothing else has its content. */
  lemma LinkClearExactlyWhen(w: World, t: World, session: string, d: string)
    requires HashesClear(w) && PendsLess(w, t) && PendsLess(t, w) && d in t.s.docs
    requires HoldsAlso(w, t, session, d)
    ensures HashesClear(t) <==>
              && Duplicates(w.s, session, t.s.docs[d].hash) <= {d}
              && !OtherPending(w, d, session, t.s.docs[d].hash)
  {
    var hash := t.s.docs[d].hash;
    assert Holds(t.s, session, d);
    if HashesClear(t) {
      forall e | e in Duplicates(w.s, session, hash) ensures e == d {
        assert Holds(w.s, session, e) && Holds(t.s, session, e);
      }
      assert d in Duplicates(t.s, session, hash);
      forall p | p in w.requests && PendingFor(w, w.requests[p], session, hash) ensures w.requests[p].docId == d {
        assert p in t.requests && Pending(t, t.requests[p]);
      }
    }
    if Duplicates(w.s, session, hash) <= {d} && !OtherPending(w, d, session, hash) {
      LinkStaysClear(w, t, session, d);
    }
  }

  lemma LinkStaysClear(w: World, t: World, session: string, d: string)
    requires HashesClear(w) && PendsLess(w, t) && d in t.s.docs
    requires HoldsAlso(w, t, session, d)
    requires Duplicates(w.s, session, t.s.docs[d].hash) <= {d}
    requires !OtherPending(w, d, session, t.s.docs[d].hash)
    ensures HashesClear(t)
  {
    var hash := t.s.docs[d].hash;
    forall other, a, b | Holds(t.s, other, a) && Holds(t.s, other, b) && a != b
      ensures t.s.docs[a].hash != t.s.docs[b].hash
    {
      assert Holds(w.s, other, a) ==>
               (t.s.docs[a].hash == hash && other == session ==> a in Duplicates(w.s, session, hash));
      assert Holds(w.s, other, b) ==>
               (t.s.docs[b].hash == hash && other == session ==> b in Duplicates(w.s, session, hash));
    }
    forall r | r in t.requests && Pending(t, t.requests[r])
      ensures Duplicates(t.s, t.requests[r].session, t.requests[r].file.hash) <= {t.requests[r].docId}
      ensures !HasTwin(t, r, t.requests[r].session, t.requests[r].file.hash)
    {
      var q := t.requests[r];
      forall e | e in Duplicates(t.s, q.session, q.file.hash) ensures e == q.docId {
        assert Holds(t.s, q.session, e);
        if Holds(w.s, q.session, e) {
          assert e in Duplicates(w.s, w.requests[r].session, w.requests[r].file.hash);
        } else {
          assert PendingFor(w, w.requests[r], session, hash);
        }
      }
      TwinWas(w, t, r, q.session, q.file.hash);
    }
  }

  lemma CommitAddPends(w: World, r: nat)
    requires RequestsOk(w) && RequestsApart(w) && r in w.requests && w.requests[r].Adding?
    ensures PendsLess(w, AddCommitted(w, r))
  {
    hide StoredContents;
    assert RequestOk(w, w.requests[r]);
  }

  lemma CommitAddStaysClear(w: World, r: nat)
    requires Base(w) && HashesClear(w) && r in w.requests && w.requests[r].Adding?
    ensures HashesClear(AddCommitted(w, r))
  {
    var q, t := w.requests[r], AddCommitted(w, r);
    assert RequestOk(w, q);
    CommitAddPends(w, r);
    hide StoredContents, IdsKnown, RequestsOk, RequestsApart, PendsLess;
    if q.phase.Stored? && !q.asks {
      assert HoldsLess(w, t);
      LessStaysClear(w, t);
    } else if q.phase.Stored? || (q.phase.Entered? && q.docId in w.s.docs) {
      assert HoldsAlso(w, t, q.session, q.docId) by {
        hide HashesClear;
      }
      assert Pending(w, q) && t.s.docs[q.docId].hash == q.file.hash;
      NoTwinNoOther(w, r);
      hide HoldsAlso, PendsLess, AddCommitted;
      LinkStaysClear(w, t, q.session, q.docId);
    } else {
      assert HoldsLess(w, t);
      LessStaysClear(w, t);
    }
  }

  lemma NoTwinNoOther(w: World, r: nat)
    requires HashesClear(w) && r in w.requests && Pending(w, w.requests[r])
    ensures var q := w.requests[r]; !OtherPending(w, q.docId, q.session, q.file.hash)
  {
    var q := w.requests[r];
    assert !HasTwin(w, r, q.session, q.file.hash);
  }

  lemma DeleteStaysClear(w: World, r: nat)
    requires HashesClear(w) && r in w.requests && w.requests[r].Deleting?
    ensures HashesClear(DeleteCommitted(w, r))
  {
    var t := DeleteCommitted(w, r);
    assert HoldsLess(w, t) && PendsLess(w, t) by {
      hide HashesClear;
    }
    hide HoldsLess, PendsLess, DeleteCommitted;
    LessStaysClear(w, t);
  }

  /** Steps that touch neither rows nor links and let nothing new pend. */
  lemma QuietStaysClear(w: World, step: Step)
    requires HashesClear(w) && !step.Commit? && !step.Associate? && !step.StartAttach? && !step.Query?
    ensures HashesClear(Next(w, step))
  {
    var t := Next(w, step);
    assert HoldsLess(w, t) && PendsLess(w, t) by {
      hide HashesClear, Locked, IsLinked, StoredContents, Extension, NewIds;
    }
    hide HoldsLess, PendsLess, Next;
    LessStaysClear(w, t);
  }

  lemma QueryClearExactlyWhen(w: World, r: nat)
    requires HashesClear(w)
    ensures HashesClear(Next(w, Query(r))) <==> !MakesDuplicate(w, Query(r))
  {
    var t := Next(w, Query(r));
    if t == w {
    } else if r in t.requests {
      assert t.requests[r].phase.Cleared?;
      hide HashesClear, Duplicates, HasTwin;
      PendClearExactlyWhen(w, t, r);
    } else {
      assert HoldsLess(w, t) && PendsLess(w, t) by {
        hide HashesClear;
      }
      LessStaysClear(w, t);
    }
  }

  lemma AttachClearExactlyWhen(w: World, step: Step)
    requires Base(w) && HashesClear(w) && step.StartAttach?
    ensures HashesClear(Next(w, step)) <==> !MakesDuplicate(w, step)
  {
    var t := Next(w, step);
    if Starts(w, step) {
      assert step.docId !in w.s.docs;
      assert step.docId !in Duplicates(w.s, step.session, step.file.hash);
      hide HashesClear, HasTwin, Base;
      var q := t.requests[step.r];
      PendClearExactlyWhen(w, t, step.r);
      assert Duplicates(w.s, q.session, q.file.hash) <= {q.docId} <==> Duplicates(w.s, q.session, q.file.hash) == {};
    }
  }

  lemma AssociateClearExactlyWhen(w: World, step: Step)
    requires HashesClear(w) && step.Associate?
    ensures HashesClear(Next(w, step)) <==> !MakesDuplicate(w, step)
  {
    var t := Next(w, step);
    hide Dropping;
    if step.docId in w.s.docs && !Dropping(w, step.docId) {
      assert PendsLess(w, t) && PendsLess(t, w) by {
        hide HashesClear;
      }
      if step.sourceType == PLAN {
        assert HoldsAlso(w, t, step.sourceId, step.docId) by {
          hide HashesClear;
        }
        hide HoldsAlso, PendsLess, HashesClear, OtherPending, Duplicates;
        LinkClearExactlyWhen(w, t, step.sourceId, step.docId);
      } else {
        assert HoldsLess(w, t) by {
          hide HashesClear;
        }
        LessStaysClear(w, t);
      }
    }
  }

  lemma StepClearExactlyWhen(w: World, step: Step)
    requires Base(w) && HashesClear(w)
    ensures HashesClear(Next(w, step)) <==> !MakesDuplicate(w, step)
  {
    hide Base, HashesClear, AddCommitted, DeleteCommitted, Ended;
    if step.Commit? {
      if step.r in w.requests {
        if w.requests[step.r].Adding? {
          CommitAddStaysClear(w, step.r);
        } else {
          DeleteStaysClear(w, step.r);
        }
      }
    } else if step.Query? {
      QueryClearExactlyWhen(w, step.r);
    } else if step.StartAttach? {
      AttachClearExactlyWhen(w, step);
    } else if step.Associate? {
      AssociateClearExactlyWhen(w, step);
    } else {
      QuietStaysClear(w, step);
    }
  }

  // ------------------------------------------------------------------ kept blobs

  predicate HasBlob(w: World, d: string)
    requires d in w.s.docs
  {
    var doc := w.s.docs[d];
    doc.key in w.s.blobs && |w.s.blobs[doc.key]| == doc.size
  }

  /** Every row has its blob, unless a deletion under way has already dealt with it. */
  ghost predicate BlobsKept(w: World) {
    forall d :: d in w.s.docs ==> HasBlob(w, d) || Dropping(w, d)
  }

  /** A deletion fails after its blob is gone, and no other one is as far. */
  predicate LosesBlob(w: World, step: Step) {
    && step.Fail? && step.r in w.requests
    && var q := w.requests[step.r];
       && IsDropping(q, q.docId) && q.docId in w.s.docs && !HasBlob(w, q.docId)
       && !exists p :: p in w.requests && p != step.r && IsDropping(w.requests[p], q.docId)
  }

  /** The same rows with the same blobs, and every deletion as far as before. */
  ghost predicate KeepsBlobs(w: World, t: World) {
    && (forall d :: d in t.s.docs ==> d in w.s.docs && (HasBlob(w, d) ==> HasBlob(t, d)))
    && (forall r, d :: r in w.requests && IsDropping(w.requests[r], d) && d in t.s.docs ==>
          r in t.requests && IsDropping(t.requests[r], d))
  }

  lemma KeepingKeeps(w: World, t: World)
    requires BlobsKept(w) && KeepsBlobs(w, t)
    ensures BlobsKept(t)
  {
    forall d | d in t.s.docs ensures HasBlob(t, d) || Dropping(t, d) {
      if !HasBlob(w, d) {
        var r :| r in w.requests && IsDropping(w.requests[r], d);
        assert IsDropping(t.requests[r], d);
      }
    }
  }

  lemma FailKeptExactlyWhen(w: World, r: nat)
    requires BlobsKept(w)
    ensures BlobsKept(Next(w, Fail(r))) <==> !LosesBlob(w, Fail(r))
  {
    var t := Next(w, Fail(r));
    if LosesBlob(w, Fail(r)) {
      var d := w.requests[r].docId;
      assert !HasBlob(t, d) && !Dropping(t, d);
    } else {
      forall d | d in t.s.docs ensures HasBlob(t, d) || Dropping(t, d) {
        if !HasBlob(w, d) {
          var p :| p in w.requests && IsDropping(w.requests[p], d);
          if p == r {
            var o :| o in w.requests && o != r && IsDropping(w.requests[o], d);
            assert o in t.requests && IsDropping(t.requests[o], d);
          } else {
            assert p in t.requests && IsDropping(t.requests[p], d);
          }
        }
      }
    }
  }

  lemma CommitAddKeepsBlobs(w: World, r: nat)
    requires Base(w) && BlobsKept(w) && r in w.requests && w.requests[r].Adding?
    ensures BlobsKept(AddCommitted(w, r))
  {
    hide StoredContents, LinksLive, IdsKnown, RequestsApart;
    var q, t := w.requests[r], AddCommitted(w, r);
    assert RequestOk(w, q);
    hide RequestsOk;
    forall d | d in t.s.docs ensures HasBlob(t, d) || Dropping(t, d) {
      if d in w.s.docs {
        if !HasBlob(w, d) {
          var p :| p in w.requests && IsDropping(w.requests[p], d);
          assert p in t.requests && IsDropping(t.requests[p], d);
        }
      }
    }
  }

  lemma DropKeepsBlobs(w: World, r: nat, succeeds: bool)
    requires Base(w) && BlobsKept(w) && r in w.requests && w.requests[r].Deleting?
    ensures BlobsKept(Next(w, DeleteBlob(r, succeeds)))
  {
    hide LinksLive, RequestsApart, StoredContents;
    var q, t := w.requests[r], Next(w, DeleteBlob(r, succeeds));
    KnownRequest(w, q);
    hide RequestsOk;
    if t != w {
      assert IsDropping(t.requests[r], q.docId);
      forall d | d in t.s.docs ensures HasBlob(t, d) || Dropping(t, d) {
        if d != q.docId {
          assert w.s.docs[d].key != q.key;
          if !HasBlob(w, d) {
            var p :| p in w.requests && IsDropping(w.requests[p], d);
            assert p in t.requests && IsDropping(t.requests[p], d);
          }
        }
      }
    }
  }

  lemma StoreIsKeeping(w: World, r: nat)
    requires r in w.requests && w.requests[r].Adding? && w.requests[r].phase.Cleared? && w.requests[r].key !in w.s.blobs
    ensures KeepsBlobs(w, Next(w, StoreBlob(r)))
  {
    hide StoredContents;
  }

  lemma StoreKeepsBlobs(w: World, r: nat)
    requires Base(w) && BlobsKept(w) && r in w.requests && w.requests[r].Adding?
    ensures BlobsKept(Next(w, StoreBlob(r)))
  {
    hide KeepsBlobs, BlobsKept, StoredContents, Entry;
    assert RequestOk(w, w.requests[r]);
    if w.requests[r].phase.Cleared? {
      StoreIsKeeping(w, r);
      KeepingKeeps(w, Next(w, StoreBlob(r)));
    }
  }

  lemma RestKeepsBlobs(w: World, step: Step)
    requires BlobsKept(w) && !step.Fail? && !step.DeleteBlob? && !step.StoreBlob?
    requires step.Commit? ==> step.r in w.requests && w.requests[step.r].Deleting?
    ensures BlobsKept(Next(w, step))
  {
    var t := Next(w, step);
    assert KeepsBlobs(w, t) by {
      hide BlobsKept, Duplicates, IsLinked, Locked, Extension, NewIds;
    }
    hide KeepsBlobs, Next;
    KeepingKeeps(w, t);
  }

  lemma StepKeptExactlyWhen(w: World, step: Step)
    requires Base(w) && BlobsKept(w)
    ensures BlobsKept(Next(w, step)) <==> !LosesBlob(w, step)
  {
    hide Base, BlobsKept, AddCommitted, DeleteCommitted, Duplicates, IsLinked, Locked;
    if step.Fail? {
      FailKeptExactlyWhen(w, step.r);
    } else if step.Commit? && step.r in w.requests && w.requests[step.r].Adding? {
      CommitAddKeepsBlobs(w, step.r);
    } else if step.Commit? && step.r !in w.requests {
    } else if step.DeleteBlob? {
      if step.r in w.requests && w.requests[step.r].Deleting? {
        DropKeepsBlobs(w, step.r, step.succeeds);
      }
    } else if step.StoreBlob? {
      if step.r in w.requests && w.requests[step.r].Adding? {
        StoreKeepsBlobs(w, step.r);
      }
    } else {
      RestKeepsBlobs(w, step);
    }
  }

  // ----------------------------------------------------------------- linked rows

  predicate IsEntered(q: Request, d: string) {
    q.Adding? && q.phase.Entered? && q.docId == d
  }

  predicate Entering(w: World, d: string) {
    exists r :: r in w.requests && IsEntered(w.requests[r], d)
  }

  /** Every row has a link, or its link is on the way. */
  ghost predicate RowsLinked(w: World) {
    forall d :: d in w.s.docs ==> IsLinked(w.s.links, d) || Entering(w, d)
  }

  /** A deletion that saw another link commits when there is none, or an attachment
      fails between its two commits. */
  predicate StripsRow(w: World, step: Step) {
    (step.Commit? || step.Fail?) && step.r in w.requests
    && var q := w.requests[step.r];
       && q.docId in w.s.docs
       && if q.Deleting?
          then step.Commit? && q.stage.Kept? && OwnLink(q) in w.s.links
               && !IsLinked(w.s.links - {OwnLink(q)}, q.docId) && !Entering(w, q.docId)
          else step.Fail? && q.phase.Entered? && !IsLinked(w.s.links, q.docId)
  }

  /** No row is new, and none loses its links. */
  ghost predicate KeepsLinks(w: World, t: World) {
    && (forall d :: d in t.s.docs ==> d in w.s.docs && (IsLinked(w.s.links, d) ==> IsLinked(t.s.links, d)))
    && (forall r, d :: r in w.requests && IsEntered(w.requests[r], d) && d in t.s.docs ==>
          IsLinked(t.s.links, d) || (r in t.requests && IsEntered(t.requests[r], d)))
  }

  lemma KeepingLinksKeeps(w: World, t: World)
    requires RowsLinked(w) && KeepsLinks(w, t)
    ensures RowsLinked(t)
  {
    hide IsLinked;
    forall d | d in t.s.docs ensures IsLinked(t.s.links, d) || Entering(t, d) {
      if !IsLinked(w.s.links, d) {
        var r :| r in w.requests && IsEntered(w.requests[r], d);
        assert IsEntered(w.requests[r], d);
      }
    }
  }

  lemma MoreLinks(a: set<Link>, b: set<Link>, d: string)
    requires forall l :: l in a && l.docId == d ==> l in b
    ensures IsLinked(a, d) ==> IsLinked(b, d)
  {
    if IsLinked(a, d) {
      var l :| l in a && l.docId == d;
      assert l in b;
    }
  }

  lemma AddCommitKeepsLinks(w: World, r: nat)
    requires Base(w) && RowsLinked(w) && r in w.requests && w.requests[r].Adding?
    ensures RowsLinked(AddCommitted(w, r))
  {
    hide StoredContents, LinksLive, IdsKnown, NewDocument;
    var q, t := w.requests[r], AddCommitted(w, r);
    if q.phase.Asking? || q.phase.Cleared? {
      return;
    }
    forall d | d in t.s.docs ensures IsLinked(t.s.links, d) || Entering(t, d) {
      MoreLinks(w.s.links, t.s.links, d);
      if d == q.docId {
        if OwnLink(q) in t.s.links {
          assert IsLinked(t.s.links, d);
        } else {
          assert IsEntered(t.requests[r], d);
        }
      } else if !IsLinked(w.s.links, d) {
        var p :| p in w.requests && IsEntered(w.requests[p], d);
        assert p in t.requests && IsEntered(t.requests[p], d);
      }
    }
  }

  lemma KeptCommitExactlyWhen(w: World, r: nat)
    requires RowsLinked(w) && r in w.requests && w.requests[r].Deleting? && w.requests[r].stage.Kept?
    ensures RowsLinked(DeleteCommitted(w, r)) <==> !StripsRow(w, Commit(r))
  {
    var q, t := w.requests[r], DeleteCommitted(w, r);
    var own := OwnLink(q);
    hide IsLinked;
    forall d ensures Entering(t, d) <==> Entering(w, d) {
      if Entering(w, d) {
        var p :| p in w.requests && IsEntered(w.requests[p], d);
        assert p in t.requests && IsEntered(t.requests[p], d);
      }
    }
    hide Entering;
    forall d | d in t.s.docs && d != q.docId ensures IsLinked(t.s.links, d) || Entering(t, d) {
      MoreLinks(w.s.links, t.s.links, d);
    }
    if own !in w.s.links {
      assert t.s.links == w.s.links;
    }
  }

  lemma DropCommitKeepsLinks(w: World, r: nat)
    requires RowsLinked(w) && r in w.requests && w.requests[r].Deleting? && !w.requests[r].stage.Kept?
    ensures RowsLinked(DeleteCommitted(w, r))
  {
    var q, t := w.requests[r], DeleteCommitted(w, r);
    hide IsLinked;
    forall d | d in t.s.docs ensures IsLinked(w.s.links, d) ==> IsLinked(t.s.links, d) {
      MoreLinks(w.s.links, t.s.links, d);
    }
    KeepingLinksKeeps(w, t);
  }

  lemma FailLinkedExactlyWhen(w: World, r: nat)
    requires RequestsApart(w) && RowsLinked(w)
    ensures RowsLinked(Next(w, Fail(r))) <==> !StripsRow(w, Fail(r))
  {
    hide IsLinked;
    var t := Next(w, Fail(r));
    if r in w.requests {
      var q := w.requests[r];
      forall d | d in w.s.docs && !IsEntered(q, d) ensures Entering(w, d) ==> Entering(t, d) {
        if Entering(w, d) {
          var p :| p in w.requests && IsEntered(w.requests[p], d);
          assert p in t.requests && IsEntered(t.requests[p], d);
        }
      }
      if q.Adding? && q.phase.Entered? && q.docId in w.s.docs {
        assert !Entering(t, q.docId);
      }
    } else {
      assert t == w;
    }
  }

  lemma RestKeepsLinks(w: World, step: Step)
    requires RowsLinked(w) && !step.Fail? && !step.Commit?
    ensures RowsLinked(Next(w, step))
  {
    var t := Next(w, step);
    assert KeepsLinks(w, t) by {
      hide RowsLinked, Duplicates, Locked, Extension, NewIds, StoredContents, Dropping;
      forall d | d in t.s.docs ensures IsLinked(w.s.links, d) ==> IsLinked(t.s.links, d) {
        MoreLinks(w.s.links, t.s.links, d);
      }
      hide IsLinked;
    }
    hide KeepsLinks, Next;
    KeepingLinksKeeps(w, t);
  }

  lemma StepLinkedExactlyWhen(w: World, step: Step)
    requires Base(w) && RowsLinked(w)
    ensures RowsLinked(Next(w, step)) <==> !StripsRow(w, step)
  {
    hide RowsLinked, AddCommitted, DeleteCommitted, Duplicates, IsLinked, Locked;
    if step.Fail? {
      FailLinkedExactlyWhen(w, step.r);
    } else if step.Commit? {
      if step.r in w.requests {
        if w.requests[step.r].Adding? {
          AddCommitKeepsLinks(w, step.r);
        } else if w.requests[step.r].stage.Kept? {
          KeptCommitExactlyWhen(w, step.r);
        } else {
          DropCommitKeepsLinks(w, step.r);
        }
      }
    } else {
      RestKeepsLinks(w, step);
    }
  }

  // ----------------------------------------------------------------- owned blobs

  predicate OwnedByRow(w: World, k: Key) {
    exists d :: d in w.s.docs && w.s.docs[d].key == k
  }

  predicate IsStoring(q: Request, k: Key) {
    q.Adding? && q.phase.Stored? && q.key == k
  }

  predicate OwnedByRequest(w: World, k: Key) {
    exists r :: r in w.requests && IsStoring(w.requests[r], k)
  }

  /** Every blob belongs to a row, or to an addition whose row is on the way. */
  ghost predicate BlobsOwned(w: World) {
    forall k :: k in w.s.blobs ==> OwnedByRow(w, k) || OwnedByRequest(w, k)
  }

  /** An addition fails after storing its blob, or a row goes whose blob stayed. */
  predicate LeavesBlob(w: World, step: Step) {
    (step.Commit? || step.Fail?) && step.r in w.requests
    && var q := w.requests[step.r];
       if q.Adding? then step.Fail? && q.phase.Stored?
       else step.Commit? && q.stage.Dropped? && q.docId in w.s.docs && q.key in w.s.blobs
  }

  /** No blob is new, and none loses its owner. */
  ghost predicate KeepsOwners(w: World, t: World) {
    && t.s.blobs.Keys <= w.s.blobs.Keys
    && (forall d :: d in w.s.docs && w.s.docs[d].key in t.s.blobs ==>
         d in t.s.docs && t.s.docs[d].key == w.s.docs[d].key)
    && (forall r, k :: r in w.requests && IsStoring(w.requests[r], k) ==>
          OwnedByRow(t, k) || (r in t.requests && IsStoring(t.requests[r], k)))
  }

  lemma KeepingOwnersKeeps(w: World, t: World)
    requires BlobsOwned(w) && KeepsOwners(w, t)
    ensures BlobsOwned(t)
  {
    forall k | k in t.s.blobs ensures OwnedByRow(t, k) || OwnedByRequest(t, k) {
      assert k in w.s.blobs;
      if OwnedByRow(w, k) {
        var d :| d in w.s.docs && w.s.docs[d].key == k;
        assert d in t.s.docs && t.s.docs[d].key == k;
      } else {
        var r :| r in w.requests && IsStoring(w.requests[r], k);
        assert IsStoring(w.requests[r], k);
      }
    }
  }

  /** What an addition's commit does to rows, blobs and the other requests. */
  lemma AddCommitShape(w: World, r: nat)
    requires r in w.requests && w.requests[r].Adding? && RequestOk(w, w.requests[r])
    ensures var q, t := w.requests[r], AddCommitted(w, r);
            && t.s.blobs == w.s.blobs
            && (forall d :: d in w.s.docs ==> d in t.s.docs && t.s.docs[d] == w.s.docs[d])
            && (q.phase.Stored? ==> q.docId in t.s.docs && t.s.docs[q.docId].key == q.key)
            && (forall p :: p in w.requests && p != r ==> p in t.requests && t.requests[p] == w.requests[p])
  {
    hide StoredContents;
  }

  lemma AddCommitKeepsOwners(w: World, r: nat)
    requires Base(w) && BlobsOwned(w) && r in w.requests && w.requests[r].Adding?
    ensures BlobsOwned(AddCommitted(w, r))
  {
    var q, t := w.requests[r], AddCommitted(w, r);
    assert RequestOk(w, q);
    hide Base, RequestOk, AddCommitted;
    AddCommitShape(w, r);
    forall k | k in t.s.blobs ensures OwnedByRow(t, k) || OwnedByRequest(t, k) {
      if OwnedByRow(w, k) {
        var d :| d in w.s.docs && w.s.docs[d].key == k;
        assert d in t.s.docs && t.s.docs[d].key == k;
      } else {
        var p :| p in w.requests && IsStoring(w.requests[p], k);
        if p == r {
          assert q.docId in t.s.docs && t.s.docs[q.docId].key == k;
        } else {
          assert p in t.requests && IsStoring(t.requests[p], k);
        }
      }
    }
  }

  lemma StoreKeepsOwners(w: World, r: nat)
    requires BlobsOwned(w) && r in w.requests && w.requests[r].Adding?
    ensures BlobsOwned(Next(w, StoreBlob(r)))
  {
    hide StoredContents;
    var q, t := w.requests[r], Next(w, StoreBlob(r));
    forall k | k in t.s.blobs ensures OwnedByRow(t, k) || OwnedByRequest(t, k) {
      if k == q.key && t != w {
        assert IsStoring(t.requests[r], k);
      } else if OwnedByRow(w, k) {
        var d :| d in w.s.docs && w.s.docs[d].key == k;
        assert t.s.docs[d].key == k;
      } else {
        var p :| p in w.requests && IsStoring(w.requests[p], k);
        assert p in t.requests && IsStoring(t.requests[p], k);
      }
    }
  }

  lemma DropLeaves(w: World, r: nat)
    requires Base(w) && LeavesBlob(w, Commit(r)) && w.requests[r].Deleting?
    ensures !BlobsOwned(DeleteCommitted(w, r))
  {
    var q, t := w.requests[r], DeleteCommitted(w, r);
    KnownRequest(w, q);
    hide LinksLive, StoredContents, Entry, RequestsApart;
    assert q.key in t.s.blobs;
    assert !OwnedByRow(t, q.key);
    forall p | p in t.requests ensures !IsStoring(t.requests[p], q.key) {
      hide IdsKnown;
      assert RequestOk(w, w.requests[p]);
      StoringApart(w, w.requests[p], q);
    }
    assert !OwnedByRequest(t, q.key);
  }

  lemma StoringApart(w: World, p: Request, q: Request)
    requires IdsKnown(w) && RequestOk(w, p) && RequestOk(w, q) && q.docId in w.s.docs
    ensures !IsStoring(p, q.key)
  {
    hide StoredContents, Entry;
  }

  lemma DropCommitOwnedExactlyWhen(w: World, r: nat)
    requires Base(w) && BlobsOwned(w) && r in w.requests && w.requests[r].Deleting?
    ensures BlobsOwned(DeleteCommitted(w, r)) <==> !LeavesBlob(w, Commit(r))
  {
    if LeavesBlob(w, Commit(r)) {
      DropLeaves(w, r);
    } else {
      KnownRequest(w, w.requests[r]);
      DropKeepsOwners(w, r);
      hide KeepsOwners;
      KeepingOwnersKeeps(w, DeleteCommitted(w, r));
    }
  }

  lemma DropKeepsOwners(w: World, r: nat)
    requires IdsKnown(w) && r in w.requests && w.requests[r].Deleting? && !LeavesBlob(w, Commit(r))
    requires w.requests[r].docId in w.issued && w.issued[w.requests[r].docId] == w.requests[r].key
    ensures KeepsOwners(w, DeleteCommitted(w, r))
  {
  }

  lemma FailOwnedExactlyWhen(w: World, r: nat)
    requires Base(w) && BlobsOwned(w)
    ensures BlobsOwned(Next(w, Fail(r))) <==> !LeavesBlob(w, Fail(r))
  {
    hide LinksLive, Entry;
    var t := Next(w, Fail(r));
    if LeavesBlob(w, Fail(r)) {
      var q := w.requests[r];
      assert RequestOk(w, q);
      assert q.key in t.s.blobs;
      assert !OwnedByRow(t, q.key);
      forall p | p in t.requests ensures !IsStoring(t.requests[p], q.key) {
        KnownRequest(w, w.requests[p]);
        assert w.requests[p].Adding? ==> w.requests[p].docId != q.docId;
      }
      assert !OwnedByRequest(t, q.key);
    } else {
      assert KeepsOwners(w, t) by {
        hide Base, BlobsOwned;
      }
      hide KeepsOwners;
      KeepingOwnersKeeps(w, t);
    }
  }

  lemma RestKeepsOwners(w: World, step: Step)
    requires BlobsOwned(w) && !step.Fail? && !step.Commit? && !step.StoreBlob?
    ensures BlobsOwned(Next(w, step))
  {
    var t := Next(w, step);
    assert KeepsOwners(w, t) by {
      hide BlobsOwned, Duplicates, Locked, Extension, NewIds, StoredContents, Dropping, IsLinked;
    }
    hide KeepsOwners, Next;
    KeepingOwnersKeeps(w, t);
  }

  lemma StepOwnedExactlyWhen(w: World, step: Step)
    requires Base(w) && BlobsOwned(w)
    ensures BlobsOwned(Next(w, step)) <==> !LeavesBlob(w, step)
  {
    hide Base, BlobsOwned, AddCommitted, DeleteCommitted, Duplicates, IsLinked, Locked;
    if step.Fail? {
      FailOwnedExactlyWhen(w, step.r);
    } else if step.Commit? {
      if step.r in w.requests {
        if w.requests[step.r].Adding? {
          AddCommitKeepsOwners(w, step.r);
        } else {
          DropCommitOwnedExactlyWhen(w, step.r);
        }
      }
    } else if step.StoreBlob? {
      if step.r in w.requests && w.requests[step.r].Adding? {
        StoreKeepsOwners(w, step.r);
      }
    } else {
      RestKeepsOwners(w, step);
    }
  }
}
