/** Every outcome of one upload and of one deletion, field by field, and where the rows and
    blobs of a run of overlapping requests come from. */
module PlanOutcomes {
  import opened Wrappers
  import opened PlanDocuments
  import opened PlanRequests

  /** The document is in the session and has the hash. */
  predicate IsDuplicate(s: Store, session: string, hash: string, d: string) {
    d in s.docs && s.docs[d].hash == hash && Link("plan_session", session, d) in s.links
  }

  /** The row of a file: what was found in a PDF takes the place of its contents. */
  predicate IsRowOf(doc: Document, f: File, key: Key, documentType: string) {
    && doc.key == key && doc.name == f.name && doc.hash == f.hash && doc.documentType == documentType
    && (f.extracted.None? ==> doc.mime == f.mime && doc.size == |f.contents|)
    && (f.extracted.Some? ==> doc.mime == "text/plain" && doc.size == |f.extracted.value|)
  }

  predicate IsBlobOf(contents: Bytes, f: File) {
    contents == match f.extracted case None => f.contents case Some(text) => text
  }

  /** One upload, case by case. */
  lemma UploadSays(
        s: Store, session: string, f: File, documentType: string, docId: string, key: Key, fault: Fault)
    ensures var r := UploadOutcome(s, session, f, docId, fault);
            var t := Uploaded(s, session, f, documentType, docId, key, fault);
            && (session !in s.sessions ==> r == UnknownSession && t == s)
            && (session in s.sessions && |f.contents| > 52428800 ==> r == TooLarge && t == s)
            && (session in s.sessions && |f.contents| <= 52428800 ==>
                  && (forall d, e ::
                        IsDuplicate(s, session, f.hash, d) && IsDuplicate(s, session, f.hash, e) && d != e ==>
                          r == UploadFailed && t == s)
                  && (forall d :: IsDuplicate(s, session, f.hash, d)
                                  && (forall e :: IsDuplicate(s, session, f.hash, e) ==> e == d) ==>
                        r == Existing(d) && t == s)
                  && ((forall d :: !IsDuplicate(s, session, f.hash, d)) ==>
                        && (fault == NoFault ==>
                              && r == Created(docId) && t.sessions == s.sessions
                              && t.links == s.links + {Link("plan_session", session, docId)}
                              && docId in t.docs && IsRowOf(t.docs[docId], f, key, documentType)
                              && t.docs == s.docs[docId := t.docs[docId]]
                              && key in t.blobs && IsBlobOf(t.blobs[key], f) && t.blobs == s.blobs[key := t.blobs[key]])
                        && (fault == BlobFails ==> r == UploadFailed && t == s)
                        && (fault == CommitFails ==>
                              && r == UploadFailed && t.(blobs := s.blobs) == s
                              && key in t.blobs && IsBlobOf(t.blobs[key], f)
                              && t.blobs == s.blobs[key := t.blobs[key]])))
  {
    if session in s.sessions && |f.contents| <= 52428800 {
      DuplicatesCount(s, session, f.hash);
      hide NewDocument;
      RowIs(f, key, documentType);
    }
  }

  lemma RowIs(f: File, key: Key, documentType: string)
    ensures IsRowOf(NewDocument(f, key, documentType), f, key, documentType) && IsBlobOf(StoredContents(f), f)
  {
  }

  lemma DuplicatesCount(s: Store, session: string, hash: string)
    ensures forall d :: d in Duplicates(s, session, hash) <==> IsDuplicate(s, session, hash, d)
    ensures forall d, e :: IsDuplicate(s, session, hash, d) && IsDuplicate(s, session, hash, e) && d != e ==>
              |Duplicates(s, session, hash)| > 1
    ensures forall d ::
              IsDuplicate(s, session, hash, d) && (forall e :: IsDuplicate(s, session, hash, e) ==> e == d) ==>
                Duplicates(s, session, hash) == {d}
  {
    var duplicates := Duplicates(s, session, hash);
    forall d, e | IsDuplicate(s, session, hash, d) && IsDuplicate(s, session, hash, e) && d != e
      ensures |duplicates| > 1
    {
      SubsetSize({d, e}, duplicates);
    }
  }

  /** One deletion, case by case: the link goes, and with the last link of the document its
      row and, unless that fails, its blob; the blob goes even if the rest does not. */
  lemma DeleteSays(s: Store, session: string, docId: string, blobDeleted: bool, commits: bool)
    ensures var r, t := DeleteOutcome(s, session, docId, commits), AfterDelete(s, session, docId, blobDeleted, commits);
            var link := Link("plan_session", session, docId);
            && (session !in s.sessions ==> r == NoSession && t == s)
            && (session in s.sessions && docId !in s.docs ==> r == NoDocument && t == s)
            && (session in s.sessions && docId in s.docs && link !in s.links ==> r == Forbidden && t == s)
            && (session in s.sessions && docId in s.docs && link in s.links ==>
                  && r == (if commits then Removed else DeleteFailed) && t.sessions == s.sessions
                  && t.links == (if commits then s.links - {link} else s.links)
                  && ((exists l :: l in s.links && l != link && l.docId == docId) ==>
                        t.docs == s.docs && t.blobs == s.blobs)
                  && (!(exists l :: l in s.links && l != link && l.docId == docId) ==>
                        && t.docs == (if commits then s.docs - {docId} else s.docs)
                        && t.blobs == (if blobDeleted then s.blobs - {s.docs[docId].key} else s.blobs)))
  {
    var link := Link(PLAN, session, docId);
    if l :| l in s.links && l != link && l.docId == docId {
      assert l in s.links - {link};
    }
  }

  /** A name is a stem, a dot and the extension, which has no dot; or it has no dot at all
      and an empty extension. */
  lemma ExtensionIs(name: string) returns (stem: string)
    ensures '.' !in Extension(name)
    ensures if '.' in name then name == stem + "." + Extension(name) else Extension(name) == ""
  {
    LastDotIs(name);
    var d := LastDot(name);
    stem := if d < 0 then "" else name[..d];
  }

  lemma {:induction false} LastDotIs(s: string)
    ensures LastDot(s) >= 0 ==> s[LastDot(s)] == '.'
    ensures forall k :: LastDot(s) < k < |s| ==> s[k] != '.'
    decreases |s|
  {
    if |s| > 0 && s[|s| - 1] != '.' {
      LastDotIs(s[..|s| - 1]);
    }
  }

  // -------------------------------------------------------------------- every run

  /** The step begins an addition of the file under the id and key. */
  predicate Begins(step: Step, docId: string, key: Key, f: File, documentType: string) {
    match step
    case StartUpload(_, session, file, docType, id, keyId) =>
      id == docId && key == Key(session, keyId, Extension(file.name)) && f == file && documentType == docType
    case StartAttach(_, session, file, docType, id) =>
      id == docId && key == Key(session, docId, "md") && f == file && documentType == docType
    case _ => false
  }

  ghost predicate Begun(steps: seq<Step>, docId: string, key: Key, f: File, documentType: string) {
    exists step :: step in steps && Begins(step, docId, key, f, documentType)
  }

  /** What is under way, every row and every blob is of a file some step began to add. */
  ghost predicate Traced(w: World, steps: seq<Step>) {
    && (forall r :: r in w.requests && w.requests[r].Adding? ==>
          var q := w.requests[r]; Begun(steps, q.docId, q.key, q.file, q.documentType))
    && (forall d :: d in w.s.docs ==> RowTraced(w.s.docs[d], d, steps))
    && (forall k :: k in w.s.blobs ==> BlobTraced(w.s.blobs[k], k, steps))
  }

  ghost predicate RowTraced(doc: Document, docId: string, steps: seq<Step>) {
    exists key, f, documentType :: Begun(steps, docId, key, f, documentType) && IsRowOf(doc, f, key, documentType)
  }

  ghost predicate BlobTraced(contents: Bytes, key: Key, steps: seq<Step>) {
    exists docId, f, documentType :: Begun(steps, docId, key, f, documentType) && IsBlobOf(contents, f)
  }

  lemma MoreSteps(w: World, steps: seq<Step>, step: Step)
    requires Traced(w, steps)
    ensures Traced(w, steps + [step])
  {
    forall docId, key, f, documentType | Begun(steps, docId, key, f, documentType)
      ensures Begun(steps + [step], docId, key, f, documentType)
    {
      var begin :| begin in steps && Begins(begin, docId, key, f, documentType);
      assert begin in steps + [step];
    }
    hide Begun, IsRowOf, IsBlobOf;
    forall d | d in w.s.docs ensures RowTraced(w.s.docs[d], d, steps + [step]) {
      var key, f, documentType :| Begun(steps, d, key, f, documentType) && IsRowOf(w.s.docs[d], f, key, documentType);
      assert Begun(steps + [step], d, key, f, documentType);
    }
    forall k | k in w.s.blobs ensures BlobTraced(w.s.blobs[k], k, steps + [step]) {
      var docId, f, documentType :| Begun(steps, docId, k, f, documentType) && IsBlobOf(w.s.blobs[k], f);
      assert Begun(steps + [step], docId, k, f, documentType);
    }
  }

  lemma StartTraced(w: World, steps: seq<Step>, step: Step)
    requires Traced(w, steps) && step in steps && (step.StartUpload? || step.StartAttach?)
    ensures Traced(Next(w, step), steps)
  {
    hide RowTraced, BlobTraced;
    if step.StartUpload? {
      var key := Key(step.session, step.keyId, Extension(step.file.name));
      assert Begins(step, step.docId, key, step.file, step.documentType);
    } else {
      assert Begins(step, step.docId, Key(step.session, step.docId, "md"), step.file, step.documentType);
    }
  }

  lemma AddTraced(w: World, steps: seq<Step>, step: Step)
    requires Traced(w, steps) && (step.Query? || step.StoreBlob? || step.Commit?)
    requires step.r in w.requests && w.requests[step.r].Adding?
    ensures Traced(AddStep(w, step), steps)
  {
    var q := w.requests[step.r];
    hide Begun, NewDocument, StoredContents, IsRowOf, IsBlobOf, Duplicates;
    RowIs(q.file, q.key, q.documentType);
    assert RowTraced(Entry(q), q.docId, steps) && BlobTraced(StoredContents(q.file), q.key, steps);
    hide RowTraced, BlobTraced;
  }

  lemma DeleteTraced(w: World, steps: seq<Step>, step: Step)
    requires Traced(w, steps) && (step.Unlink? || step.ListLinks? || step.DeleteBlob? || step.Commit?)
    requires step.r in w.requests && w.requests[step.r].Deleting?
    ensures Traced(DeleteStep(w, step), steps)
  {
    hide Begun, RowTraced, BlobTraced, IsLinked, Locked;
  }

  lemma StepTraced(w: World, steps: seq<Step>, step: Step)
    requires Traced(w, steps) && step in steps
    ensures Traced(Next(w, step), steps)
  {
    hide Begun, RowTraced, BlobTraced, AddStep, DeleteStep, Dropping;
    match step
    case StartUpload(_, _, _, _, _, _) => StartTraced(w, steps, step);
    case StartAttach(_, _, _, _, _) => StartTraced(w, steps, step);
    case StartDelete(_, _, _) =>
    case Associate(_, _, _) =>
    case Sessions(_) =>
    case Fail(_) =>
    case _ =>
      if step.r in w.requests {
        if w.requests[step.r].Adding? {
          if step.Query? || step.StoreBlob? || step.Commit? {
            AddTraced(w, steps, step);
          }
        } else if step.Unlink? || step.ListLinks? || step.DeleteBlob? || step.Commit? {
          DeleteTraced(w, steps, step);
        }
      }
  }

  lemma {:induction false} RunTraced(w: World, done: seq<Step>, steps: seq<Step>)
    requires Traced(w, done)
    ensures Traced(Run(w, steps), done + steps)
    decreases |steps|
  {
    hide Traced, Next;
    if |steps| == 0 {
      assert done + steps == done;
    } else {
      MoreSteps(w, done, steps[0]);
      assert (done + [steps[0]])[|done|] == steps[0];
      StepTraced(w, done + [steps[0]], steps[0]);
      RunTraced(Next(w, steps[0]), done + [steps[0]], steps[1..]);
      assert done + steps == done + [steps[0]] + steps[1..];
    }
  }

  /** After any run of overlapping requests every row is that of a file which some step
      began to upload or attach under its id, and every blob holds such a file's text. */
  lemma RowsComeFromFiles(steps: seq<Step>)
    ensures var s := Run(START, steps).s;
            && (forall d :: d in s.docs ==> RowTraced(s.docs[d], d, steps))
            && (forall k :: k in s.blobs ==> BlobTraced(s.blobs[k], k, steps))
  {
    hide RowTraced, BlobTraced;
    RunTraced(START, [], steps);
    assert [] + steps == steps;
  }

  // ------------------------------------------------------------------- the row lock

  /** The deletion holds the lock on its link's row. */
  predicate Holding(q: Request) {
    q.Deleting? && !q.stage.Checked?
  }

  ghost predicate OneHolder(w: World) {
    forall r, q :: r in w.requests && q in w.requests && r != q && Holding(w.requests[r]) && Holding(w.requests[q]) ==>
      OwnLink(w.requests[r]) != OwnLink(w.requests[q])
  }

  lemma StepKeepsOneHolder(w: World, step: Step)
    requires OneHolder(w)
    ensures OneHolder(Next(w, step))
  {
    hide Duplicates, IsLinked, NewDocument, StoredContents, WithoutDocument, DeleteCheck, NewIds, Dropping;
    if step.Unlink? && step.r in w.requests && w.requests[step.r].Deleting? {
      var r := step.r;
      if !Locked(w, r) {
        forall q | q in w.requests && q != r && Holding(w.requests[q])
          ensures OwnLink(w.requests[q]) != OwnLink(w.requests[r])
        {
        }
      }
    }
  }

  lemma {:induction false} RunKeepsOneHolder(w: World, steps: seq<Step>)
    requires OneHolder(w)
    ensures OneHolder(Run(w, steps))
    decreases |steps|
  {
    hide OneHolder, Next;
    if |steps| > 0 {
      StepKeepsOneHolder(w, steps[0]);
      RunKeepsOneHolder(Next(w, steps[0]), steps[1..]);
    }
  }

  /** In every run at most one deletion of a link is between removing it and its end. */
  lemma LinksAreRemovedByOne(steps: seq<Step>)
    ensures OneHolder(Run(START, steps))
  {
    RunKeepsOneHolder(START, steps);
  }
}
