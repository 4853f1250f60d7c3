/** Documents of plan sessions: rows, links to the sessions that use them, and blobs.
    Uploading looks for a document with the same hash first; deleting the last link
    deletes the row and the blob. */
module PlanDocuments {
  import opened Wrappers

  const MAX_PLAN_FILE_SIZE := 50 * 1024 * 1024
  const PLAN := "plan_session"

  type Bytes = seq<bv8>

  /** Where a blob lies: session, generated id, extension. */
  datatype Key = Key(session: string, id: string, ext: string)

  datatype Document = Document(key: Key, name: string, mime: string, size: nat, hash: string, documentType: string)

  datatype Link = Link(sourceType: string, sourceId: string, docId: string)

  /** The committed tables and the blobs. */
  datatype Store = Store(sessions: set<string>, docs: map<string, Document>, links: set<Link>, blobs: map<Key, Bytes>)

  /** `hash` is the digest of `contents`; `extracted` is the text found in a PDF, if any. */
  datatype File = File(name: string, mime: string, contents: Bytes, hash: string, extracted: Option<Bytes>)

  datatype UploadResult = UnknownSession | TooLarge | Existing(docId: string) | Created(docId: string) | UploadFailed

  datatype DeleteResult = NoSession | NoDocument | Forbidden | Removed | DeleteFailed

  /** What goes wrong in an upload after the duplicate query. */
  datatype Fault = NoFault | BlobFails | CommitFails

  function StoredContents(f: File): Bytes {
    if f.extracted.Some? then f.extracted.value else f.contents
  }

  function StoredMime(f: File): string {
    if f.extracted.Some? then "text/plain" else f.mime
  }

  function LastDot(s: string): int
    ensures -1 <= LastDot(s) < |s|
    decreases |s|
  {
    if |s| == 0 then -1 else if s[|s| - 1] == '.' then |s| - 1 else LastDot(s[..|s| - 1])
  }

  /** What follows the last dot; empty without one. */
  function Extension(name: string): string {
    if LastDot(name) < 0 then "" else name[LastDot(name) + 1..]
  }

  /** The documents the duplicate query finds, one row per link. */
  function Duplicates(s: Store, session: string, hash: string): set<string> {
    set d | d in s.docs && Link(PLAN, session, d) in s.links && s.docs[d].hash == hash
  }

  function NewDocument(f: File, key: Key, documentType: string): Document {
    Document(key, f.name, StoredMime(f), |StoredContents(f)|, f.hash, documentType)
  }

  lemma OneMember(s: set<string>, x: string)
    requires |s| == 1 && x in s
    ensures s == {x}
  {
    assert |s - {x}| == 0;
  }

  // ------------------------------------------------- one request by itself

  ghost function UploadOutcome(s: Store, session: string, f: File, docId: string, fault: Fault): UploadResult {
    if session !in s.sessions then UnknownSession
    else if |f.contents| > MAX_PLAN_FILE_SIZE then TooLarge
    else if |Duplicates(s, session, f.hash)| > 1 then UploadFailed
    else if |Duplicates(s, session, f.hash)| == 1 then
      var d :| d in Duplicates(s, session, f.hash);
      Existing(d)
    else if fault.NoFault? then Created(docId)
    else UploadFailed
  }

  /** The request gets as far as storing its file. */
  predicate Admitted(s: Store, session: string, f: File) {
    session in s.sessions && |f.contents| <= MAX_PLAN_FILE_SIZE && Duplicates(s, session, f.hash) == {}
  }

  function Added(s: Store, session: string, docId: string, doc: Document, contents: Bytes): Store {
    s.(docs := s.docs[docId := doc], blobs := s.blobs[doc.key := contents],
       links := s.links + {Link(PLAN, session, docId)})
  }

  /** A blob that was stored stays when the transaction is rolled back. */
  function Uploaded(
      s: Store, session: string, f: File, documentType: string, docId: string, key: Key, fault: Fault): Store
  {
    if !Admitted(s, session, f) || fault.BlobFails? then s
    else if fault.CommitFails? then s.(blobs := s.blobs[key := StoredContents(f)])
    else Added(s, session, docId, NewDocument(f, key, documentType), StoredContents(f))
  }

  function DeleteCheck(s: Store, session: string, docId: string): DeleteResult {
    if session !in s.sessions then NoSession
    else if docId !in s.docs then NoDocument
    else if Link(PLAN, session, docId) !in s.links then Forbidden
    else Removed
  }

  function DeleteOutcome(s: Store, session: string, docId: string, commits: bool): DeleteResult {
    var checked := DeleteCheck(s, session, docId);
    if checked.Removed? && !commits then DeleteFailed else checked
  }

  predicate IsLinked(links: set<Link>, docId: string) {
    exists l :: l in links && l.docId == docId
  }

  function WithoutDocument(s: Store, docId: string): Store {
    s.(docs := s.docs - {docId}, links := set l | l in s.links && l.docId != docId)
  }

  /** The blob goes before the transaction commits; failing to delete it is only logged. */
  function AfterDelete(s: Store, session: string, docId: string, blobDeleted: bool, commits: bool): Store {
    if !DeleteCheck(s, session, docId).Removed? then s
    else
      var links := s.links - {Link(PLAN, session, docId)};
      if IsLinked(links, docId) then if commits then s.(links := links) else s
      else
        var t := if blobDeleted then s.(blobs := s.blobs - {s.docs[docId].key}) else s;
        if commits then WithoutDocument(t, docId) else t
  }

  class PlanDocumentStore {
    var sessions: set<string>
    var docs: map<string, Document>
    var links: set<Link>
    var blobs: map<Key, Bytes>

    ghost function State(): Store
      reads this
    {
      Store(sessions, docs, links, blobs)
    }

    /** One upload that nothing interrupts; `docId` and `keyId` are the generated ids. */
    method Upload(session: string, f: File, documentType: string, docId: string, keyId: string, fault: Fault)
      returns (r: UploadResult)
      modifies this
      ensures r == UploadOutcome(old(State()), session, f, docId, fault)
      ensures var key := Key(session, keyId, Extension(f.name));
              State() == Uploaded(old(State()), session, f, documentType, docId, key, fault)
    {
      if session !in sessions {
        return UnknownSession;
      }
      if |f.contents| > MAX_PLAN_FILE_SIZE {
        return TooLarge;
      }
      var contents, mime := f.contents, f.mime;
      if f.extracted.Some? {
        contents, mime := f.extracted.value, "text/plain";
      }
      var duplicates := set d | d in docs && Link(PLAN, session, d) in links && docs[d].hash == f.hash;
      assert duplicates == Duplicates(State(), session, f.hash);
      if |duplicates| > 1 {
        return UploadFailed;
      }
      if |duplicates| == 1 {
        var d :| d in duplicates;
        OneMember(duplicates, d);
        return Existing(d);
      }
      if fault.BlobFails? {
        return UploadFailed;
      }
      var key := Key(session, keyId, Extension(f.name));
      blobs := blobs[key := contents];
      if fault.CommitFails? {
        return UploadFailed;
      }
      docs := docs[docId := Document(key, f.name, mime, |contents|, f.hash, documentType)];
      links := links + {Link(PLAN, session, docId)};
      r := Created(docId);
    }

    /** One deletion that nothing interrupts. */
    method Delete(session: string, docId: string, blobDeleted: bool, commits: bool) returns (r: DeleteResult)
      modifies this
      ensures r == DeleteOutcome(old(State()), session, docId, commits)
      ensures State() == AfterDelete(old(State()), session, docId, blobDeleted, commits)
    {
      if session !in sessions {
        return NoSession;
      }
      if docId !in docs {
        return NoDocument;
      }
      if Link(PLAN, session, docId) !in links {
        return Forbidden;
      }
      var document := docs[docId];
      // The transaction's own view of the two tables.
      var newDocs, newLinks := docs, links - {Link(PLAN, session, docId)};
      var all := set l | l in newLinks && l.docId == docId;
      if all == {} {
        assert !IsLinked(newLinks, docId) by {
          assert forall l :: l in newLinks && l.docId == docId ==> l in all;
        }
        if blobDeleted {
          blobs := blobs - {document.key};
        }
        newDocs := newDocs - {docId};
        assert newLinks == set l | l in links && l.docId != docId;
      } else {
        var l :| l in all;
        assert IsLinked(newLinks, docId);
      }
      if !commits {
        return DeleteFailed;
      }
      docs, links := newDocs, newLinks;
      r := Removed;
    }
  }

  // ------------------------------------------------------------------- duplicates

  predicate Holds(s: Store, session: string, d: string) {
    d in s.docs && Link(PLAN, session, d) in s.links
  }

  /** No session links two documents with one hash. */
  ghost predicate HashesDistinct(s: Store) {
    forall session, d, e :: Holds(s, session, d) && Holds(s, session, e) && d != e ==> s.docs[d].hash != s.docs[e].hash
  }

  lemma AtMostOne(s: set<string>)
    requires forall x, y :: x in s && y in s ==> x == y
    ensures |s| <= 1
  {
    if |s| > 0 {
      var x :| x in s;
      assert s == {x};
    }
  }

  lemma {:induction false} SubsetSize(a: set<string>, b: set<string>)
    requires a <= b
    ensures |a| <= |b|
    decreases |a|
  {
    if a != {} {
      var x :| x in a;
      SubsetSize(a - {x}, b - {x});
    }
  }

  /** The duplicate query fails exactly when the session links two documents with
      the file's hash. */
  lemma QueryFailsExactlyWhen(s: Store, session: string, hash: string)
    ensures |Duplicates(s, session, hash)| > 1 <==>
            exists d, e :: Holds(s, session, d) && Holds(s, session, e) && d != e
                           && s.docs[d].hash == hash == s.docs[e].hash
  {
    var duplicates := Duplicates(s, session, hash);
    if d, e :| Holds(s, session, d) && Holds(s, session, e) && d != e && s.docs[d].hash == hash == s.docs[e].hash {
      assert {d, e} <= duplicates;
      SubsetSize({d, e}, duplicates);
    } else {
      forall x, y | x in duplicates && y in duplicates ensures x == y {
        assert Holds(s, session, x) && Holds(s, session, y);
      }
      AtMostOne(duplicates);
    }
  }

  /** Uploading the same file again returns the same document and changes nothing. */
  lemma UploadTwice(s: Store, session: string, f: File, documentType: string, docId: string, key: Key,
                    again: string, againDoc: string, againKey: Key, fault: Fault)
    requires docId !in s.docs && UploadOutcome(s, session, f, docId, NoFault) == Created(docId)
    ensures var t := Uploaded(s, session, f, documentType, docId, key, NoFault);
            && UploadOutcome(t, session, f, againDoc, fault) == Existing(docId)
            && Uploaded(t, session, f, again, againDoc, againKey, fault) == t
  {
    var t := Uploaded(s, session, f, documentType, docId, key, NoFault);
    assert Duplicates(s, session, f.hash) == {};
    assert Duplicates(t, session, f.hash) == {docId} by {
      forall d | d in Duplicates(t, session, f.hash) ensures d == docId {
        assert d != docId ==> d in Duplicates(s, session, f.hash);
      }
      assert docId in Duplicates(t, session, f.hash);
    }
  }

  /** Deleting what was uploaded restores rows, links and blobs. */
  lemma DeleteUndoesUpload(s: Store, session: string, f: File, documentType: string, docId: string, key: Key)
    requires docId !in s.docs && key !in s.blobs && !IsLinked(s.links, docId)
    requires UploadOutcome(s, session, f, docId, NoFault) == Created(docId)
    ensures AfterDelete(Uploaded(s, session, f, documentType, docId, key, NoFault), session, docId, true, true) == s
  {
    var t := Uploaded(s, session, f, documentType, docId, key, NoFault);
    assert Duplicates(s, session, f.hash) == {};
    assert t.links - {Link(PLAN, session, docId)} == s.links;
    assert (set l | l in t.links && l.docId != docId) == s.links;
    assert t.docs - {docId} == s.docs && t.blobs - {t.docs[docId].key} == s.blobs;
  }
}
