/** The document store over whole runs of overlapping requests. */
module PlanRuns {
  import opened PlanDocuments
  import opened PlanRequests
  import opened PlanLaws

  datatype Law = HashesAreClear | BlobsAreKept | RowsAreLinked | BlobsAreOwned

  ghost predicate Obeys(law: Law, w: World) {
    match law
    case HashesAreClear => HashesClear(w)
    case BlobsAreKept => BlobsKept(w)
    case RowsAreLinked => RowsLinked(w)
    case BlobsAreOwned => BlobsOwned(w)
  }

  /** The guard a caller would have to check before the step. */
  predicate Breaks(law: Law, w: World, step: Step) {
    match law
    case HashesAreClear => MakesDuplicate(w, step)
    case BlobsAreKept => LosesBlob(w, step)
    case RowsAreLinked => StripsRow(w, step)
    case BlobsAreOwned => LeavesBlob(w, step)
  }

  lemma StepObeysExactlyWhen(law: Law, w: World, step: Step)
    requires Base(w) && Obeys(law, w)
    ensures Obeys(law, Next(w, step)) <==> !Breaks(law, w, step)
  {
    hide Base, HashesClear, BlobsKept, RowsLinked, BlobsOwned, MakesDuplicate, LosesBlob, StripsRow, LeavesBlob, Next;
    match law
    case HashesAreClear => StepClearExactlyWhen(w, step);
    case BlobsAreKept => StepKeptExactlyWhen(w, step);
    case RowsAreLinked => StepLinkedExactlyWhen(w, step);
    case BlobsAreOwned => StepOwnedExactlyWhen(w, step);
  }

  ghost predicate Throughout(law: Law, w: World, steps: seq<Step>)
    decreases |steps|
  {
    Obeys(law, w) && (|steps| > 0 ==> Throughout(law, Next(w, steps[0]), steps[1..]))
  }

  predicate Unbroken(law: Law, w: World, steps: seq<Step>)
    decreases |steps|
  {
    |steps| > 0 ==> !Breaks(law, w, steps[0]) && Unbroken(law, Next(w, steps[0]), steps[1..])
  }

  lemma NotNow(law: Law, w: World, steps: seq<Step>)
    requires !Obeys(law, w)
    ensures !Throughout(law, w, steps)
  {
  }

  lemma {:induction false} RunObeysExactlyWhen(law: Law, w: World, steps: seq<Step>)
    requires Base(w) && Obeys(law, w)
    ensures Throughout(law, w, steps) <==> Unbroken(law, w, steps)
    ensures Unbroken(law, w, steps) ==> Obeys(law, Run(w, steps))
    decreases |steps|
  {
    hide Base, Obeys, Breaks, Next;
    if |steps| > 0 {
      StepObeysExactlyWhen(law, w, steps[0]);
      NextKeepsBase(w, steps[0]);
      if Obeys(law, Next(w, steps[0])) {
        RunObeysExactlyWhen(law, Next(w, steps[0]), steps[1..]);
      } else {
        NotNow(law, Next(w, steps[0]), steps[1..]);
      }
    }
  }

  lemma StartObeys(law: Law)
    ensures Base(START) && Obeys(law, START)
  {
  }

  /** Each law holds in every state of a run exactly when no step of the run breaks it. */
  lemma HoldsExactlyWhen(law: Law, steps: seq<Step>)
    ensures Throughout(law, START, steps) <==> Unbroken(law, START, steps)
  {
    StartObeys(law);
    RunObeysExactlyWhen(law, START, steps);
  }

  lemma ReachedState(law: Law, steps: seq<Step>)
    ensures Base(Run(START, steps))
    ensures Unbroken(law, START, steps) ==> Obeys(law, Run(START, steps))
  {
    StartObeys(law);
    hide Base, Obeys, Run, Unbroken, Throughout;
    RunKeepsBase(START, steps);
    RunObeysExactlyWhen(law, START, steps);
  }

  // ----------------------------------------------------------------- duplicates

  /** Uploads, deletions, and links of other kinds. */
  predicate AsksFirst(step: Step) {
    !step.StartAttach? && (step.Associate? ==> step.sourceType != PLAN)
  }

  /** No upload passes its query while another upload of the same content to the same
      session is between its own query and its end. */
  predicate NoUploadsOverlap(w: World, steps: seq<Step>)
    decreases |steps|
  {
    |steps| > 0 ==>
      && !(steps[0].Query? && Passes(w, steps[0].r)
           && HasTwin(w, steps[0].r, w.requests[steps[0].r].session, w.requests[steps[0].r].file.hash))
      && NoUploadsOverlap(Next(w, steps[0]), steps[1..])
  }

  predicate Passes(w: World, r: nat) {
    && r in w.requests && w.requests[r].Adding? && w.requests[r].phase.Asking?
    && Duplicates(w.s, w.requests[r].session, w.requests[r].file.hash) == {}
  }

  lemma {:induction false} UnbrokenMeansNoOverlap(w: World, steps: seq<Step>)
    requires forall i :: 0 <= i < |steps| ==> AsksFirst(steps[i])
    ensures Unbroken(HashesAreClear, w, steps) <==> NoUploadsOverlap(w, steps)
    decreases |steps|
  {
    hide Next, HasTwin;
    if |steps| > 0 {
      assert AsksFirst(steps[0]);
      UnbrokenMeansNoOverlap(Next(w, steps[0]), steps[1..]);
    }
  }

  /** In a run of uploads and deletions no session ever links two documents with one
      hash, nor is about to, exactly when no two uploads of one content to one
      session overlap. */
  lemma UploadsDistinctExactlyWhen(steps: seq<Step>)
    requires forall i :: 0 <= i < |steps| ==> AsksFirst(steps[i])
    ensures Throughout(HashesAreClear, START, steps) <==> NoUploadsOverlap(START, steps)
  {
    hide Throughout, Unbroken, NoUploadsOverlap;
    HoldsExactlyWhen(HashesAreClear, steps);
    UnbrokenMeansNoOverlap(START, steps);
  }

  /** Then no duplicate query ever fails. */
  lemma UploadsNeverFail(steps: seq<Step>, session: string, hash: string)
    requires forall i :: 0 <= i < |steps| ==> AsksFirst(steps[i])
    requires NoUploadsOverlap(START, steps)
    ensures |Duplicates(Run(START, steps).s, session, hash)| <= 1
  {
    UnbrokenMeansNoOverlap(START, steps);
    ReachedState(HashesAreClear, steps);
    hide Run, Duplicates;
    QueryFailsExactlyWhen(Run(START, steps).s, session, hash);
  }

  /** Steps that bring additions and deletions to their end. */
  predicate OnlyFinishes(steps: seq<Step>) {
    forall i :: 0 <= i < |steps| ==> steps[i].StoreBlob? || steps[i].Commit?
  }

  lemma {:induction false} FinishingStaysClear(w: World, steps: seq<Step>)
    requires Base(w) && HashesClear(w) && OnlyFinishes(steps)
    ensures HashesDistinct(Run(w, steps).s)
    decreases |steps|
  {
    hide Base, Next, HashesDistinct;
    if |steps| > 0 {
      assert HashesClear(Next(w, steps[0])) by {
        assert !MakesDuplicate(w, steps[0]);
        hide MakesDuplicate, HashesClear;
        StepClearExactlyWhen(w, steps[0]);
      }
      hide HashesClear;
      NextKeepsBase(w, steps[0]);
      FinishingStaysClear(Next(w, steps[0]), steps[1..]);
    }
  }

  /** Enough to bring any pending addition to its end. */
  function FinishSteps(r: nat): seq<Step> {
    [StoreBlob(r), Commit(r), Commit(r)]
  }

  lemma OneThen(w: World, step: Step, rest: seq<Step>)
    ensures Run(w, [step] + rest) == Run(Next(w, step), rest)
  {
    assert ([step] + rest)[1..] == rest;
  }

  lemma {:induction false} RunAppend(w: World, a: seq<Step>, b: seq<Step>)
    ensures Run(w, a + b) == Run(Run(w, a), b)
    decreases |a|
  {
    if |a| == 0 {
      assert a + b == b;
    } else {
      assert (a + b)[0] == a[0] && (a + b)[1..] == a[1..] + b;
      RunAppend(Next(w, a[0]), a[1..], b);
    }
  }

  lemma FinishUnfold(w: World, r: nat)
    ensures Run(w, FinishSteps(r)) == Next(Next(Next(w, StoreBlob(r)), Commit(r)), Commit(r))
  {
    hide Next;
    var u := Next(w, StoreBlob(r));
    OneThen(w, StoreBlob(r), [Commit(r), Commit(r)]);
    OneThen(u, Commit(r), [Commit(r)]);
    OneThen(Next(u, Commit(r)), Commit(r), []);
    assert [StoreBlob(r)] + [Commit(r), Commit(r)] == FinishSteps(r);
    assert [Commit(r)] + [Commit(r)] == [Commit(r), Commit(r)] && [Commit(r)] + [] == [Commit(r)];
  }

  /** All that was held or under way is still there, but for request `r`. */
  ghost predicate Grows(w: World, t: World, r: nat) {
    && (forall session, d :: Holds(w.s, session, d) ==> Holds(t.s, session, d) && t.s.docs[d].hash == w.s.docs[d].hash)
    && (forall d :: d in w.s.docs ==> d in t.s.docs)
    && (forall p :: p in w.requests && p != r ==> p in t.requests && t.requests[p] == w.requests[p])
  }

  lemma FinishStepGrows(w: World, r: nat, step: Step)
    requires Base(w) && (step == StoreBlob(r) || step == Commit(r))
    requires r in w.requests ==> w.requests[r].Adding?
    ensures Grows(w, Next(w, step), r)
  {
    hide StoredContents, IdsKnown, RequestsApart;
    assert r in w.requests ==> RequestOk(w, w.requests[r]);
  }

  lemma GrowsOn(w: World, u: World, t: World, r: nat)
    requires Grows(w, u, r) && Grows(u, t, r)
    ensures Grows(w, t, r)
  {
    hide Holds;
  }

  lemma FinishGrows(w: World, r: nat)
    requires Base(w) && r in w.requests && w.requests[r].Adding?
    ensures Grows(w, Run(w, FinishSteps(r)), r)
  {
    hide Next, Base, Run, FinishSteps, Grows;
    var u := Next(w, StoreBlob(r));
    var v := Next(u, Commit(r));
    FinishUnfold(w, r);
    StaysAdding(w, r, StoreBlob(r));
    StaysAdding(u, r, Commit(r));
    NextKeepsBase(w, StoreBlob(r));
    NextKeepsBase(u, Commit(r));
    FinishStepGrows(w, r, StoreBlob(r));
    FinishStepGrows(u, r, Commit(r));
    FinishStepGrows(v, r, Commit(r));
    GrowsOn(w, u, v, r);
    GrowsOn(w, v, Next(v, Commit(r)), r);
  }

  lemma StaysAdding(w: World, r: nat, step: Step)
    requires step == StoreBlob(r) || step == Commit(r)
    requires r in w.requests ==> w.requests[r].Adding?
    ensures r in Next(w, step).requests ==> Next(w, step).requests[r].Adding?
  {
    hide Entry, StoredContents;
  }

  /** The document is linked, or its row is in and its link is next. */
  predicate Arriving(w: World, r: nat, q: Request)
    requires q.Adding?
  {
    || (Holds(w.s, q.session, q.docId) && w.s.docs[q.docId].hash == q.file.hash && r !in w.requests)
    || (r in w.requests && w.requests[r] == q.(phase := Entered) && q.docId in w.s.docs
       && w.s.docs[q.docId].hash == q.file.hash)
  }

  lemma StoreReadies(w: World, r: nat)
    requires r in w.requests && Pending(w, w.requests[r])
    ensures var t := Next(w, StoreBlob(r));
            var q := w.requests[r];
            r in t.requests && t.s.docs == w.s.docs
            && t.requests[r] == if q.phase.Entered? then q else q.(phase := Stored)
  {
    hide StoredContents;
  }

  lemma CommitArrives(w: World, r: nat, q: Request)
    requires Base(w) && r in w.requests && Pending(w, w.requests[r]) && !w.requests[r].phase.Cleared?
    requires q.Adding? && w.requests[r] == q.(phase := w.requests[r].phase)
    ensures Arriving(Next(w, Commit(r)), r, q)
  {
    hide StoredContents, LinksLive, IdsKnown, RequestsApart;
    assert RequestOk(w, w.requests[r]);
    hide RequestsOk;
  }

  lemma ArrivingHolds(w: World, r: nat, q: Request)
    requires q.Adding? && Arriving(w, r, q)
    ensures var t := Next(w, Commit(r)).s;
            Holds(t, q.session, q.docId) && t.docs[q.docId].hash == q.file.hash
  {
    hide Entry;
  }

  lemma FinishHolds(w: World, r: nat)
    requires Base(w) && r in w.requests && Pending(w, w.requests[r])
    ensures var q, t := w.requests[r], Run(w, FinishSteps(r)).s;
            Holds(t, q.session, q.docId) && t.docs[q.docId].hash == q.file.hash
  {
    hide Base, Next, Run, FinishSteps, Arriving, Holds;
    var q := w.requests[r];
    FinishUnfold(w, r);
    StoreReadies(w, r);
    NextKeepsBase(w, StoreBlob(r));
    CommitArrives(Next(w, StoreBlob(r)), r, q);
    ArrivingHolds(Next(Next(w, StoreBlob(r)), Commit(r)), r, q);
  }

  lemma TwoHeld(s: Store, session: string, d: string, e: string)
    requires Holds(s, session, d) && Holds(s, session, e) && d != e && s.docs[d].hash == s.docs[e].hash
    ensures !HashesDistinct(s)
  {
  }

  lemma DuplicateGoesWrong(w: World, r: nat, e: string)
    requires Base(w) && r in w.requests && Pending(w, w.requests[r]) && e != w.requests[r].docId
    requires e in Duplicates(w.s, w.requests[r].session, w.requests[r].file.hash)
    ensures !HashesDistinct(Run(w, FinishSteps(r)).s)
  {
    hide Base, Run, FinishSteps, HashesDistinct;
    var q := w.requests[r];
    FinishHolds(w, r);
    FinishGrows(w, r);
    assert Holds(w.s, q.session, e);
    TwoHeld(Run(w, FinishSteps(r)).s, q.session, q.docId, e);
  }

  lemma StillPending(w: World, t: World, r: nat, p: nat)
    requires Grows(w, t, r) && p in w.requests && p != r && Pending(w, w.requests[p])
    ensures p in t.requests && t.requests[p] == w.requests[p] && Pending(t, t.requests[p])
  {
  }

  lemma TwinGoesWrong(w: World, r: nat, p: nat)
    requires Base(w) && r in w.requests && Pending(w, w.requests[r]) && p in w.requests && p != r
    requires PendingFor(w, w.requests[p], w.requests[r].session, w.requests[r].file.hash)
    ensures !HashesDistinct(Run(w, FinishSteps(r) + FinishSteps(p)).s)
  {
    var q, t := w.requests[r], Run(w, FinishSteps(r));
    assert w.requests[p].docId != q.docId;
    hide Base, Run, FinishSteps, HashesDistinct;
    RunKeepsBase(w, FinishSteps(r));
    FinishHolds(w, r);
    FinishGrows(w, r);
    StillPending(w, t, r, p);
    FinishHolds(t, p);
    FinishGrows(t, p);
    RunAppend(w, FinishSteps(r), FinishSteps(p));
    TwoHeld(Run(t, FinishSteps(p)).s, q.session, q.docId, w.requests[p].docId);
  }

  /** Some way of ending what is pending makes two of one hash, if the law does not hold. */
  lemma GoesWrong(w: World) returns (steps: seq<Step>)
    requires Base(w) && HashesDistinct(w.s) && !HashesClear(w)
    ensures OnlyFinishes(steps) && !HashesDistinct(Run(w, steps).s)
  {
    hide Base, Run, HashesDistinct;
    var r :| r in w.requests && Pending(w, w.requests[r])
             && (!(Duplicates(w.s, w.requests[r].session, w.requests[r].file.hash) <= {w.requests[r].docId})
                 || HasTwin(w, r, w.requests[r].session, w.requests[r].file.hash));
    var q := w.requests[r];
    if !(Duplicates(w.s, q.session, q.file.hash) <= {q.docId}) {
      var e :| e in Duplicates(w.s, q.session, q.file.hash) && e != q.docId;
      DuplicateGoesWrong(w, r, e);
      steps := FinishSteps(r);
    } else {
      assert HasTwin(w, r, q.session, q.file.hash);
      var p :| p in w.requests && p != r && PendingFor(w, w.requests[p], q.session, q.file.hash);
      TwinGoesWrong(w, r, p);
      steps := FinishSteps(r) + FinishSteps(p);
    }
  }

  /** In a reachable state without duplicates, every way of ending what is under way
      leaves none exactly when the law holds there. */
  lemma ClearExactlyWhen(before: seq<Step>)
    requires HashesDistinct(Run(START, before).s)
    ensures var w := Run(START, before);
            (forall steps :: OnlyFinishes(steps) ==> HashesDistinct(Run(w, steps).s)) <==> HashesClear(w)
  {
    ReachedState(HashesAreClear, before);
    var w := Run(START, before);
    hide Base, HashesClear, HashesDistinct, OnlyFinishes;
    if HashesClear(w) {
      forall steps | OnlyFinishes(steps) ensures HashesDistinct(Run(w, steps).s) {
        FinishingStaysClear(w, steps);
      }
    } else {
      var steps := GoesWrong(w);
    }
  }

  // ------------------------------------------------------------ when all is quiet

  /** With nothing under way, and the three laws unbroken: a row survives exactly while
      some link to it remains, every row has its blob, and there are no other blobs. */
  lemma SurvivesExactlyWhileLinked(steps: seq<Step>)
    requires Run(START, steps).requests == map[]
    requires Unbroken(BlobsAreKept, START, steps) && Unbroken(RowsAreLinked, START, steps)
    requires Unbroken(BlobsAreOwned, START, steps)
    ensures var s := Run(START, steps).s;
            && (forall d :: d in s.docs <==> IsLinked(s.links, d))
            && (forall d :: d in s.docs ==> s.docs[d].key in s.blobs && |s.blobs[s.docs[d].key]| == s.docs[d].size)
            && s.blobs.Keys == set d | d in s.docs :: s.docs[d].key
  {
    ReachedState(BlobsAreKept, steps);
    ReachedState(RowsAreLinked, steps);
    ReachedState(BlobsAreOwned, steps);
    hide Run, Unbroken;
  }

  // ---------------------------------------------------- one request after another

  predicate OneAtATime(w: World, steps: seq<Step>)
    decreases |steps|
  {
    |steps| > 0 ==> (Starts(w, steps[0]) ==> w.requests == map[]) && OneAtATime(Next(w, steps[0]), steps[1..])
  }

  predicate Faultless(step: Step) {
    !step.Fail? && (step.DeleteBlob? ==> step.succeeds)
  }

  /** At most one request, and what it has seen still holds. */
  ghost predicate Calm(w: World) {
    && (forall r, p :: r in w.requests && p in w.requests ==> r == p)
    && (forall r :: r in w.requests && w.requests[r].Deleting? ==>
          && (w.requests[r].stage.Kept? ==> IsLinked(w.s.links - {OwnLink(w.requests[r])}, w.requests[r].docId))
          && (w.requests[r].stage.Dropped? ==> w.requests[r].key !in w.s.blobs))
  }

  lemma CalmObeys(law: Law, w: World, step: Step)
    requires Calm(w) && Faultless(step) && AsksFirst(step)
    ensures !Breaks(law, w, step)
  {
    hide IsLinked, Duplicates;
  }

  lemma StepStaysCalm(w: World, step: Step)
    requires Calm(w) && Faultless(step) && (Starts(w, step) ==> w.requests == map[])
    ensures Calm(Next(w, step))
  {
    hide Duplicates, Entry, StoredContents, Extension, NewIds, Locked;
    var t := Next(w, step);
    if step.Associate? {
      forall r | r in w.requests && w.requests[r].Deleting?
        ensures IsLinked(w.s.links - {OwnLink(w.requests[r])}, w.requests[r].docId) ==>
                IsLinked(t.s.links - {OwnLink(w.requests[r])}, w.requests[r].docId)
      {
        MoreLinks(w.s.links - {OwnLink(w.requests[r])}, t.s.links - {OwnLink(w.requests[r])}, w.requests[r].docId);
      }
    }
    hide IsLinked;
  }

  lemma {:induction false} CalmRun(law: Law, w: World, steps: seq<Step>)
    requires Calm(w) && OneAtATime(w, steps)
    requires forall i :: 0 <= i < |steps| ==> Faultless(steps[i]) && AsksFirst(steps[i])
    ensures Unbroken(law, w, steps)
    decreases |steps|
  {
    hide Calm, Next, Breaks, Faultless, AsksFirst, Starts;
    if |steps| > 0 {
      assert Faultless(steps[0]) && AsksFirst(steps[0]);
      CalmObeys(law, w, steps[0]);
      StepStaysCalm(w, steps[0]);
      CalmRun(law, Next(w, steps[0]), steps[1..]);
    }
  }

  /** Uploads and deletions one after the other, without failures, break no law. */
  lemma SerialRunsObey(law: Law, steps: seq<Step>)
    requires OneAtATime(START, steps)
    requires forall i :: 0 <= i < |steps| ==> Faultless(steps[i]) && AsksFirst(steps[i])
    ensures Throughout(law, START, steps)
  {
    hide Throughout, Unbroken, OneAtATime;
    CalmRun(law, START, steps);
    HoldsExactlyWhen(law, steps);
  }

  // ------------------------------------------- a request that nothing interrupts

  function UploadSteps(
      r: nat, session: string, f: File, documentType: string, docId: string, keyId: string, fault: Fault): seq<Step>
  {
    [StartUpload(r, session, f, documentType, docId, keyId), Query(r)] +
    match fault
    case NoFault => [StoreBlob(r), Commit(r)]
    case BlobFails => [Fail(r)]
    case CommitFails => [StoreBlob(r), Fail(r)]
  }

  function DeleteSteps(r: nat, session: string, docId: string, blobDeleted: bool, commits: bool): seq<Step> {
    [StartDelete(r, session, docId), Unlink(r)] +
    [ListLinks(r), DeleteBlob(r, blobDeleted), if commits then Commit(r) else Fail(r)]
  }

  lemma RunOne(w: World, a: Step)
    ensures Run(w, [a]) == Next(w, a)
  {
    hide Next;
    OneThen(w, a, []);
    assert [a] + [] == [a];
  }

  lemma RunTwo(w: World, a: Step, b: Step)
    ensures Run(w, [a, b]) == Next(Next(w, a), b)
  {
    hide Next;
    OneThen(w, a, [b]);
    RunOne(Next(w, a), b);
    assert [a] + [b] == [a, b];
  }

  /** After its query an upload is on its way exactly if it was admitted. */
  lemma UploadQueried(w: World, step: Step)
    requires step.StartUpload? && step.r !in w.requests && NewIds(w, step.docId, step.keyId)
    ensures var t := Next(Next(w, step), Query(step.r));
            && t.s == w.s
            && (if Admitted(w.s, step.session, step.file)
                then t.requests == w.requests[step.r := UploadRequest(step).(phase := Cleared)]
                else t.requests == w.requests)
  {
    hide NewIds, Duplicates, Extension;
    var u := Next(w, step);
    assert u != w ==> u.requests - {step.r} == w.requests;
  }

  lemma UploadStored(w: World, r: nat, q: Request)
    requires q.Adding? && q.asks && q.phase.Cleared? && r in w.requests && w.requests[r] == q
    ensures var u := Next(w, StoreBlob(r));
            && u.s == w.s.(blobs := w.s.blobs[q.key := StoredContents(q.file)])
            && Next(u, Commit(r)).s == Added(w.s, q.session, q.docId, Entry(q), StoredContents(q.file))
            && Next(u, Fail(r)).s == u.s
            && Next(u, Commit(r)).requests == w.requests - {r} == Next(u, Fail(r)).requests
            && Next(w, Fail(r)).s == w.s && Next(w, Fail(r)).requests == w.requests - {r}
  {
    hide StoredContents;
  }

  lemma NoRequest(w: World, r: nat)
    requires r !in w.requests
    ensures Next(w, StoreBlob(r)) == w && Next(w, Commit(r)) == w && Next(w, Fail(r)) == w
  {
    assert w.requests - {r} == w.requests;
  }

  /** The upload of the store's own method is its steps in a row. */
  lemma UploadIsItsSteps(w: World, r: nat, session: string, f: File, documentType: string, docId: string, keyId: string,
                         fault: Fault)
    requires r !in w.requests && NewIds(w, docId, keyId)
    ensures var t := Run(w, UploadSteps(r, session, f, documentType, docId, keyId, fault));
            && t.s == Uploaded(w.s, session, f, documentType, docId, Key(session, keyId, Extension(f.name)), fault)
            && t.requests == w.requests
  {
    hide NewIds, Extension, Duplicates, Next, Run;
    var start := StartUpload(r, session, f, documentType, docId, keyId);
    var u := Next(Next(w, start), Query(r));
    UploadQueried(w, start);
    RunTwo(w, start, Query(r));
    var rest := match fault
      case NoFault => [StoreBlob(r), Commit(r)]
      case BlobFails => [Fail(r)]
      case CommitFails => [StoreBlob(r), Fail(r)];
    RunAppend(w, [start, Query(r)], rest);
    assert Run(w, UploadSteps(r, session, f, documentType, docId, keyId, fault)) == Run(u, rest);
    RunOne(u, Fail(r));
    RunTwo(u, StoreBlob(r), Commit(r));
    RunTwo(u, StoreBlob(r), Fail(r));
    if r !in u.requests {
      NoRequest(u, r);
    } else {
      UploadStored(u, r, u.requests[r]);
      assert Next(u, Fail(r)).s == u.s && Next(u, Fail(r)).requests == u.requests - {r};
      assert u.requests - {r} == w.requests;
    }
  }

  lemma DeleteBegun(w: World, r: nat, session: string, docId: string)
    requires w.requests == map[]
    ensures var t := Next(Next(w, StartDelete(r, session, docId)), Unlink(r));
            && t.s == w.s
            && (if DeleteCheck(w.s, session, docId).Removed?
                then t.requests == map[r := Deleting(session, docId, w.s.docs[docId].key, Unlinked)]
                else t == w)
  {
  }

  lemma DeleteEnded(w: World, r: nat, q: Request, blobDeleted: bool, commits: bool)
    requires q.Deleting? && q.stage.Unlinked? && w.requests == map[r := q]
    requires DeleteCheck(w.s, q.session, q.docId).Removed? && w.s.docs[q.docId].key == q.key
    ensures var u := Next(Next(w, ListLinks(r)), DeleteBlob(r, blobDeleted));
            var t := Next(u, if commits then Commit(r) else Fail(r));
            t.s == AfterDelete(w.s, q.session, q.docId, blobDeleted, commits) && t.requests == map[]
  {
    hide IsLinked;
  }

  lemma RunThree(w: World, a: Step, b: Step, c: Step)
    ensures Run(w, [a, b, c]) == Next(Next(Next(w, a), b), c)
  {
    hide Next;
    OneThen(w, a, [b, c]);
    RunTwo(Next(w, a), b, c);
    assert [a] + [b, c] == [a, b, c];
  }

  lemma NoDelete(w: World, r: nat, blobDeleted: bool, commits: bool)
    requires r !in w.requests
    ensures Next(w, ListLinks(r)) == w && Next(w, DeleteBlob(r, blobDeleted)) == w
    ensures Next(w, if commits then Commit(r) else Fail(r)) == w
  {
    assert w.requests - {r} == w.requests;
  }

  /** The deletion of the store's own method is its steps in a row. */
  lemma DeleteIsItsSteps(w: World, r: nat, session: string, docId: string, blobDeleted: bool, commits: bool)
    requires w.requests == map[]
    ensures var t := Run(w, DeleteSteps(r, session, docId, blobDeleted, commits));
            t.s == AfterDelete(w.s, session, docId, blobDeleted, commits) && t.requests == map[]
  {
    var u := Next(Next(w, StartDelete(r, session, docId)), Unlink(r));
    var last := if commits then Commit(r) else Fail(r);
    DeleteBegun(w, r, session, docId);
    RunTwo(w, StartDelete(r, session, docId), Unlink(r));
    RunAppend(w, [StartDelete(r, session, docId), Unlink(r)], [ListLinks(r), DeleteBlob(r, blobDeleted), last]);
    RunThree(u, ListLinks(r), DeleteBlob(r, blobDeleted), last);
    assert Run(w, DeleteSteps(r, session, docId, blobDeleted, commits))
        == Run(u, [ListLinks(r), DeleteBlob(r, blobDeleted), last]);
    hide Run, DeleteSteps, Next;
    if DeleteCheck(w.s, session, docId).Removed? {
      DeleteEnded(u, r, u.requests[r], blobDeleted, commits);
    } else {
      NoDelete(u, r, blobDeleted, commits);
    }
  }
}
