/** What the retry table says about a chunk after any run: which of the saves each field of
    its row comes from. */
module FailedChunkRows {
  import opened Wrappers
  import opened FailedChunks

  /** A chunk as it was handed in, with the error given for its position. */
  type Failure = (Chunk, string)

  /** The chunk's occurrences in a save from position `i` on. */
  function Picks(chunks: seq<Chunk>, errors: Errors, i: nat, chunkId: string): seq<Failure>
    requires i <= |chunks|
    decreases |chunks| - i
  {
    if i == |chunks| then []
    else if chunks[i].chunkId == chunkId
    then [(chunks[i], if i in errors then errors[i] else "Unknown error")] + Picks(chunks, errors, i + 1, chunkId)
    else Picks(chunks, errors, i + 1, chunkId)
  }

  /** A save works after these operations unless a chunk without saves is in it twice, or
      is in it at all while the repository does not exist. */
  ghost predicate Works(before: seq<Op>, repoId: string, chunks: seq<Chunk>) {
    forall c :: SavesSinceClear(before, repoId, c) > 0
                || Occurrences(chunks, 0, c) <= (if Lives(before, repoId) then 1 else 0)
  }

  /** Read off the history alone: the chunk's occurrences in the saves that worked since
      it was last cleared, by itself or with its repository. */
  ghost function SavedSince(ops: seq<Op>, repoId: string, chunkId: string): seq<Failure> {
    if |ops| == 0 then []
    else
      var before := ops[..|ops| - 1];
      match ops[|ops| - 1]
      case FetchOp(_) => SavedSince(before, repoId, chunkId)
      case AddOp(_) => SavedSince(before, repoId, chunkId)
      case ClearOp(r, ids) =>
        if r == repoId && (|ids| == 0 || chunkId in ids) then [] else SavedSince(before, repoId, chunkId)
      case DeleteOp(r) => if r == repoId then [] else SavedSince(before, repoId, chunkId)
      case SaveOp(r, chunks, errors) =>
        SavedSince(before, repoId, chunkId)
        + (if r == repoId && Works(before, repoId, chunks) then Picks(chunks, errors, 0, chunkId) else [])
  }

  function RowOf(rows: seq<Row>, repoId: string, chunkId: string): Option<Row> {
    var at := Find(rows, repoId, chunkId);
    if at < |rows| then Some(rows[at]) else None
  }

  /** The path and lines are those of the first failure, all else is the last one's. */
  predicate Tells(r: Row, failures: seq<Failure>) {
    && |failures| > 0
    && var (first, (last, error)) := (failures[0].0, failures[|failures| - 1]);
       && r.chunk == Chunk(
            last.chunkId, first.filePath, last.content, first.startLine, first.endLine,
            last.chunkType, last.language, last.metadata)
       && r.error == error
  }

  // ------------------------------------------------------------------- one save

  /** The chunk's row tells the failures so far, or its pending rows are among them. */
  ghost predicate TellsBatch(b: Batch, repoId: string, chunkId: string, failures: seq<Failure>) {
    var at := Find(b.rows, repoId, chunkId);
    if at < |b.rows| then Tells(b.rows[at], failures)
    else forall k :: 0 <= k < |b.pending| && IsRow(b.pending[k], repoId, chunkId) ==>
           (b.pending[k].chunk, b.pending[k].error) in failures
  }

  lemma SaveOneTells(
        b: Batch, repoId: string, c: Chunk, error: string, nextId: nat, chunkId: string, failures: seq<Failure>)
    requires TellsBatch(b, repoId, chunkId, failures)
    ensures TellsBatch(SaveOne(b, repoId, c, error, nextId), repoId, chunkId,
                       if c.chunkId == chunkId then failures + [(c, error)] else failures)
  {
    hide Find;
    SaveOneFind(b, repoId, c, error, nextId, repoId, chunkId);
    var at := Find(b.rows, repoId, chunkId);
    var more := failures + [(c, error)];
    if at < |b.rows| && c.chunkId == chunkId {
      assert more[0] == failures[0] && b.rows[at].chunk.chunkId == chunkId;
    }
  }

  lemma {:induction false} SaveFromTells(
        b: Batch, repoId: string, chunks: seq<Chunk>, errors: Errors, i: nat, nextId: nat, chunkId: string,
        failures: seq<Failure>)
    requires i <= |chunks| && TellsBatch(b, repoId, chunkId, failures)
    ensures TellsBatch(SaveFrom(b, repoId, chunks, errors, i, nextId), repoId, chunkId,
                       failures + Picks(chunks, errors, i, chunkId))
    decreases |chunks| - i
  {
    hide TellsBatch, SaveOne;
    if i == |chunks| {
      assert failures + [] == failures;
    } else {
      var error := if i in errors then errors[i] else "Unknown error";
      var b' := SaveOne(b, repoId, chunks[i], error, nextId);
      var more := if chunks[i].chunkId == chunkId then failures + [(chunks[i], error)] else failures;
      SaveOneTells(b, repoId, chunks[i], error, nextId, chunkId, failures);
      SaveFromTells(b', repoId, chunks, errors, i + 1, nextId, chunkId, more);
      assert failures + Picks(chunks, errors, i, chunkId) == more + Picks(chunks, errors, i + 1, chunkId);
    }
  }

  lemma {:induction false} PicksCount(chunks: seq<Chunk>, errors: Errors, i: nat, chunkId: string)
    requires i <= |chunks|
    ensures |Picks(chunks, errors, i, chunkId)| == Occurrences(chunks, i, chunkId)
    ensures forall k :: 0 <= k < |Picks(chunks, errors, i, chunkId)| ==>
              Picks(chunks, errors, i, chunkId)[k].0.chunkId == chunkId
    decreases |chunks| - i
  {
    if i < |chunks| {
      PicksCount(chunks, errors, i + 1, chunkId);
    }
  }

  /** A save of another repository leaves the row alone. */
  lemma {:induction false} SaveFromLeaves(
        b: Batch, repoId: string, chunks: seq<Chunk>, errors: Errors, i: nat, nextId: nat, other: string,
        chunkId: string)
    requires i <= |chunks| && other != repoId
    ensures RowOf(SaveFrom(b, repoId, chunks, errors, i, nextId).rows, other, chunkId) == RowOf(b.rows, other, chunkId)
    decreases |chunks| - i
  {
    hide Find;
    if i < |chunks| {
      SaveOneFind(b, repoId, chunks[i], ErrorAt(errors, i), nextId, other, chunkId);
      var b' := SaveOne(b, repoId, chunks[i], ErrorAt(errors, i), nextId);
      SaveFromLeaves(b', repoId, chunks, errors, i + 1, nextId, other, chunkId);
    }
  }

  lemma RowConcat(a: seq<Row>, b: seq<Row>, repoId: string, chunkId: string)
    ensures RowOf(a + b, repoId, chunkId)
            == if RowOf(a, repoId, chunkId).Some? then RowOf(a, repoId, chunkId) else RowOf(b, repoId, chunkId)
  {
    hide Find;
    FindConcat(a, b, repoId, chunkId);
  }

  lemma CountOfRow(rows: seq<Row>, nextId: nat, repoId: string, chunkId: string)
    requires ValidRows(rows, nextId)
    ensures Count(rows, repoId, chunkId) > 0 <==> RowOf(rows, repoId, chunkId).Some?
    ensures RowOf(rows, repoId, chunkId).Some? ==>
              RowOf(rows, repoId, chunkId).value.retryCount == Count(rows, repoId, chunkId)
  {
  }

  /** After a save that worked the row tells the failures before and those of the save. */
  lemma SaveTells(
        rows: seq<Row>, repoId: string, chunks: seq<Chunk>, errors: Errors, nextId: nat, chunkId: string,
        failures: seq<Failure>)
    requires ValidRows(rows, nextId)
    requires !Repeats(AfterSave(rows, repoId, chunks, errors, nextId).pending)
    requires RowOf(rows, repoId, chunkId).Some? <==> |failures| > 0
    requires RowOf(rows, repoId, chunkId).Some? ==> Tells(RowOf(rows, repoId, chunkId).value, failures)
    ensures var b := AfterSave(rows, repoId, chunks, errors, nextId);
            var row, all := RowOf(b.rows + b.pending, repoId, chunkId), failures + Picks(chunks, errors, 0, chunkId);
            row.Some? ==> Tells(row.value, all)
  {
    hide SaveFrom, Repeats, ValidRows, Count, Picks, Occurrences, Tells;
    var start, b := Batch(rows, []), AfterSave(rows, repoId, chunks, errors, nextId);
    SaveFromTells(start, repoId, chunks, errors, 0, nextId, chunkId, failures);
    RowConcat(b.rows, b.pending, repoId, chunkId);
    var row := RowOf(b.rows + b.pending, repoId, chunkId);
    if row.Some? && RowOf(b.rows, repoId, chunkId).None? {
      NewIsOnce(rows, repoId, chunks, errors, nextId, chunkId);
      OnceTells(b.pending, repoId, chunkId, chunks, errors);
      assert failures + Picks(chunks, errors, 0, chunkId) == Picks(chunks, errors, 0, chunkId);
    }
  }

  lemma NewIsOnce(rows: seq<Row>, repoId: string, chunks: seq<Chunk>, errors: Errors, nextId: nat, chunkId: string)
    requires ValidRows(rows, nextId)
    requires var b := AfterSave(rows, repoId, chunks, errors, nextId);
             !Repeats(b.pending) && RowOf(b.rows, repoId, chunkId).None? && RowOf(b.pending, repoId, chunkId).Some?
    ensures RowOf(rows, repoId, chunkId).None? && Occurrences(chunks, 0, chunkId) == 1
  {
    hide SaveFrom, Pending, Occurrences;
    var b := AfterSave(rows, repoId, chunks, errors, nextId);
    PendingAfterSave(rows, repoId, chunks, errors, nextId, chunkId);
    PendingCounts(b.pending, repoId, chunkId);
    var at := Find(b.pending, repoId, chunkId);
    assert IsRow(b.pending[at], repoId, chunkId);
    forall i, k | 0 <= i < k < |b.pending|
      ensures !(IsRow(b.pending[i], repoId, chunkId) && IsRow(b.pending[k], repoId, chunkId))
    {
      assert !SameKey(b.pending[i], b.pending[k]);
    }
  }

  lemma OnceTells(p: seq<Row>, repoId: string, chunkId: string, chunks: seq<Chunk>, errors: Errors)
    requires Occurrences(chunks, 0, chunkId) == 1 && RowOf(p, repoId, chunkId).Some?
    requires forall k :: 0 <= k < |p| && IsRow(p[k], repoId, chunkId) ==>
               (p[k].chunk, p[k].error) in Picks(chunks, errors, 0, chunkId)
    ensures Tells(RowOf(p, repoId, chunkId).value, Picks(chunks, errors, 0, chunkId))
  {
    hide Occurrences, Picks;
    PicksCount(chunks, errors, 0, chunkId);
    var at := Find(p, repoId, chunkId);
    assert IsRow(p[at], repoId, chunkId);
    assert Picks(chunks, errors, 0, chunkId)[0] == (p[at].chunk, p[at].error);
  }

  // ------------------------------------------------------------------- clearing

  lemma {:induction false} ClearRow(rows: seq<Row>, repoId: string, chunkIds: seq<string>, r: string, chunkId: string)
    ensures RowOf(AfterClear(rows, repoId, chunkIds), r, chunkId)
            == if r == repoId && (|chunkIds| == 0 || chunkId in chunkIds) then None else RowOf(rows, r, chunkId)
  {
    if |rows| > 0 {
      var rest := rows[1..];
      assert rows == [rows[0]] + rest;
      RowCons(rows[0], rest, r, chunkId);
      RowCons(rows[0], AfterClear(rest, repoId, chunkIds), r, chunkId);
      ClearRow(rest, repoId, chunkIds, r, chunkId);
      hide RowOf;
    }
  }

  lemma RowCons(x: Row, rest: seq<Row>, repoId: string, chunkId: string)
    ensures RowOf([x] + rest, repoId, chunkId)
            == if IsRow(x, repoId, chunkId) then Some(x) else RowOf(rest, repoId, chunkId)
  {
    assert ([x] + rest)[0] == x && ([x] + rest)[1..] == rest;
  }

  // ------------------------------------------------------------------- all runs

  lemma {:induction false} SavedSinceCounts(ops: seq<Op>, repoId: string, chunkId: string)
    ensures |SavedSince(ops, repoId, chunkId)| == SavesSinceClear(ops, repoId, chunkId)
    decreases |ops|
  {
    hide Occurrences, Picks, Lives;
    if |ops| > 0 {
      SavedSinceCounts(ops[..|ops| - 1], repoId, chunkId);
      if ops[|ops| - 1].SaveOp? {
        PicksCount(ops[|ops| - 1].chunks, ops[|ops| - 1].errors, 0, chunkId);
        OneMoreSave(ops, repoId, chunkId);
      }
    }
  }

  lemma OneMoreSave(ops: seq<Op>, repoId: string, chunkId: string)
    requires |ops| > 0 && ops[|ops| - 1].SaveOp?
    ensures var before, op := ops[..|ops| - 1], ops[|ops| - 1];
            SavesSinceClear(ops, repoId, chunkId)
            == SavesSinceClear(before, repoId, chunkId)
               + (if op.repoId == repoId && Works(before, repoId, op.chunks)
                  then Occurrences(op.chunks, 0, chunkId) else 0)
  {
    hide Occurrences, Lives;
  }

  /** A save that worked is one that counts. */
  lemma WorkedExactlyWhen(before: seq<Op>, r: string, chunks: seq<Chunk>, errors: Errors)
    ensures var t := After(before);
            !FlushFails(AfterSave(t.rows, r, chunks, errors, t.nextId).pending, t.live)
            <==> Works(before, r, chunks)
  {
    hide AfterSave, Count, Occurrences, Lives, After, FlushFails, ValidRows;
    var t := After(before);
    AfterValid(before);
    AfterLive(before, r);
    SaveFailsExactlyWhen(t.rows, r, chunks, errors, t.nextId, t.live);
    forall c
      ensures Refused(t.rows, r, chunks, t.live, c)
              <==> !(SavesSinceClear(before, r, c) > 0
                     || Occurrences(chunks, 0, c) <= (if Lives(before, r) then 1 else 0))
    {
      CountIsSavesSinceClear(before, r, c);
    }
    if Works(before, r, chunks) {
      assert forall c :: !Refused(t.rows, r, chunks, t.live, c);
    }
  }

  /** In every run a chunk has a row exactly when some save of it worked since it was last
      cleared; the row counts those saves, has the path and lines of the first of them,
      and content, type, language, metadata and error of the last. */
  lemma {:induction false} RowTellsHistory(ops: seq<Op>, repoId: string, chunkId: string)
    ensures var row, saved := RowOf(After(ops).rows, repoId, chunkId), SavedSince(ops, repoId, chunkId);
            && (row.Some? <==> |saved| > 0)
            && (row.Some? ==> Tells(row.value, saved) && row.value.retryCount == |saved|)
    decreases |ops|
  {
    hide AfterSave, AfterClear, FlushFails, Tells, ValidRows, Picks, Occurrences, Lives, Count, Find;
    AfterValid(ops);
    CountIsSavesSinceClear(ops, repoId, chunkId);
    SavedSinceCounts(ops, repoId, chunkId);
    CountOfRow(After(ops).rows, After(ops).nextId, repoId, chunkId);
    hide RowOf;
    if |ops| > 0 {
      RowTellsHistory(ops[..|ops| - 1], repoId, chunkId);
      LastTells(ops, repoId, chunkId);
    }
  }

  lemma LastTells(ops: seq<Op>, repoId: string, chunkId: string)
    requires |ops| > 0
    requires var row := RowOf(After(ops[..|ops| - 1]).rows, repoId, chunkId);
             var saved := SavedSince(ops[..|ops| - 1], repoId, chunkId);
             && (row.Some? <==> |saved| > 0) && (row.Some? ==> Tells(row.value, saved))
    ensures var row := RowOf(After(ops).rows, repoId, chunkId);
            row.Some? ==> Tells(row.value, SavedSince(ops, repoId, chunkId))
  {
    hide AfterSave, AfterClear, FlushFails, Tells, ValidRows, Picks, Occurrences, Lives, RowOf;
    var before := ops[..|ops| - 1];
    var t := After(before);
    match ops[|ops| - 1]
    case ClearOp(r, ids) => ClearRow(t.rows, r, ids, repoId, chunkId);
    case DeleteOp(r) => ClearRow(t.rows, r, [], repoId, chunkId);
    case SaveOp(r, chunks, errors) =>
      AfterValid(before);
      WorkedExactlyWhen(before, r, chunks, errors);
      assert SavedSince(before, repoId, chunkId) + [] == SavedSince(before, repoId, chunkId);
      var b := AfterSave(t.rows, r, chunks, errors, t.nextId);
      if !FlushFails(b.pending, t.live) {
        FlushedIsDistinct(b.pending, t.live);
        if r == repoId {
          SaveTells(t.rows, r, chunks, errors, t.nextId, chunkId, SavedSince(before, repoId, chunkId));
        } else {
          OtherRow(t, r, chunks, errors, repoId, chunkId);
        }
      }
    case _ =>
  }

  lemma OtherRow(t: Table, r: string, chunks: seq<Chunk>, errors: Errors, repoId: string, chunkId: string)
    requires ValidRows(t.rows, t.nextId) && r != repoId
    ensures var b := AfterSave(t.rows, r, chunks, errors, t.nextId);
            RowOf(b.rows + b.pending, repoId, chunkId) == RowOf(t.rows, repoId, chunkId)
  {
    hide SaveFrom, Pending, Find;
    var b := AfterSave(t.rows, r, chunks, errors, t.nextId);
    SaveFromLeaves(Batch(t.rows, []), r, chunks, errors, 0, t.nextId, repoId, chunkId);
    RowConcat(b.rows, b.pending, repoId, chunkId);
    PendingAfterSave(t.rows, r, chunks, errors, t.nextId, chunkId);
    PendingCounts(b.pending, repoId, chunkId);
    FindAll(b.pending, repoId, chunkId);
  }

  predicate IdsRise(rows: seq<Row>) {
    forall i, k :: 0 <= i < k < |rows| ==> rows[i].id < rows[k].id
  }

  /** A fetch returns the rows of the repository that are below the limit, each once, in
      rising order of their ids. */
  lemma FetchInIdOrder(rows: seq<Row>, nextId: nat, repoId: string, maxRetries: nat)
    requires ValidRows(rows, nextId)
    ensures var due := DueRows(rows, repoId, maxRetries);
            && (forall r :: r in due <==> r in rows && r.repoId == repoId && r.retryCount < maxRetries)
            && IdsRise(due)
  {
    DueMembers(rows, repoId, maxRetries);
    DueInOrder(rows, repoId, maxRetries);
  }

  lemma {:induction false} DueInOrder(rows: seq<Row>, repoId: string, maxRetries: nat)
    requires forall i, k :: 0 <= i < k < |rows| ==> Apart(rows[i], rows[k])
    ensures IdsRise(DueRows(rows, repoId, maxRetries))
  {
    if |rows| > 0 {
      var rest := DueRows(rows[1..], repoId, maxRetries);
      DueInOrder(rows[1..], repoId, maxRetries);
      DueMembers(rows[1..], repoId, maxRetries);
      forall k | 0 <= k < |rest| ensures rows[0].id < rest[k].id {
        assert rest[k] in rest;
        var j :| 0 <= j < |rows[1..]| && rows[1..][j] == rest[k];
        assert Apart(rows[0], rows[j + 1]);
      }
    }
  }
}
