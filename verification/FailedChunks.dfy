/** Chunks whose embedding failed: retry counting, hand-out and clearing. Rows belong to
    repositories that exist, and go when theirs is deleted. */
module FailedChunks {
  import opened Wrappers

  datatype Chunk = Chunk(
    chunkId: string, filePath: string, content: string, startLine: Option<int>, endLine: Option<int>,
    chunkType: Option<string>, language: Option<string>, metadata: map<string, string>)

  datatype Row = Row(id: nat, repoId: string, chunk: Chunk, error: string, retryCount: nat)

  type Errors = map<nat, string>

  function ErrorAt(errors: Errors, i: nat): string {
    if i in errors then errors[i] else "Unknown error"
  }

  predicate IsRow(r: Row, repoId: string, chunkId: string) {
    r.repoId == repoId && r.chunk.chunkId == chunkId
  }

  /** Position of the row of a chunk, or the length. */
  function Find(rows: seq<Row>, repoId: string, chunkId: string): (k: nat)
    ensures k <= |rows|
    ensures k < |rows| ==> IsRow(rows[k], repoId, chunkId)
    ensures forall j :: 0 <= j < k ==> !IsRow(rows[j], repoId, chunkId)
  {
    if |rows| == 0 || IsRow(rows[0], repoId, chunkId) then 0 else 1 + Find(rows[1..], repoId, chunkId)
  }

  /** An update keeps the path and lines of the first failure. */
  function Updated(r: Row, c: Chunk, error: string): Row {
    var latest := r.chunk.(
      content := c.content, chunkType := c.chunkType, language := c.language, metadata := c.metadata);
    r.(chunk := latest, error := error, retryCount := r.retryCount + 1)
  }

  /** The state of one save: rows changed at once, and new rows kept back until the
      flush, so that lookups do not see them. */
  datatype Batch = Batch(rows: seq<Row>, pending: seq<Row>)

  function SaveOne(b: Batch, repoId: string, c: Chunk, error: string, nextId: nat): Batch {
    var at := Find(b.rows, repoId, c.chunkId);
    if at < |b.rows| then b.(rows := b.rows[at := Updated(b.rows[at], c, error)])
    else b.(pending := b.pending + [Row(nextId + |b.pending|, repoId, c, error, 1)])
  }

  function SaveFrom(b: Batch, repoId: string, chunks: seq<Chunk>, errors: Errors, i: nat, nextId: nat): Batch
    requires i <= |chunks|
    decreases |chunks| - i
  {
    if i == |chunks| then b
    else SaveFrom(SaveOne(b, repoId, chunks[i], ErrorAt(errors, i), nextId), repoId, chunks, errors, i + 1, nextId)
  }

  /** A unique key met twice among the new rows makes the flush fail. */
  ghost predicate Repeats(rows: seq<Row>) {
    exists i, k :: 0 <= i < k < |rows| && SameKey(rows[i], rows[k])
  }

  /** The flush fails on a key that repeats, or on a row of no live repository. */
  ghost predicate FlushFails(pending: seq<Row>, live: set<string>) {
    Repeats(pending) || !Owned(pending, live)
  }

  /** The foreign key. */
  predicate Owned(rows: seq<Row>, live: set<string>) {
    forall k :: 0 <= k < |rows| ==> rows[k].repoId in live
  }

  function AfterSave(rows: seq<Row>, repoId: string, chunks: seq<Chunk>, errors: Errors, nextId: nat): Batch {
    SaveFrom(Batch(rows, []), repoId, chunks, errors, 0, nextId)
  }

  predicate Cleared(r: Row, repoId: string, chunkIds: seq<string>) {
    r.repoId == repoId && (|chunkIds| == 0 || r.chunk.chunkId in chunkIds)
  }

  /** An empty id list, like none at all, clears the whole repository. */
  function AfterClear(rows: seq<Row>, repoId: string, chunkIds: seq<string>): seq<Row> {
    if |rows| == 0 then []
    else if Cleared(rows[0], repoId, chunkIds) then AfterClear(rows[1..], repoId, chunkIds)
    else [rows[0]] + AfterClear(rows[1..], repoId, chunkIds)
  }

  lemma AfterClearFrom(rows: seq<Row>, i: nat, repoId: string, chunkIds: seq<string>)
    requires i < |rows|
    ensures AfterClear(rows[i..], repoId, chunkIds)
            == if Cleared(rows[i], repoId, chunkIds) then AfterClear(rows[i + 1..], repoId, chunkIds)
               else [rows[i]] + AfterClear(rows[i + 1..], repoId, chunkIds)
  {
    assert rows[i..][1..] == rows[i + 1..];
  }

  lemma AfterClearNothing(rows: seq<Row>, repoId: string, chunkIds: seq<string>)
    ensures AfterClear(rows[|rows|..], repoId, chunkIds) == []
    ensures rows[0..] == rows
  {
  }

  predicate Due(r: Row, repoId: string, maxRetries: nat) {
    r.repoId == repoId && r.retryCount < maxRetries
  }

  function DueRows(rows: seq<Row>, repoId: string, maxRetries: nat): seq<Row> {
    if |rows| == 0 then []
    else if Due(rows[0], repoId, maxRetries) then [rows[0]] + DueRows(rows[1..], repoId, maxRetries)
    else DueRows(rows[1..], repoId, maxRetries)
  }

  ghost predicate ValidRows(rows: seq<Row>, nextId: nat) {
    && (forall k :: 0 <= k < |rows| ==> rows[k].id < nextId && rows[k].retryCount >= 1)
    && (forall i, k :: 0 <= i < k < |rows| ==> Apart(rows[i], rows[k]))
  }

  predicate Apart(a: Row, b: Row) {
    a.id < b.id && !(a.repoId == b.repoId && a.chunk.chunkId == b.chunk.chunkId)
  }

  predicate SameKey(a: Row, b: Row) {
    a.repoId == b.repoId && a.chunk.chunkId == b.chunk.chunkId
  }

  /** What the foreign key and the unique index find out at the flush. */
  method Flush(rows: seq<Row>, live: set<string>) returns (fails: bool)
    ensures fails <==> FlushFails(rows, live)
  {
    hide SameKey;
    for k := 0 to |rows|
      invariant forall i, j :: 0 <= i < j < k ==> !SameKey(rows[i], rows[j])
      invariant Owned(rows[..k], live)
    {
      if rows[k].repoId !in live {
        return true;
      }
      for i := 0 to k
        invariant forall j :: 0 <= j < i ==> !SameKey(rows[j], rows[k])
      {
        if SameKey(rows[i], rows[k]) {
          return true;
        }
      }
    }
    fails := false;
  }

  class FailedChunkStore {
    var rows: seq<Row>
    var nextId: nat
    var live: set<string>

    ghost predicate Valid()
      reads this
    {
      ValidRows(rows, nextId) && Owned(rows, live)
    }

    constructor ()
      ensures Valid() && rows == [] && nextId == 0 && live == {}
    {
      rows, nextId, live := [], 0, {};
    }

    /** On failure nothing is committed. */
    method Save(repoId: string, chunks: seq<Chunk>, errors: Errors) returns (saved: bool)
      requires Valid()
      modifies this
      ensures Valid()
      ensures var b := AfterSave(old(rows), repoId, chunks, errors, old(nextId));
              && saved == !FlushFails(b.pending, live)
              && rows == (if saved then b.rows + b.pending else old(rows))
              && nextId == (if saved then old(nextId) + |b.pending| else old(nextId)) && live == old(live)
    {
      hide SaveOne, Apart, ValidRows;
      var b := Batch(rows, []);
      for i := 0 to |chunks|
        invariant unchanged(this)
        invariant SaveFrom(b, repoId, chunks, errors, i, nextId) == AfterSave(rows, repoId, chunks, errors, nextId)
      {
        b := SaveOne(b, repoId, chunks[i], ErrorAt(errors, i), nextId);
      }
      var fails := Flush(b.pending, live);
      saved := !fails;
      SaveKeepsValid(rows, repoId, chunks, errors, nextId);
      SaveKeepsOwned(Batch(rows, []), repoId, chunks, errors, 0, nextId, live);
      if saved {
        rows := b.rows + b.pending;
        nextId := nextId + |b.pending|;
      }
    }

    method Get(repoId: string, maxRetries: nat) returns (due: seq<Row>)
      requires Valid()
      ensures due == DueRows(rows, repoId, maxRetries)
    {
      due := [];
      for i := 0 to |rows|
        invariant due + DueRows(rows[i..], repoId, maxRetries) == DueRows(rows, repoId, maxRetries)
      {
        assert rows[i..][1..] == rows[i + 1..];
        if Due(rows[i], repoId, maxRetries) {
          due := due + [rows[i]];
        }
      }
    }

    method Clear(repoId: string, chunkIds: seq<string>) returns (count: nat)
      requires Valid()
      modifies this
      ensures Valid() && rows == AfterClear(old(rows), repoId, chunkIds) && nextId == old(nextId) && live == old(live)
      ensures count == |old(rows)| - |rows|
    {
      hide ValidRows, Cleared, AfterClear;
      ClearKeepsValid(rows, repoId, chunkIds, nextId);
      ClearKeepsOwned(rows, repoId, chunkIds, live);
      AfterClearNothing(rows, repoId, chunkIds);
      var kept := [];
      count := 0;
      for i := 0 to |rows|
        invariant unchanged(this) && count + |kept| == i
        invariant kept + AfterClear(rows[i..], repoId, chunkIds) == AfterClear(rows, repoId, chunkIds)
      {
        AfterClearFrom(rows, i, repoId, chunkIds);
        if Cleared(rows[i], repoId, chunkIds) {
          count := count + 1;
        } else {
          assert kept + ([rows[i]] + AfterClear(rows[i + 1..], repoId, chunkIds))
              == (kept + [rows[i]]) + AfterClear(rows[i + 1..], repoId, chunkIds);
          kept := kept + [rows[i]];
        }
      }
      assert kept + [] == kept;
      assert kept == AfterClear(rows, repoId, chunkIds);
      rows := kept;
    }

    method AddRepository(repoId: string)
      requires Valid()
      modifies this
      ensures Valid() && rows == old(rows) && nextId == old(nextId) && live == old(live) + {repoId}
    {
      live := live + {repoId};
    }

    /** Deleting a repository deletes its rows. */
    method DeleteRepository(repoId: string)
      requires Valid()
      modifies this
      ensures Valid() && rows == AfterClear(old(rows), repoId, []) && nextId == old(nextId)
      ensures live == old(live) - {repoId}
    {
      hide ValidRows, AfterClear;
      ClearedIsGone(rows, repoId);
      var _ := Clear(repoId, []);
      live := live - {repoId};
    }
  }

  // -------------------------------------------------------------- retry counts

  /** A chunk's retry count, zero when it has no row. */
  function Count(rows: seq<Row>, repoId: string, chunkId: string): nat {
    var at := Find(rows, repoId, chunkId);
    if at < |rows| then rows[at].retryCount else 0
  }

  function Occurrences(chunks: seq<Chunk>, i: nat, chunkId: string): nat
    requires i <= |chunks|
    decreases |chunks| - i
  {
    if i == |chunks| then 0
    else (if chunks[i].chunkId == chunkId then 1 else 0) + Occurrences(chunks, i + 1, chunkId)
  }

  /** How many of the pending rows are the chunk's. */
  function Pending(pending: seq<Row>, repoId: string, chunkId: string): nat {
    if |pending| == 0 then 0
    else Pending(pending[..|pending| - 1], repoId, chunkId)
         + (if IsRow(pending[|pending| - 1], repoId, chunkId) then 1 else 0)
  }

  /** Keys and ids of the table rows do not change while a batch is processed, and
      pending rows are new. */
  ghost predicate BatchInv(b: Batch, nextId: nat) {
    && ValidRows(b.rows, nextId)
    && (forall k :: 0 <= k < |b.pending| ==>
          b.pending[k].id == nextId + k && b.pending[k].retryCount == 1
          && Find(b.rows, b.pending[k].repoId, b.pending[k].chunk.chunkId) == |b.rows|)
  }

  lemma {:induction false} FindSameKeys(a: seq<Row>, b: seq<Row>, repoId: string, chunkId: string)
    requires |a| == |b|
    requires forall k :: 0 <= k < |a| ==> a[k].repoId == b[k].repoId && a[k].chunk.chunkId == b[k].chunk.chunkId
    ensures Find(a, repoId, chunkId) == Find(b, repoId, chunkId)
  {
    if |a| > 0 {
      FindSameKeys(a[1..], b[1..], repoId, chunkId);
    }
  }

  lemma SaveOneFind(b: Batch, repoId: string, c: Chunk, error: string, nextId: nat, otherRepo: string, other: string)
    ensures Find(SaveOne(b, repoId, c, error, nextId).rows, otherRepo, other) == Find(b.rows, otherRepo, other)
    ensures |SaveOne(b, repoId, c, error, nextId).rows| == |b.rows|
  {
    FindSameKeys(SaveOne(b, repoId, c, error, nextId).rows, b.rows, otherRepo, other);
  }

  lemma SaveOneInv(b: Batch, repoId: string, c: Chunk, error: string, nextId: nat)
    requires BatchInv(b, nextId)
    ensures BatchInv(SaveOne(b, repoId, c, error, nextId), nextId)
  {
    var b' := SaveOne(b, repoId, c, error, nextId);
    forall k | 0 <= k < |b'.pending|
      ensures Find(b'.rows, b'.pending[k].repoId, b'.pending[k].chunk.chunkId) == |b'.rows|
    {
      SaveOneFind(b, repoId, c, error, nextId, b'.pending[k].repoId, b'.pending[k].chunk.chunkId);
    }
  }

  lemma {:induction false} SaveFromInv(
        b: Batch, repoId: string, chunks: seq<Chunk>, errors: Errors, i: nat, nextId: nat)
    requires BatchInv(b, nextId) && i <= |chunks|
    ensures BatchInv(SaveFrom(b, repoId, chunks, errors, i, nextId), nextId)
    decreases |chunks| - i
  {
    hide BatchInv, SaveOne;
    if i < |chunks| {
      SaveOneInv(b, repoId, chunks[i], ErrorAt(errors, i), nextId);
      SaveFromInv(SaveOne(b, repoId, chunks[i], ErrorAt(errors, i), nextId), repoId, chunks, errors, i + 1, nextId);
    }
  }

  lemma FindAll(rows: seq<Row>, repoId: string, chunkId: string)
    ensures Find(rows, repoId, chunkId) == |rows| <==> forall k :: 0 <= k < |rows| ==> !IsRow(rows[k], repoId, chunkId)
  {
  }

  lemma SaveKeepsValid(rows: seq<Row>, repoId: string, chunks: seq<Chunk>, errors: Errors, nextId: nat)
    requires ValidRows(rows, nextId)
    ensures var b := AfterSave(rows, repoId, chunks, errors, nextId);
            !Repeats(b.pending) ==> ValidRows(b.rows + b.pending, nextId + |b.pending|)
  {
    hide SaveFrom;
    SaveFromInv(Batch(rows, []), repoId, chunks, errors, 0, nextId);
    var b := AfterSave(rows, repoId, chunks, errors, nextId);
    if !Repeats(b.pending) {
      var all := b.rows + b.pending;
      forall i, k | 0 <= i < k < |all| ensures Apart(all[i], all[k]) {
        if i < |b.rows| <= k {
          FindAll(b.rows, all[k].repoId, all[k].chunk.chunkId);
          assert all[k] == b.pending[k - |b.rows|];
        }
      }
    }
  }

  lemma {:induction false} ClearMembers(rows: seq<Row>, repoId: string, chunkIds: seq<string>)
    ensures forall r :: r in AfterClear(rows, repoId, chunkIds) <==> r in rows && !Cleared(r, repoId, chunkIds)
  {
    if |rows| > 0 {
      ClearMembers(rows[1..], repoId, chunkIds);
      assert rows == [rows[0]] + rows[1..];
    }
  }

  lemma {:induction false} ClearKeepsValid(rows: seq<Row>, repoId: string, chunkIds: seq<string>, nextId: nat)
    requires ValidRows(rows, nextId)
    ensures ValidRows(AfterClear(rows, repoId, chunkIds), nextId)
  {
    if |rows| > 0 {
      ClearKeepsValid(rows[1..], repoId, chunkIds, nextId);
      ClearMembers(rows[1..], repoId, chunkIds);
      var rest := AfterClear(rows[1..], repoId, chunkIds);
      forall k | 0 <= k < |rest| ensures Apart(rows[0], rest[k]) {
        assert rest[k] in rows[1..];
      }
    }
  }

  lemma ClearKeepsOwned(rows: seq<Row>, repoId: string, chunkIds: seq<string>, live: set<string>)
    requires Owned(rows, live)
    ensures Owned(AfterClear(rows, repoId, chunkIds), live)
  {
    ClearMembers(rows, repoId, chunkIds);
    var rest := AfterClear(rows, repoId, chunkIds);
    forall k | 0 <= k < |rest| ensures rest[k].repoId in live {
      assert rest[k] in rest;
    }
  }

  lemma ClearedIsGone(rows: seq<Row>, repoId: string)
    ensures var rest := AfterClear(rows, repoId, []); forall k :: 0 <= k < |rest| ==> rest[k].repoId != repoId
  {
    ClearMembers(rows, repoId, []);
    var rest := AfterClear(rows, repoId, []);
    forall k | 0 <= k < |rest| ensures rest[k].repoId != repoId {
      assert rest[k] in rest;
    }
  }

  lemma {:induction false} SaveKeepsOwned(
        b: Batch, repoId: string, chunks: seq<Chunk>, errors: Errors, i: nat, nextId: nat, live: set<string>)
    requires i <= |chunks| && Owned(b.rows, live)
    ensures Owned(SaveFrom(b, repoId, chunks, errors, i, nextId).rows, live)
    decreases |chunks| - i
  {
    hide Find;
    if i < |chunks| {
      var b' := SaveOne(b, repoId, chunks[i], ErrorAt(errors, i), nextId);
      SaveKeepsOwned(b', repoId, chunks, errors, i + 1, nextId, live);
    }
  }

  lemma SaveOneCounts(b: Batch, repoId: string, c: Chunk, error: string, nextId: nat, chunkId: string)
    requires BatchInv(b, nextId)
    ensures var b' := SaveOne(b, repoId, c, error, nextId);
            && Count(b'.rows, repoId, chunkId) + Pending(b'.pending, repoId, chunkId)
               == Count(b.rows, repoId, chunkId) + Pending(b.pending, repoId, chunkId)
                  + (if c.chunkId == chunkId then 1 else 0)
            && (forall other, id :: other != repoId ==>
                  Count(b'.rows, other, id) == Count(b.rows, other, id)
                    && Pending(b'.pending, other, id) == Pending(b.pending, other, id))
  {
    hide BatchInv, Find;
    var b' := SaveOne(b, repoId, c, error, nextId);
    forall r, id ensures Find(b'.rows, r, id) == Find(b.rows, r, id) && |b'.rows| == |b.rows| {
      SaveOneFind(b, repoId, c, error, nextId, r, id);
    }
    if |b'.pending| > |b.pending| {
      assert b'.pending[..|b.pending|] == b.pending;
    }
  }

  lemma {:induction false} SaveFromCounts(
        b: Batch, repoId: string, chunks: seq<Chunk>, errors: Errors, i: nat, nextId: nat, chunkId: string)
    requires BatchInv(b, nextId) && i <= |chunks|
    ensures var e := SaveFrom(b, repoId, chunks, errors, i, nextId);
            && Count(e.rows, repoId, chunkId) + Pending(e.pending, repoId, chunkId)
               == Count(b.rows, repoId, chunkId) + Pending(b.pending, repoId, chunkId) + Occurrences(chunks, i, chunkId)
            && (Count(e.rows, repoId, chunkId) == 0 <==> Count(b.rows, repoId, chunkId) == 0)
            && (forall other, id :: other != repoId ==>
                  Count(e.rows, other, id) == Count(b.rows, other, id)
                    && Pending(e.pending, other, id) == Pending(b.pending, other, id))
    decreases |chunks| - i
  {
    hide BatchInv, SaveOne, Count, Pending;
    if i < |chunks| {
      var b' := SaveOne(b, repoId, chunks[i], ErrorAt(errors, i), nextId);
      SaveOneInv(b, repoId, chunks[i], ErrorAt(errors, i), nextId);
      SaveOneCounts(b, repoId, chunks[i], ErrorAt(errors, i), nextId, chunkId);
      SaveOneKeepsPresence(b, repoId, chunks[i], ErrorAt(errors, i), nextId, chunkId);
      SaveFromCounts(b', repoId, chunks, errors, i + 1, nextId, chunkId);
    }
  }

  lemma SaveOneKeepsPresence(b: Batch, repoId: string, c: Chunk, error: string, nextId: nat, chunkId: string)
    requires BatchInv(b, nextId)
    ensures Count(SaveOne(b, repoId, c, error, nextId).rows, repoId, chunkId) == 0 <==>
            Count(b.rows, repoId, chunkId) == 0
  {
    SaveOneFind(b, repoId, c, error, nextId, repoId, chunkId);
  }

  lemma {:induction false} PendingCounts(p: seq<Row>, repoId: string, chunkId: string)
    ensures Pending(p, repoId, chunkId) == 0 <==> forall k :: 0 <= k < |p| ==> !IsRow(p[k], repoId, chunkId)
    ensures Pending(p, repoId, chunkId) >= 2 <==>
              exists i, k :: 0 <= i < k < |p| && IsRow(p[i], repoId, chunkId) && IsRow(p[k], repoId, chunkId)
  {
    if |p| > 0 {
      var init, last := p[..|p| - 1], p[|p| - 1];
      PendingCounts(init, repoId, chunkId);
      assert forall k :: 0 <= k < |init| ==> init[k] == p[k];
      if IsRow(last, repoId, chunkId) && Pending(init, repoId, chunkId) > 0 {
        var i :| 0 <= i < |init| && IsRow(init[i], repoId, chunkId);
        assert IsRow(p[i], repoId, chunkId) && IsRow(p[|p| - 1], repoId, chunkId);
      }
      if i, k :| 0 <= i < k < |p| && IsRow(p[i], repoId, chunkId) && IsRow(p[k], repoId, chunkId) {
        assert IsRow(init[i], repoId, chunkId);
        if k < |p| - 1 {
          assert IsRow(init[k], repoId, chunkId);
        }
      }
    }
  }

  lemma {:induction false} FindConcat(a: seq<Row>, b: seq<Row>, repoId: string, chunkId: string)
    ensures Find(a + b, repoId, chunkId)
            == if Find(a, repoId, chunkId) < |a| then Find(a, repoId, chunkId) else |a| + Find(b, repoId, chunkId)
  {
    if |a| == 0 {
      assert a + b == b;
    } else {
      assert (a + b)[0] == a[0] && (a + b)[1..] == a[1..] + b;
      FindConcat(a[1..], b, repoId, chunkId);
    }
  }

  /** What the pending rows of a save are, per chunk. */
  lemma PendingAfterSave(
        rows: seq<Row>, repoId: string, chunks: seq<Chunk>, errors: Errors, nextId: nat, chunkId: string)
    requires ValidRows(rows, nextId)
    ensures var b := AfterSave(rows, repoId, chunks, errors, nextId);
            && Pending(b.pending, repoId, chunkId)
               == (if Count(rows, repoId, chunkId) == 0 then Occurrences(chunks, 0, chunkId) else 0)
            && (forall other, id :: other != repoId ==> Pending(b.pending, other, id) == 0)
  {
    hide SaveFrom;
    var start := Batch(rows, []);
    var b := AfterSave(rows, repoId, chunks, errors, nextId);
    SaveFromInv(start, repoId, chunks, errors, 0, nextId);
    SaveFromCounts(start, repoId, chunks, errors, 0, nextId, chunkId);
    PendingCounts(b.pending, repoId, chunkId);
    if Count(rows, repoId, chunkId) > 0 {
      assert Find(b.rows, repoId, chunkId) < |b.rows|;
    }
  }

  /** A chunk new to the table that stands in the batch twice, or whose repository does
      not exist. */
  ghost predicate Refused(rows: seq<Row>, repoId: string, chunks: seq<Chunk>, live: set<string>, chunkId: string) {
    Count(rows, repoId, chunkId) == 0
    && Occurrences(chunks, 0, chunkId) > (if repoId in live then 1 else 0)
  }

  /** A save fails exactly when some chunk is new to the table and stands in it twice, or
      is new to the table of an unknown repository. */
  lemma SaveFailsExactlyWhen(
        rows: seq<Row>, repoId: string, chunks: seq<Chunk>, errors: Errors, nextId: nat, live: set<string>)
    requires ValidRows(rows, nextId)
    ensures FlushFails(AfterSave(rows, repoId, chunks, errors, nextId).pending, live)
            <==> exists chunkId :: Refused(rows, repoId, chunks, live, chunkId)
  {
    hide SaveFrom, AfterSave, Count, Pending, Occurrences, ValidRows, Repeats, Owned;
    var p := AfterSave(rows, repoId, chunks, errors, nextId).pending;
    if Repeats(p) {
      var id := RepeatedId(p, repoId, rows, chunks, errors, nextId);
      assert Refused(rows, repoId, chunks, live, id);
    }
    if !Owned(p, live) {
      var id := OrphanId(p, live, repoId, rows, chunks, errors, nextId);
      assert Refused(rows, repoId, chunks, live, id);
    }
    if chunkId :| Refused(rows, repoId, chunks, live, chunkId) {
      PendingAfterSave(rows, repoId, chunks, errors, nextId, chunkId);
      PendingFails(p, repoId, live, chunkId);
    }
  }

  lemma RepeatedId(
        p: seq<Row>, repoId: string, rows: seq<Row>, chunks: seq<Chunk>, errors: Errors, nextId: nat)
    returns (id: string)
    requires ValidRows(rows, nextId) && p == AfterSave(rows, repoId, chunks, errors, nextId).pending && Repeats(p)
    ensures Count(rows, repoId, id) == 0 && Occurrences(chunks, 0, id) >= 2
  {
    hide SaveFrom, AfterSave, Count, Pending, Occurrences, ValidRows;
    var i, k :| 0 <= i < k < |p| && SameKey(p[i], p[k]);
    id := p[i].chunk.chunkId;
    PendingCounts(p, p[i].repoId, id);
    assert IsRow(p[i], p[i].repoId, id) && IsRow(p[k], p[i].repoId, id);
    PendingAfterSave(rows, repoId, chunks, errors, nextId, id);
  }

  lemma OrphanId(
        p: seq<Row>, live: set<string>, repoId: string, rows: seq<Row>, chunks: seq<Chunk>, errors: Errors,
        nextId: nat)
    returns (id: string)
    requires ValidRows(rows, nextId) && p == AfterSave(rows, repoId, chunks, errors, nextId).pending
    requires !Owned(p, live)
    ensures repoId !in live && Count(rows, repoId, id) == 0 && Occurrences(chunks, 0, id) >= 1
  {
    hide SaveFrom, AfterSave, Count, Pending, Occurrences, ValidRows;
    var k :| 0 <= k < |p| && p[k].repoId !in live;
    id := p[k].chunk.chunkId;
    PendingCounts(p, p[k].repoId, id);
    assert IsRow(p[k], p[k].repoId, id);
    PendingAfterSave(rows, repoId, chunks, errors, nextId, id);
  }

  lemma PendingFails(p: seq<Row>, repoId: string, live: set<string>, chunkId: string)
    requires Pending(p, repoId, chunkId) > (if repoId in live then 1 else 0)
    ensures FlushFails(p, live)
  {
    hide Pending;
    PendingCounts(p, repoId, chunkId);
    if repoId in live {
      var i, k :| 0 <= i < k < |p| && IsRow(p[i], repoId, chunkId) && IsRow(p[k], repoId, chunkId);
      assert SameKey(p[i], p[k]);
    }
  }

  /** A save that succeeds raises every count by the chunk's occurrences, and
      touches no other repository. */
  lemma SaveCounts(rows: seq<Row>, repoId: string, chunks: seq<Chunk>, errors: Errors, nextId: nat, chunkId: string)
    requires ValidRows(rows, nextId)
    requires !Repeats(AfterSave(rows, repoId, chunks, errors, nextId).pending)
    ensures var b := AfterSave(rows, repoId, chunks, errors, nextId);
            && Count(b.rows + b.pending, repoId, chunkId) == Count(rows, repoId, chunkId)
               + Occurrences(chunks, 0, chunkId)
            && (forall other :: other != repoId ==>
                 Count(b.rows + b.pending, other, chunkId) == Count(rows, other, chunkId))
  {
    hide SaveFrom, Pending, Occurrences;
    var start := Batch(rows, []);
    var b := AfterSave(rows, repoId, chunks, errors, nextId);
    SaveFromInv(start, repoId, chunks, errors, 0, nextId);
    SaveFromCounts(start, repoId, chunks, errors, 0, nextId, chunkId);
    PendingAfterSave(rows, repoId, chunks, errors, nextId, chunkId);
    forall r
      ensures Count(b.rows + b.pending, r, chunkId) == Count(b.rows, r, chunkId) + Pending(b.pending, r, chunkId)
    {
      CountConcat(b, nextId, r, chunkId);
    }
    assert Pending([], repoId, chunkId) == 0 by {
      PendingCounts([], repoId, chunkId);
    }
  }

  lemma CountConcat(b: Batch, nextId: nat, repoId: string, chunkId: string)
    requires BatchInv(b, nextId) && !Repeats(b.pending)
    ensures Count(b.rows + b.pending, repoId, chunkId) == Count(b.rows, repoId, chunkId)
            + Pending(b.pending, repoId, chunkId)
  {
    hide Find, Pending;
    FindConcat(b.rows, b.pending, repoId, chunkId);
    PendingCounts(b.pending, repoId, chunkId);
    FindAll(b.pending, repoId, chunkId);
    var at := Find(b.pending, repoId, chunkId);
    if at < |b.pending| {
      assert IsRow(b.pending[at], repoId, chunkId);
    }
  }

  lemma {:induction false} ClearCounts(
        rows: seq<Row>, repoId: string, chunkIds: seq<string>, r: string, chunkId: string)
    ensures Count(AfterClear(rows, repoId, chunkIds), r, chunkId)
            == if r == repoId && (|chunkIds| == 0 || chunkId in chunkIds) then 0 else Count(rows, r, chunkId)
  {
    if |rows| > 0 {
      var rest := rows[1..];
      assert rows == [rows[0]] + rest;
      CountCons(rows[0], rest, r, chunkId);
      CountCons(rows[0], AfterClear(rest, repoId, chunkIds), r, chunkId);
      ClearCounts(rest, repoId, chunkIds, r, chunkId);
      hide Count;
    } else {
      CountEmpty(r, chunkId);
    }
  }

  lemma CountCons(x: Row, rest: seq<Row>, repoId: string, chunkId: string)
    ensures Count([x] + rest, repoId, chunkId)
            == if IsRow(x, repoId, chunkId) then x.retryCount else Count(rest, repoId, chunkId)
  {
    assert ([x] + rest)[0] == x && ([x] + rest)[1..] == rest;
  }

  // ------------------------------------------------------------------ all runs

  datatype Op =
    | SaveOp(repoId: string, chunks: seq<Chunk>, errors: Errors)
    | FetchOp(repoId: string)
    | ClearOp(repoId: string, chunkIds: seq<string>)
    | AddOp(repoId: string)
    | DeleteOp(repoId: string)

  datatype Table = Table(rows: seq<Row>, nextId: nat, live: set<string>)

  /** The table after an operation; a failed save changes nothing. */
  ghost function Step(t: Table, op: Op): Table {
    match op
    case SaveOp(repoId, chunks, errors) => (
      var b := AfterSave(t.rows, repoId, chunks, errors, t.nextId);
      if FlushFails(b.pending, t.live) then t else Table(b.rows + b.pending, t.nextId + |b.pending|, t.live))
    case FetchOp(_) => t
    case ClearOp(repoId, chunkIds) => t.(rows := AfterClear(t.rows, repoId, chunkIds))
    case AddOp(repoId) => t.(live := t.live + {repoId})
    case DeleteOp(repoId) => t.(rows := AfterClear(t.rows, repoId, []), live := t.live - {repoId})
  }

  ghost function After(ops: seq<Op>): Table {
    if |ops| == 0 then Table([], 0, {}) else Step(After(ops[..|ops| - 1]), ops[|ops| - 1])
  }

  /** Read off the history alone: whether the repository exists. */
  ghost predicate Lives(ops: seq<Op>, repoId: string) {
    |ops| > 0
    && match ops[|ops| - 1]
       case AddOp(r) => r == repoId || Lives(ops[..|ops| - 1], repoId)
       case DeleteOp(r) => r != repoId && Lives(ops[..|ops| - 1], repoId)
       case _ => Lives(ops[..|ops| - 1], repoId)
  }

  /** Read off the history alone: in how many saves, counted with repetitions, the
      chunk appeared since it was last cleared, by itself or with its repository. A save
      counts unless a chunk that has no saves is in it twice, or is in it at all while
      the repository does not exist. */
  ghost function SavesSinceClear(ops: seq<Op>, repoId: string, chunkId: string): nat {
    if |ops| == 0 then 0
    else
      var before := ops[..|ops| - 1];
      match ops[|ops| - 1]
      case FetchOp(_) => SavesSinceClear(before, repoId, chunkId)
      case AddOp(_) => SavesSinceClear(before, repoId, chunkId)
      case ClearOp(r, ids) =>
        if r == repoId && (|ids| == 0 || chunkId in ids) then 0 else SavesSinceClear(before, repoId, chunkId)
      case DeleteOp(r) => if r == repoId then 0 else SavesSinceClear(before, repoId, chunkId)
      case SaveOp(r, chunks, _) =>
        SavesSinceClear(before, repoId, chunkId)
        + (if r == repoId
              && forall c :: SavesSinceClear(before, repoId, c) > 0
                             || Occurrences(chunks, 0, c) <= (if Lives(before, repoId) then 1 else 0)
           then Occurrences(chunks, 0, chunkId) else 0)
  }

  lemma {:induction false} AfterValid(ops: seq<Op>)
    ensures ValidRows(After(ops).rows, After(ops).nextId)
  {
    hide ValidRows, AfterSave, AfterClear, Repeats, Owned;
    if |ops| > 0 {
      var before := ops[..|ops| - 1];
      AfterValid(before);
      var t := After(before);
      match ops[|ops| - 1]
      case SaveOp(repoId, chunks, errors) => SaveKeepsValid(t.rows, repoId, chunks, errors, t.nextId);
      case ClearOp(repoId, chunkIds) => ClearKeepsValid(t.rows, repoId, chunkIds, t.nextId);
      case DeleteOp(repoId) => ClearKeepsValid(t.rows, repoId, [], t.nextId);
      case _ =>
    } else {
      EmptyValid();
    }
  }

  lemma {:induction false} AfterLive(ops: seq<Op>, repoId: string)
    ensures repoId in After(ops).live <==> Lives(ops, repoId)
  {
    hide AfterSave, AfterClear, FlushFails;
    if |ops| > 0 {
      AfterLive(ops[..|ops| - 1], repoId);
    }
  }

  lemma EmptyValid()
    ensures ValidRows([], 0)
  {
  }

  /** In every run a chunk's retry count is the number of saves it appeared in since it
      was last cleared, by itself or with its repository. */
  lemma {:induction false} CountIsSavesSinceClear(ops: seq<Op>, repoId: string, chunkId: string)
    ensures Count(After(ops).rows, repoId, chunkId) == SavesSinceClear(ops, repoId, chunkId)
    decreases |ops|
  {
    hide ValidRows, AfterSave, AfterClear, FlushFails, Count, Occurrences, Lives;
    if |ops| == 0 {
      CountEmpty(repoId, chunkId);
    } else {
      var before := ops[..|ops| - 1];
      var t := After(before);
      AfterValid(before);
      CountIsSavesSinceClear(before, repoId, chunkId);
      match ops[|ops| - 1]
      case ClearOp(r, ids) => ClearCounts(t.rows, r, ids, repoId, chunkId);
      case DeleteOp(r) => ClearCounts(t.rows, r, [], repoId, chunkId);
      case SaveOp(r, chunks, errors) =>
        AfterLive(before, repoId);
        SaveFailsExactlyWhen(t.rows, r, chunks, errors, t.nextId, t.live);
        forall c ensures Count(t.rows, repoId, c) == SavesSinceClear(before, repoId, c) {
          CountIsSavesSinceClear(before, repoId, c);
        }
        if !FlushFails(AfterSave(t.rows, r, chunks, errors, t.nextId).pending, t.live) {
          FlushedIsDistinct(AfterSave(t.rows, r, chunks, errors, t.nextId).pending, t.live);
          SaveCounts(t.rows, r, chunks, errors, t.nextId, chunkId);
          if r == repoId {
            forall c
              ensures SavesSinceClear(before, repoId, c) > 0
                      || Occurrences(chunks, 0, c) <= (if Lives(before, repoId) then 1 else 0)
            {
              assert !Refused(t.rows, r, chunks, t.live, c);
            }
          }
        }
      case _ =>
    }
  }

  lemma FlushedIsDistinct(pending: seq<Row>, live: set<string>)
    requires !FlushFails(pending, live)
    ensures !Repeats(pending)
  {
  }

  lemma CountEmpty(repoId: string, chunkId: string)
    ensures Count([], repoId, chunkId) == 0
  {
  }

  /** The chunk's record over a run: how often it was handed out since it was last
      cleared, whether it has been saved again since the last hand-out, and
      whether that was so at every hand-out. */
  datatype Tracker = Tracker(handOuts: nat, saved: bool, disciplined: bool)

  ghost function Track(ops: seq<Op>, maxRetries: nat, repoId: string, chunkId: string): Tracker {
    if |ops| == 0 then Tracker(0, false, true)
    else
      var before := ops[..|ops| - 1];
      var k := Track(before, maxRetries, repoId, chunkId);
      var count := SavesSinceClear(before, repoId, chunkId);
      match ops[|ops| - 1]
      case FetchOp(r) =>
        if r == repoId && 0 < count < maxRetries then Tracker(k.handOuts + 1, false, k.disciplined && k.saved) else k
      case SaveOp(_, _, _) => if SavesSinceClear(ops, repoId, chunkId) > count then k.(saved := true) else k
      case AddOp(_) => k
      case _ => if SavesSinceClear(ops, repoId, chunkId) == 0 then k.(handOuts := 0, saved := false) else k
  }

  /** The hand-out test of `Track` is what a fetch really returns. */
  lemma FetchedExactlyWhen(
        rows: seq<Row>, nextId: nat, repoId: string, maxRetries: nat, chunkId: string)
    requires ValidRows(rows, nextId)
    ensures (exists r :: r in DueRows(rows, repoId, maxRetries) && r.chunk.chunkId == chunkId)
            <==> 0 < Count(rows, repoId, chunkId) < maxRetries
  {
    DueMembers(rows, repoId, maxRetries);
    var at := Find(rows, repoId, chunkId);
    if at < |rows| && rows[at].retryCount < maxRetries {
      assert rows[at] in rows && Due(rows[at], repoId, maxRetries);
      assert rows[at] in DueRows(rows, repoId, maxRetries);
    }
    if r :| r in DueRows(rows, repoId, maxRetries) && r.chunk.chunkId == chunkId {
      var k :| 0 <= k < |rows| && rows[k] == r;
      assert IsRow(rows[k], repoId, chunkId);
      if at < k {
        assert Apart(rows[at], rows[k]);
      }
    }
  }

  lemma {:induction false} DueMembers(rows: seq<Row>, repoId: string, maxRetries: nat)
    ensures forall r :: r in DueRows(rows, repoId, maxRetries) <==> r in rows && Due(r, repoId, maxRetries)
  {
    if |rows| > 0 {
      DueMembers(rows[1..], repoId, maxRetries);
      assert rows == [rows[0]] + rows[1..];
    }
  }

  /** A chunk that is saved again after every hand-out is handed out at most
      `maxRetries - 1` times before it is cleared. */
  lemma {:induction false} HandOutsBounded(ops: seq<Op>, maxRetries: nat, repoId: string, chunkId: string)
    requires Track(ops, maxRetries, repoId, chunkId).disciplined
    ensures var k := Track(ops, maxRetries, repoId, chunkId);
            && k.handOuts <= (if maxRetries > 0 then maxRetries - 1 else 0)
            && k.handOuts + (if k.saved then 1 else 0) <= SavesSinceClear(ops, repoId, chunkId)
    decreases |ops|
  {
    hide Occurrences;
    if |ops| > 0 {
      var before := ops[..|ops| - 1];
      HandOutsBounded(before, maxRetries, repoId, chunkId);
    }
  }

  // ------------------------------------------- rounds that re-save or clear

  /** Retries left, summed over a repository's rows. */
  function Remaining(rows: seq<Row>, repoId: string, maxRetries: nat): nat {
    if |rows| == 0 then 0
    else (if Due(rows[0], repoId, maxRetries) then maxRetries - rows[0].retryCount else 0)
         + Remaining(rows[1..], repoId, maxRetries)
  }

  lemma {:induction false} UpdateRemaining(
        rows: seq<Row>, at: nat, c: Chunk, error: string, repoId: string, maxRetries: nat)
    requires at < |rows| && Due(rows[at], repoId, maxRetries)
    ensures Remaining(rows[at := Updated(rows[at], c, error)], repoId, maxRetries) + 1
            == Remaining(rows, repoId, maxRetries)
  {
    var rows' := rows[at := Updated(rows[at], c, error)];
    if at > 0 {
      UpdateRemaining(rows[1..], at - 1, c, error, repoId, maxRetries);
      assert rows'[1..] == rows[1..][at - 1 := Updated(rows[at], c, error)];
    } else {
      assert rows'[1..] == rows[1..];
    }
  }

  /** From position `i` on, distinct chunks that are all due. */
  ghost predicate AllDue(rows: seq<Row>, repoId: string, maxRetries: nat, chunks: seq<Chunk>, i: nat) {
    && (forall k :: i <= k < |chunks| ==>
          var at := Find(rows, repoId, chunks[k].chunkId); at < |rows| && Due(rows[at], repoId, maxRetries))
    && (forall j, k :: 0 <= j < k < |chunks| ==> chunks[j].chunkId != chunks[k].chunkId)
  }

  lemma {:induction false} SaveRemaining(
        b: Batch, repoId: string, chunks: seq<Chunk>, errors: Errors, i: nat, nextId: nat, maxRetries: nat)
    requires i <= |chunks| && AllDue(b.rows, repoId, maxRetries, chunks, i)
    ensures var e := SaveFrom(b, repoId, chunks, errors, i, nextId);
            e.pending == b.pending
            && Remaining(e.rows, repoId, maxRetries) + (|chunks| - i) == Remaining(b.rows, repoId, maxRetries)
    decreases |chunks| - i
  {
    if i < |chunks| {
      var b' := SaveOne(b, repoId, chunks[i], ErrorAt(errors, i), nextId);
      var at := Find(b.rows, repoId, chunks[i].chunkId);
      UpdateRemaining(b.rows, at, chunks[i], ErrorAt(errors, i), repoId, maxRetries);
      forall k | i + 1 <= k < |chunks|
        ensures var f := Find(b'.rows, repoId, chunks[k].chunkId); f < |b'.rows| && Due(b'.rows[f], repoId, maxRetries)
      {
        SaveOneFind(b, repoId, chunks[i], ErrorAt(errors, i), nextId, repoId, chunks[k].chunkId);
        assert chunks[i].chunkId != chunks[k].chunkId;
      }
      SaveRemaining(b', repoId, chunks, errors, i + 1, nextId, maxRetries);
    }
  }

  lemma {:induction false} ClearRemaining(rows: seq<Row>, repoId: string, chunkIds: seq<string>, maxRetries: nat)
    ensures Remaining(AfterClear(rows, repoId, chunkIds), repoId, maxRetries) <= Remaining(rows, repoId, maxRetries)
    ensures (exists r :: r in rows && Due(r, repoId, maxRetries) && Cleared(r, repoId, chunkIds)) ==>
              Remaining(AfterClear(rows, repoId, chunkIds), repoId, maxRetries) < Remaining(rows, repoId, maxRetries)
  {
    if |rows| > 0 {
      ClearRemaining(rows[1..], repoId, chunkIds, maxRetries);
      assert rows == [rows[0]] + rows[1..];
    }
  }

  predicate HasChunk(chunks: seq<Chunk>, chunkId: string) {
    exists k :: 0 <= k < |chunks| && chunks[k].chunkId == chunkId
  }

  predicate HasRow(rows: seq<Row>, chunkId: string) {
    exists k :: 0 <= k < |rows| && rows[k].chunk.chunkId == chunkId
  }

  /** Every chunk handed out is saved again or cleared; only those are saved again,
      each once. */
  predicate Settles(due: seq<Row>, again: seq<Chunk>, done: seq<string>) {
    && (forall k :: 0 <= k < |due| ==> due[k].chunk.chunkId in done || HasChunk(again, due[k].chunk.chunkId))
    && (forall k :: 0 <= k < |again| ==> HasRow(due, again[k].chunkId))
    && (forall j, k :: 0 <= j < k < |again| ==> again[j].chunkId != again[k].chunkId)
  }

  /** Save again what failed again and clear what succeeded; clearing is skipped
      when nothing succeeded. */
  ghost function AfterRound(t: Table, repoId: string, again: seq<Chunk>, errors: Errors, done: seq<string>): Table {
    var saved := Step(t, SaveOp(repoId, again, errors));
    if |done| == 0 then saved else Step(saved, ClearOp(repoId, done))
  }

  /** One such round on a non-empty batch. */
  ghost predicate IsRound(
        t: Table, repoId: string, maxRetries: nat, again: seq<Chunk>, errors: Errors, done: seq<string>, t': Table) {
    && |DueRows(t.rows, repoId, maxRetries)| > 0
    && Settles(DueRows(t.rows, repoId, maxRetries), again, done)
    && t' == AfterRound(t, repoId, again, errors, done)
  }

  lemma RoundChunksAreDue(t: Table, repoId: string, maxRetries: nat, again: seq<Chunk>, done: seq<string>)
    requires ValidRows(t.rows, t.nextId)
    requires Settles(DueRows(t.rows, repoId, maxRetries), again, done)
    ensures AllDue(t.rows, repoId, maxRetries, again, 0)
  {
    hide ValidRows, DueRows;
    var due := DueRows(t.rows, repoId, maxRetries);
    forall k | 0 <= k < |again|
      ensures var at := Find(t.rows, repoId, again[k].chunkId); at < |t.rows| && Due(t.rows[at], repoId, maxRetries)
    {
      var j :| 0 <= j < |due| && due[j].chunk.chunkId == again[k].chunkId;
      assert due[j] in due;
      FetchedExactlyWhen(t.rows, t.nextId, repoId, maxRetries, again[k].chunkId);
    }
  }

  /** Every round on a non-empty batch strictly lowers the remaining retries. */
  lemma RoundDecreases(
        t: Table, repoId: string, maxRetries: nat, again: seq<Chunk>, errors: Errors, done: seq<string>, t': Table)
    requires ValidRows(t.rows, t.nextId) && IsRound(t, repoId, maxRetries, again, errors, done, t')
    ensures ValidRows(t'.rows, t'.nextId)
    ensures Remaining(t'.rows, repoId, maxRetries) < Remaining(t.rows, repoId, maxRetries)
  {
    hide ValidRows, DueRows, SaveFrom, AfterClear, Remaining, Find;
    NothingFails(t.live);
    var saved := Step(t, SaveOp(repoId, again, errors));
    RoundChunksAreDue(t, repoId, maxRetries, again, done);
    SaveRemaining(Batch(t.rows, []), repoId, again, errors, 0, t.nextId, maxRetries);
    SaveKeepsValid(t.rows, repoId, again, errors, t.nextId);
    var b := AfterSave(t.rows, repoId, again, errors, t.nextId);
    assert saved.rows == b.rows
           && Remaining(saved.rows, repoId, maxRetries) + |again| == Remaining(t.rows, repoId, maxRetries) by {
      assert b.rows + [] == b.rows;
    }
    ClearKeepsValid(saved.rows, repoId, done, saved.nextId);
    ClearRemaining(saved.rows, repoId, done, maxRetries);
    if |again| == 0 {
      var due := DueRows(t.rows, repoId, maxRetries);
      assert due[0].chunk.chunkId in done && due[0] in due;
      DueMembers(t.rows, repoId, maxRetries);
      assert b.rows == t.rows by {
        SaveNothing(t, repoId, errors);
        assert again == [];
      }
      assert due[0] in saved.rows && Cleared(due[0], repoId, done);
    }
  }

  lemma SaveNothing(t: Table, repoId: string, errors: Errors)
    ensures AfterSave(t.rows, repoId, [], errors, t.nextId) == Batch(t.rows, [])
  {
  }

  lemma NothingFails(live: set<string>)
    ensures !FlushFails([], live)
  {
  }

  datatype Round = Round(again: seq<Chunk>, errors: Errors, done: seq<string>)

  /** So there are no more such rounds in a row than there were retries left. */
  lemma {:induction false} RoundsEnd(tables: seq<Table>, rounds: seq<Round>, repoId: string, maxRetries: nat)
    requires |tables| == |rounds| + 1 && ValidRows(tables[0].rows, tables[0].nextId)
    requires forall k :: 0 <= k < |rounds| ==>
               IsRound(tables[k], repoId, maxRetries, rounds[k].again, rounds[k].errors, rounds[k].done, tables[k + 1])
    ensures |rounds| + Remaining(tables[|rounds|].rows, repoId, maxRetries)
            <= Remaining(tables[0].rows, repoId, maxRetries)
    decreases |rounds|
  {
    hide ValidRows, IsRound, Remaining;
    if |rounds| > 0 {
      RoundDecreases(tables[0], repoId, maxRetries, rounds[0].again, rounds[0].errors, rounds[0].done, tables[1]);
      RoundsEnd(tables[1..], rounds[1..], repoId, maxRetries);
    }
  }
}
