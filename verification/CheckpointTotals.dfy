/** How the checkpoint summary follows what is done to the file index. */
module CheckpointTotals {
  import opened Wrappers
  import opened Checkpoints

  /** What the summary says of a repository, apart from the five buckets' sum. */
  datatype Summary = Summary(
    completed: nat, failed: nat, pending: nat, processing: nat, skipped: nat, chunks: nat, symbols: nat)

  function SummaryOf(rows: seq<FileRow>, repoId: string): Summary {
    Summary(CountStatus(rows, repoId, Completed), CountStatus(rows, repoId, Failed), CountStatus(rows, repoId, Pending),
            CountStatus(rows, repoId, Processing), CountStatus(rows, repoId, Skipped),
            ChunkTotal(rows, repoId), SymbolTotal(rows, repoId))
  }

  const NOTHING := Summary(0, 0, 0, 0, 0, 0, 0)

  function Plus(a: Summary, b: Summary): Summary {
    Summary(a.completed + b.completed, a.failed + b.failed, a.pending + b.pending, a.processing + b.processing,
            a.skipped + b.skipped, a.chunks + b.chunks, a.symbols + b.symbols)
  }

  /** What one row adds: one to its bucket, and its chunks and symbols when it is completed. */
  function Share(r: FileRow): Summary {
    match r.status
    case Completed => NOTHING.(completed := 1, chunks := r.chunkCount, symbols := r.symbolCount)
    case Failed => NOTHING.(failed := 1)
    case Pending => NOTHING.(pending := 1)
    case Processing => NOTHING.(processing := 1)
    case Skipped => NOTHING.(skipped := 1)
  }

  lemma SummaryCons(x: FileRow, rest: seq<FileRow>, repoId: string)
    ensures SummaryOf([x] + rest, repoId)
            == if x.repoId == repoId then Plus(Share(x), SummaryOf(rest, repoId)) else SummaryOf(rest, repoId)
  {
    assert ([x] + rest)[0] == x && ([x] + rest)[1..] == rest;
  }

  lemma {:induction false} SummaryUpdate(rows: seq<FileRow>, at: nat, row: FileRow, repoId: string)
    requires at < |rows| && row.repoId == rows[at].repoId
    ensures if row.repoId == repoId
            then Plus(SummaryOf(rows[at := row], repoId), Share(rows[at])) == Plus(SummaryOf(rows, repoId), Share(row))
            else SummaryOf(rows[at := row], repoId) == SummaryOf(rows, repoId)
  {
    hide SummaryOf, Share;
    var rest := rows[1..];
    assert rows == [rows[0]] + rest;
    SummaryCons(rows[0], rest, repoId);
    if at == 0 {
      assert rows[at := row] == [row] + rest;
      SummaryCons(row, rest, repoId);
    } else {
      assert rows[at := row] == [rows[0]] + rest[at - 1 := row];
      SummaryCons(rows[0], rest[at - 1 := row], repoId);
      SummaryUpdate(rest, at - 1, row, repoId);
    }
  }

  lemma {:induction false} SummaryAppend(rows: seq<FileRow>, row: FileRow, repoId: string)
    ensures SummaryOf(rows + [row], repoId)
            == if row.repoId == repoId then Plus(SummaryOf(rows, repoId), Share(row)) else SummaryOf(rows, repoId)
  {
    if |rows| == 0 {
      assert rows + [row] == [row] + [];
      SummaryCons(row, [], repoId);
    } else {
      hide SummaryOf, Share;
      assert rows == [rows[0]] + rows[1..] && rows + [row] == [rows[0]] + (rows[1..] + [row]);
      SummaryCons(rows[0], rows[1..], repoId);
      SummaryCons(rows[0], rows[1..] + [row], repoId);
      SummaryAppend(rows[1..], row, repoId);
    }
  }

  /** An upsert that works adds the row's share to its own repository's summary, in place
      of the share of the row it replaces, and changes no other summary. */
  lemma UpsertMovesSummary(rows: seq<FileRow>, row: FileRow, db: Database, repoId: string)
    ensures var rows' := Upserted(rows, row, db);
            var at := Find(rows, row.repoId, row.path);
            if UpsertWorks(rows, row, db) && row.repoId == repoId
            then Plus(SummaryOf(rows', repoId), if at < |rows| then Share(rows[at]) else NOTHING)
                 == Plus(SummaryOf(rows, repoId), Share(row))
            else SummaryOf(rows', repoId) == SummaryOf(rows, repoId)
  {
    hide SummaryOf, Share;
    var at := Find(rows, row.repoId, row.path);
    if at < |rows| {
      SummaryUpdate(rows, at, row, repoId);
    } else {
      SummaryAppend(rows, row, repoId);
    }
  }

  /** An empty index has an empty summary, and clearing empties the repository's alone. */
  lemma {:induction false} DropEmptiesSummary(rows: seq<FileRow>, repoId: string, other: string)
    ensures SummaryOf([], repoId) == NOTHING
    ensures SummaryOf(Dropped(rows, repoId), other) == if other == repoId then NOTHING else SummaryOf(rows, other)
  {
    if |rows| > 0 {
      var rest := rows[1..];
      assert rows == [rows[0]] + rest;
      SummaryCons(rows[0], rest, other);
      SummaryCons(rows[0], Dropped(rest, repoId), other);
      DropEmptiesSummary(rest, repoId, other);
      hide SummaryOf, Share;
    }
  }

  /** The repository was there from the start and never deleted, or it was created at `j`. */
  ghost predicate CreatedAt(x: Index, repoId: string, events: seq<Event>, j: int) {
    && -1 <= j < |events|
    && (if j == -1 then repoId in x.db.live else events[j] == AddRepository)
    && forall i :: j < i < |events| ==> events[i] != DeleteRepository
  }

  /** A repository exists during a schedule exactly from a creation to the next deletion,
      and the other repositories and the columns are as before. */
  lemma {:induction false} LiveBetween(x: Index, repoId: string, events: seq<Event>)
    ensures var db := AfterAll(x, repoId, events).db;
            && (repoId in db.live <==> exists j :: CreatedAt(x, repoId, events, j))
            && db.hasUpdatedAt == x.db.hasUpdatedAt
            && forall other :: other != repoId ==> (other in db.live <==> other in x.db.live)
    decreases |events|
  {
    hide AfterSession, Dropped;
    if |events| == 0 {
      if repoId in x.db.live {
        assert CreatedAt(x, repoId, events, -1);
      }
    } else {
      var n := |events| - 1;
      var before := events[..n];
      LiveBetween(x, repoId, before);
      if events[n] == AddRepository {
        assert CreatedAt(x, repoId, events, n);
      } else if events[n] != DeleteRepository && repoId in AfterAll(x, repoId, before).db.live {
        var j :| CreatedAt(x, repoId, before, j);
        assert CreatedAt(x, repoId, events, j);
      }
      forall j | CreatedAt(x, repoId, events, j) && j < n
        ensures CreatedAt(x, repoId, before, j)
      {
      }
    }
  }
}
