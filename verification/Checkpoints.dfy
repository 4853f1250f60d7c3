/** The per-file index that lets an interrupted indexing run resume. */
module Checkpoints {
  import opened Wrappers

  datatype Status = Pending | Processing | Completed | Failed | Skipped

  datatype FileRow = FileRow(
    repoId: string, path: string, hash: string, status: Status, chunkCount: nat, symbolCount: nat,
    error: Option<string>)

  predicate IsRow(r: FileRow, repoId: string, path: string) {
    r.repoId == repoId && r.path == path
  }

  function Find(rows: seq<FileRow>, repoId: string, path: string): (k: nat)
    ensures k <= |rows|
    ensures k < |rows| ==> IsRow(rows[k], repoId, path)
    ensures forall j :: 0 <= j < k ==> !IsRow(rows[j], repoId, path)
  {
    if |rows| == 0 || IsRow(rows[0], repoId, path) then 0 else 1 + Find(rows[1..], repoId, path)
  }

  /** Whether the table has a modification-time column, and which repositories there are. */
  datatype Database = Database(hasUpdatedAt: bool, live: set<string>)

  /** A new row needs its repository, which is a foreign key. Updating a row also sets a
      modification time, which fails unless the table has that column. */
  predicate UpsertWorks(rows: seq<FileRow>, row: FileRow, db: Database) {
    if Find(rows, row.repoId, row.path) == |rows| then row.repoId in db.live else db.hasUpdatedAt
  }

  function Upserted(rows: seq<FileRow>, row: FileRow, db: Database): seq<FileRow> {
    var at := Find(rows, row.repoId, row.path);
    if !UpsertWorks(rows, row, db) then rows
    else if at == |rows| then rows + [row]
    else rows[at := row]
  }

  /** The table without a repository's rows. */
  function Dropped(rows: seq<FileRow>, repoId: string): seq<FileRow> {
    if |rows| == 0 then []
    else if rows[0].repoId == repoId then Dropped(rows[1..], repoId)
    else [rows[0]] + Dropped(rows[1..], repoId)
  }

  /** The composite primary key. */
  ghost predicate UniqueKeys(rows: seq<FileRow>) {
    forall i, k :: 0 <= i < k < |rows| ==> !(rows[i].repoId == rows[k].repoId && rows[i].path == rows[k].path)
  }

  /** The foreign key. */
  ghost predicate Owned(rows: seq<FileRow>, live: set<string>) {
    forall r :: r in rows ==> r.repoId in live
  }

  predicate IsCompleted(rows: seq<FileRow>, repoId: string, path: string) {
    var at := Find(rows, repoId, path);
    at < |rows| && rows[at].status.Completed?
  }

  function Remaining(rows: seq<FileRow>, repoId: string, files: seq<string>): seq<string> {
    if |files| == 0 then []
    else if IsCompleted(rows, repoId, files[0]) then Remaining(rows, repoId, files[1..])
    else [files[0]] + Remaining(rows, repoId, files[1..])
  }

  function CountStatus(rows: seq<FileRow>, repoId: string, status: Status): nat {
    if |rows| == 0 then 0
    else (if rows[0].repoId == repoId && rows[0].status == status then 1 else 0)
         + CountStatus(rows[1..], repoId, status)
  }

  function CountRows(rows: seq<FileRow>, repoId: string): nat {
    if |rows| == 0 then 0 else (if rows[0].repoId == repoId then 1 else 0) + CountRows(rows[1..], repoId)
  }

  /** Totals over the completed rows. */
  function ChunkTotal(rows: seq<FileRow>, repoId: string): nat {
    if |rows| == 0 then 0
    else (if rows[0].repoId == repoId && rows[0].status.Completed? then rows[0].chunkCount else 0)
         + ChunkTotal(rows[1..], repoId)
  }

  function SymbolTotal(rows: seq<FileRow>, repoId: string): nat {
    if |rows| == 0 then 0
    else (if rows[0].repoId == repoId && rows[0].status.Completed? then rows[0].symbolCount else 0)
         + SymbolTotal(rows[1..], repoId)
  }

  datatype Stats = Stats(
    total: nat, completed: nat, failed: nat, pending: nat, processing: nat, skipped: nat,
    totalChunks: nat, totalSymbols: nat)

  type Group = (Status, nat)

  /** The result of grouping the repository's rows by status: one group for each
      status that occurs, in any order, with its count. */
  ghost predicate IsGrouping(rows: seq<FileRow>, repoId: string, groups: seq<Group>) {
    && (forall i, k :: 0 <= i < k < |groups| ==> groups[i].0 != groups[k].0)
    && (forall k :: 0 <= k < |groups| ==> groups[k].1 == CountStatus(rows, repoId, groups[k].0) > 0)
    && (forall s: Status :: CountStatus(rows, repoId, s) > 0 ==> exists k :: 0 <= k < |groups| && groups[k].0 == s)
  }

  /** The count of a status among the first `n` groups, zero when it is not there. */
  ghost function GroupCount(groups: seq<Group>, n: nat, status: Status): nat
    requires n <= |groups|
  {
    if n == 0 then 0
    else if groups[n - 1].0 == status then groups[n - 1].1
    else GroupCount(groups, n - 1, status)
  }

  ghost function GroupTotal(groups: seq<Group>, n: nat): nat
    requires n <= |groups|
  {
    if n == 0 then 0 else GroupTotal(groups, n - 1) + groups[n - 1].1
  }

  class FileIndexStore {
    const hasUpdatedAt: bool
    var live: set<string>
    var rows: seq<FileRow>

    function Db(): Database
      reads this
    {
      Database(hasUpdatedAt, live)
    }

    ghost predicate Valid()
      reads this
    {
      UniqueKeys(rows) && Owned(rows, live)
    }

    constructor (hasUpdatedAt: bool)
      ensures Valid() && rows == [] && Db() == Database(hasUpdatedAt, {})
    {
      this.hasUpdatedAt := hasUpdatedAt;
      rows, live := [], {};
    }

    method Upsert(row: FileRow) returns (done: bool)
      requires Valid()
      modifies this
      ensures Valid() && live == old(live)
      ensures done == UpsertWorks(old(rows), row, old(Db())) && rows == Upserted(old(rows), row, old(Db()))
    {
      var at := 0;
      while at < |rows| && !IsRow(rows[at], row.repoId, row.path)
        invariant 0 <= at <= |rows|
        invariant forall j :: 0 <= j < at ==> !IsRow(rows[j], row.repoId, row.path)
      {
        at := at + 1;
      }
      UpsertKeepsKeys(rows, row, Db());
      if at == |rows| {
        done := row.repoId in live;
        if done {
          rows := rows + [row];
        }
      } else {
        done := hasUpdatedAt;
        if done {
          assert rows[at] in rows;
          rows := rows[at := row];
        }
      }
    }

    method MarkCompleted(repoId: string, path: string, hash: string, chunks: nat, symbols: nat) returns (done: bool)
      requires Valid()
      modifies this
      ensures Valid() && live == old(live)
      ensures var row := FileRow(repoId, path, hash, Completed, chunks, symbols, None);
              done == UpsertWorks(old(rows), row, old(Db())) && rows == Upserted(old(rows), row, old(Db()))
      ensures done ==> IsCompleted(rows, repoId, path)
    {
      var row := FileRow(repoId, path, hash, Completed, chunks, symbols, None);
      UpsertFinds(rows, row, Db(), repoId, path);
      done := Upsert(row);
    }

    method MarkFailed(repoId: string, path: string, hash: string, error: string) returns (done: bool)
      requires Valid()
      modifies this
      ensures Valid() && live == old(live)
      ensures var row := FileRow(repoId, path, hash, Failed, 0, 0, Some(error));
              done == UpsertWorks(old(rows), row, old(Db())) && rows == Upserted(old(rows), row, old(Db()))
      ensures done ==> !IsCompleted(rows, repoId, path)
    {
      var row := FileRow(repoId, path, hash, Failed, 0, 0, Some(error));
      UpsertFinds(rows, row, Db(), repoId, path);
      done := Upsert(row);
    }

    method Clear(repoId: string) returns (count: nat)
      requires Valid()
      modifies this
      ensures Valid() && rows == Dropped(old(rows), repoId) && live == old(live)
      ensures count == |old(rows)| - |rows|
    {
      DropForgets(rows, repoId);
      DroppedNothing(rows, repoId);
      hide UniqueKeys, Dropped, IsCompleted;
      var kept := [];
      count := 0;
      for i := 0 to |rows|
        invariant unchanged(this) && count + |kept| == i
        invariant kept + Dropped(rows[i..], repoId) == Dropped(rows, repoId)
      {
        DroppedFrom(rows, i, repoId);
        if rows[i].repoId == repoId {
          count := count + 1;
        } else {
          assert kept + ([rows[i]] + Dropped(rows[i + 1..], repoId))
              == (kept + [rows[i]]) + Dropped(rows[i + 1..], repoId);
          kept := kept + [rows[i]];
        }
      }
      assert kept + [] == kept;
      assert kept == Dropped(rows, repoId);
      rows := kept;
    }

    method AddRepository(repoId: string)
      requires Valid()
      modifies this
      ensures Valid() && rows == old(rows) && live == old(live) + {repoId}
    {
      live := live + {repoId};
    }

    /** Deleting a repository deletes its rows. */
    method DeleteRepository(repoId: string)
      requires Valid()
      modifies this
      ensures Valid() && rows == Dropped(old(rows), repoId) && live == old(live) - {repoId}
    {
      DropForgets(rows, repoId);
      var _ := Clear(repoId);
      live := live - {repoId};
    }

    method GetProcessedFiles(repoId: string) returns (paths: set<string>)
      requires Valid()
      ensures forall p :: p in paths <==> IsCompleted(rows, repoId, p)
    {
      paths := {};
      for i := 0 to |rows|
        invariant forall p :: p in paths <==>
                  exists k :: 0 <= k < i && IsRow(rows[k], repoId, p) && rows[k].status.Completed?
      {
        if rows[i].repoId == repoId && rows[i].status.Completed? {
          paths := paths + {rows[i].path};
        }
      }
      forall p ensures p in paths <==> IsCompleted(rows, repoId, p) {
        CompletedExactlyWhen(rows, repoId, p);
      }
    }

    method GetRemainingFiles(repoId: string, files: seq<string>) returns (remaining: seq<string>)
      requires Valid()
      ensures remaining == Remaining(rows, repoId, files)
    {
      var completed := GetProcessedFiles(repoId);
      remaining := [];
      for i := 0 to |files|
        invariant remaining + Remaining(rows, repoId, files[i..]) == Remaining(rows, repoId, files)
      {
        assert files[i..][1..] == files[i + 1..];
        if files[i] !in completed {
          remaining := remaining + [files[i]];
        }
      }
    }

    /** The summary, from whatever order the database returns the groups in. */
    method GetCheckpointProgress(repoId: string, groups: seq<Group>) returns (stats: Stats)
      requires Valid() && IsGrouping(rows, repoId, groups)
      ensures stats == Stats(CountRows(rows, repoId),
                             CountStatus(rows, repoId, Completed), CountStatus(rows, repoId, Failed),
                             CountStatus(rows, repoId, Pending), CountStatus(rows, repoId, Processing),
                             CountStatus(rows, repoId, Skipped),
                             ChunkTotal(rows, repoId), SymbolTotal(rows, repoId))
      ensures stats.total == stats.completed + stats.failed + stats.pending + stats.processing + stats.skipped
    {
      stats := Stats(0, 0, 0, 0, 0, 0, 0, 0);
      for i := 0 to |groups|
        invariant stats == Stats(GroupTotal(groups, i), GroupCount(groups, i, Completed), GroupCount(groups, i, Failed),
                                 GroupCount(groups, i, Pending), GroupCount(groups, i, Processing),
                                 GroupCount(groups, i, Skipped), 0, 0)
      {
        var (status, count) := groups[i];
        stats := stats.(total := stats.total + count);
        match status
        case Completed => stats := stats.(completed := count);
        case Failed => stats := stats.(failed := count);
        case Pending => stats := stats.(pending := count);
        case Processing => stats := stats.(processing := count);
        case Skipped => stats := stats.(skipped := count);
      }
      GroupingCounts(rows, repoId, groups);
      BucketsSum(rows, repoId);
      stats := stats.(totalChunks := ChunkTotal(rows, repoId), totalSymbols := SymbolTotal(rows, repoId));
    }
  }

  // ----------------------------------------------------------------- the table

  lemma UpsertKeepsKeys(rows: seq<FileRow>, row: FileRow, db: Database)
    requires UniqueKeys(rows)
    ensures UniqueKeys(Upserted(rows, row, db))
  {
    var at := Find(rows, row.repoId, row.path);
    assert forall j :: 0 <= j < at ==> !IsRow(rows[j], row.repoId, row.path);
  }

  lemma FindIs(rows: seq<FileRow>, k: nat, repoId: string, path: string)
    requires UniqueKeys(rows) && k < |rows| && IsRow(rows[k], repoId, path)
    ensures Find(rows, repoId, path) == k
  {
  }

  lemma FindNone(rows: seq<FileRow>, repoId: string, path: string)
    requires forall k :: 0 <= k < |rows| ==> !IsRow(rows[k], repoId, path)
    ensures Find(rows, repoId, path) == |rows|
  {
  }

  lemma CompletedExactlyWhen(rows: seq<FileRow>, repoId: string, path: string)
    requires UniqueKeys(rows)
    ensures IsCompleted(rows, repoId, path)
            <==> exists k :: 0 <= k < |rows| && IsRow(rows[k], repoId, path) && rows[k].status.Completed?
  {
    if k :| 0 <= k < |rows| && IsRow(rows[k], repoId, path) && rows[k].status.Completed? {
      FindIs(rows, k, repoId, path);
    }
  }

  /** An upsert that works is what a later lookup of its key finds, and it changes
      no other key; one that fails changes nothing. */
  lemma UpsertFinds(rows: seq<FileRow>, row: FileRow, db: Database, repoId: string, path: string)
    requires UniqueKeys(rows)
    ensures var rows' := Upserted(rows, row, db);
            var at := Find(rows, repoId, path);
            var at' := Find(rows', repoId, path);
            if IsRow(row, repoId, path)
            then (UpsertWorks(rows, row, db) ==> at' < |rows'| && rows'[at'] == row)
                 && (!UpsertWorks(rows, row, db) ==> rows' == rows)
            else (at < |rows| <==> at' < |rows'|) && (at < |rows| ==> at' < |rows'| && rows'[at'] == rows[at])
  {
    var rows' := Upserted(rows, row, db);
    UpsertKeepsKeys(rows, row, db);
    var at := Find(rows, repoId, path);
    var slot := Find(rows, row.repoId, row.path);
    if IsRow(row, repoId, path) {
      if UpsertWorks(rows, row, db) {
        FindIs(rows', slot, repoId, path);
      }
    } else if at < |rows| {
      FindIs(rows', at, repoId, path);
    } else {
      FindNone(rows', repoId, path);
    }
  }

  lemma DroppedFrom(rows: seq<FileRow>, i: nat, repoId: string)
    requires i < |rows|
    ensures Dropped(rows[i..], repoId)
            == if rows[i].repoId == repoId then Dropped(rows[i + 1..], repoId)
               else [rows[i]] + Dropped(rows[i + 1..], repoId)
  {
    assert rows[i..][1..] == rows[i + 1..];
  }

  lemma DroppedNothing(rows: seq<FileRow>, repoId: string)
    ensures Dropped(rows[|rows|..], repoId) == [] && rows[0..] == rows
  {
  }

  /** Dropping a repository's rows leaves exactly the rows of the others. */
  lemma {:induction false} DropForgets(rows: seq<FileRow>, repoId: string)
    ensures forall r :: r in Dropped(rows, repoId) <==> r in rows && r.repoId != repoId
    ensures UniqueKeys(rows) ==> UniqueKeys(Dropped(rows, repoId))
    ensures forall path :: !IsCompleted(Dropped(rows, repoId), repoId, path)
  {
    if |rows| > 0 {
      DropForgets(rows[1..], repoId);
      assert rows == [rows[0]] + rows[1..];
      var rest := Dropped(rows[1..], repoId);
      forall k | 0 <= k < |rest| ensures rest[k].repoId != repoId && rest[k] in rows[1..] {
        assert rest[k] in rest;
      }
    }
  }

  // -------------------------------------------------------------- the summary

  /** The five buckets add up to the number of rows. */
  lemma {:induction false} BucketsSum(rows: seq<FileRow>, repoId: string)
    ensures CountStatus(rows, repoId, Completed) + CountStatus(rows, repoId, Failed)
            + CountStatus(rows, repoId, Pending)
            + CountStatus(rows, repoId, Processing) + CountStatus(rows, repoId, Skipped) == CountRows(rows, repoId)
  {
    if |rows| > 0 {
      BucketsSum(rows[1..], repoId);
    }
  }

  lemma {:induction false} GroupCountIs(rows: seq<FileRow>, repoId: string, groups: seq<Group>, n: nat, status: Status)
    requires IsGrouping(rows, repoId, groups) && n <= |groups|
    ensures GroupCount(groups, n, status)
            == if exists k :: 0 <= k < n && groups[k].0 == status then CountStatus(rows, repoId, status) else 0
  {
    if n > 0 {
      GroupCountIs(rows, repoId, groups, n - 1, status);
      if groups[n - 1].0 == status {
        assert exists k :: 0 <= k < n && groups[k].0 == status;
      } else if k :| 0 <= k < n && groups[k].0 == status {
        assert k < n - 1;
      }
    }
  }

  lemma {:induction false} GroupTotalIs(groups: seq<Group>, n: nat)
    requires n <= |groups|
    requires forall i, k :: 0 <= i < k < |groups| ==> groups[i].0 != groups[k].0
    ensures GroupTotal(groups, n) == GroupCount(groups, n, Completed) + GroupCount(groups, n, Failed)
            + GroupCount(groups, n, Pending) + GroupCount(groups, n, Processing) + GroupCount(groups, n, Skipped)
  {
    if n > 0 {
      GroupTotalIs(groups, n - 1);
      AbsentGroup(groups, n - 1, groups[n - 1].0);
    }
  }

  lemma {:induction false} AbsentGroup(groups: seq<Group>, n: nat, status: Status)
    requires n <= |groups| && forall k :: 0 <= k < n ==> groups[k].0 != status
    ensures GroupCount(groups, n, status) == 0
  {
    if n > 0 {
      AbsentGroup(groups, n - 1, status);
    }
  }

  lemma GroupingCounts(rows: seq<FileRow>, repoId: string, groups: seq<Group>)
    requires IsGrouping(rows, repoId, groups)
    ensures forall s: Status :: GroupCount(groups, |groups|, s) == CountStatus(rows, repoId, s)
    ensures GroupTotal(groups, |groups|) == CountRows(rows, repoId)
  {
    forall s: Status ensures GroupCount(groups, |groups|, s) == CountStatus(rows, repoId, s) {
      GroupCountIs(rows, repoId, groups, |groups|, s);
    }
    GroupTotalIs(groups, |groups|);
    BucketsSum(rows, repoId);
  }

  // ------------------------------------------------------------ pause and resume

  /** Processed and remaining files partition the list, order and repetitions kept. */
  lemma {:induction false} RemainingPartitions(rows: seq<FileRow>, repoId: string, files: seq<string>)
    ensures forall f :: f in Remaining(rows, repoId, files) <==> f in files && !IsCompleted(rows, repoId, f)
    ensures var remaining := multiset(Remaining(rows, repoId, files));
            forall f :: remaining[f] == if IsCompleted(rows, repoId, f) then 0 else multiset(files)[f]
  {
    if |files| > 0 {
      RemainingPartitions(rows, repoId, files[1..]);
      assert files == [files[0]] + files[1..];
      var rest := Remaining(rows, repoId, files[1..]);
      if !IsCompleted(rows, repoId, files[0]) {
        assert Remaining(rows, repoId, files) == [files[0]] + rest;
      }
    }
  }

  /** What became of one file while a session ran. */
  datatype Outcome = Outcome(path: string, indexed: bool)

  function RowOf(repoId: string, o: Outcome): FileRow {
    FileRow(repoId, o.path, "", if o.indexed then Completed else Failed, 0, 0, None)
  }

  function AfterSession(rows: seq<FileRow>, repoId: string, session: seq<Outcome>, db: Database): seq<FileRow>
    decreases |session|
  {
    if |session| == 0 then rows
    else AfterSession(Upserted(rows, RowOf(repoId, session[0]), db), repoId, session[1..], db)
  }

  /** A session handles each of some of the files that remained when it started. */
  ghost predicate WorksOnRemaining(rows: seq<FileRow>, repoId: string, files: seq<string>, session: seq<Outcome>) {
    && (forall i, k :: 0 <= i < k < |session| ==> session[i].path != session[k].path)
    && (forall k :: 0 <= k < |session| ==> session[k].path in Remaining(rows, repoId, files))
  }

  /** How often the file was marked completed, and the mark was stored. */
  function Completions(rows: seq<FileRow>, repoId: string, session: seq<Outcome>, db: Database, path: string): nat
    decreases |session|
  {
    if |session| == 0 then 0
    else
      var o := session[0];
      (if o.path == path && o.indexed && UpsertWorks(rows, RowOf(repoId, o), db) then 1 else 0)
      + Completions(Upserted(rows, RowOf(repoId, o), db), repoId, session[1..], db, path)
  }

  lemma {:induction false} UntouchedBySession(
        rows: seq<FileRow>, repoId: string, session: seq<Outcome>, db: Database, path: string)
    requires UniqueKeys(rows) && forall k :: 0 <= k < |session| ==> session[k].path != path
    ensures UniqueKeys(AfterSession(rows, repoId, session, db))
    ensures IsCompleted(AfterSession(rows, repoId, session, db), repoId, path) <==>
            IsCompleted(rows, repoId, path)
    ensures Completions(rows, repoId, session, db, path) == 0
    decreases |session|
  {
    hide UniqueKeys, Upserted, UpsertWorks;
    if |session| > 0 {
      var row := RowOf(repoId, session[0]);
      UpsertFinds(rows, row, db, repoId, path);
      UpsertKeepsKeys(rows, row, db);
      UntouchedBySession(Upserted(rows, row, db), repoId, session[1..], db, path);
    }
  }

  /** Within a session an open file is completed at most once, and is completed
      afterwards exactly if it was completed once. */
  lemma {:induction false} SessionCompletesOnce(
        rows: seq<FileRow>, repoId: string, session: seq<Outcome>, db: Database, path: string)
    requires UniqueKeys(rows) && !IsCompleted(rows, repoId, path)
    requires forall i, k :: 0 <= i < k < |session| ==> session[i].path != session[k].path
    ensures UniqueKeys(AfterSession(rows, repoId, session, db))
    ensures Completions(rows, repoId, session, db, path)
            == if IsCompleted(AfterSession(rows, repoId, session, db), repoId, path) then 1 else 0
    decreases |session|
  {
    hide UniqueKeys, Upserted, UpsertWorks;
    if |session| > 0 {
      var row := RowOf(repoId, session[0]);
      var rows' := Upserted(rows, row, db);
      UpsertFinds(rows, row, db, repoId, path);
      UpsertKeepsKeys(rows, row, db);
      if session[0].path == path {
        UntouchedBySession(rows', repoId, session[1..], db, path);
      } else {
        SessionCompletesOnce(rows', repoId, session[1..], db, path);
      }
    }
  }

  /** What happens to a repository's index: sessions over lists of files, clearing, and
      the repository's deletion and creation. */
  datatype Event = Work(files: seq<string>, session: seq<Outcome>) | ClearIndex | DeleteRepository | AddRepository

  datatype Index = Index(rows: seq<FileRow>, db: Database)

  function AfterEvent(x: Index, repoId: string, e: Event): Index {
    match e
    case Work(_, session) => x.(rows := AfterSession(x.rows, repoId, session, x.db))
    case ClearIndex => x.(rows := Dropped(x.rows, repoId))
    case DeleteRepository => Index(Dropped(x.rows, repoId), x.db.(live := x.db.live - {repoId}))
    case AddRepository => x.(db := x.db.(live := x.db.live + {repoId}))
  }

  function AfterAll(x: Index, repoId: string, events: seq<Event>): Index
    decreases |events|
  {
    if |events| == 0 then x else AfterEvent(AfterAll(x, repoId, events[..|events| - 1]), repoId, events[|events| - 1])
  }

  ghost predicate AllWorkOnRemaining(x: Index, repoId: string, events: seq<Event>)
    decreases |events|
  {
    |events| > 0 ==>
      var before, last := events[..|events| - 1], events[|events| - 1];
      && AllWorkOnRemaining(x, repoId, before)
      && (last.Work? ==> WorksOnRemaining(AfterAll(x, repoId, before).rows, repoId, last.files, last.session))
  }

  /** The stored completions of a file since the index was last cleared, by itself or with
      its repository. */
  function CompletionsSinceClear(x: Index, repoId: string, events: seq<Event>, path: string): nat
    decreases |events|
  {
    if |events| == 0 then 0
    else
      var before := events[..|events| - 1];
      match events[|events| - 1]
      case Work(_, session) =>
        var y := AfterAll(x, repoId, before);
        CompletionsSinceClear(x, repoId, before, path) + Completions(y.rows, repoId, session, y.db, path)
      case AddRepository => CompletionsSinceClear(x, repoId, before, path)
      case _ => 0
  }

  lemma {:induction false} CompletedOncePerIndex(x: Index, repoId: string, events: seq<Event>, path: string)
    requires UniqueKeys(x.rows) && !IsCompleted(x.rows, repoId, path) && AllWorkOnRemaining(x, repoId, events)
    ensures var y := AfterAll(x, repoId, events);
            && UniqueKeys(y.rows)
            && CompletionsSinceClear(x, repoId, events, path) == if IsCompleted(y.rows, repoId, path) then 1 else 0
    decreases |events|
  {
    hide UniqueKeys, IsCompleted, AfterSession, Completions, Remaining, Dropped;
    if |events| > 0 {
      var before := events[..|events| - 1];
      var y := AfterAll(x, repoId, before);
      CompletedOncePerIndex(x, repoId, before, path);
      DropForgets(y.rows, repoId);
      match events[|events| - 1]
      case Work(files, session) =>
        if IsCompleted(y.rows, repoId, path) {
          RemainingPartitions(y.rows, repoId, files);
          UntouchedBySession(y.rows, repoId, session, y.db, path);
        } else {
          SessionCompletesOnce(y.rows, repoId, session, y.db, path);
        }
      case _ =>
    }
  }

  /** Over any schedule of sessions that each work only on what remained, with clearing,
      deletion and creation of the repository in between, a file is completed at most once
      since the index was last cleared, and no longer remains exactly if it was. */
  lemma ResumeCompletesOnce(x: Index, repoId: string, events: seq<Event>, files: seq<string>, path: string)
    requires UniqueKeys(x.rows) && !IsCompleted(x.rows, repoId, path) && AllWorkOnRemaining(x, repoId, events)
    requires path in files
    ensures CompletionsSinceClear(x, repoId, events, path)
            == if path in Remaining(AfterAll(x, repoId, events).rows, repoId, files) then 0 else 1
  {
    CompletedOncePerIndex(x, repoId, events, path);
    RemainingPartitions(AfterAll(x, repoId, events).rows, repoId, files);
  }

  /** Within one session a file is completed exactly when that is its outcome and it has
      no row yet in a repository that exists, or it has one and the table has the column. */
  lemma {:induction false} SessionCompletesExactlyWhen(
        rows: seq<FileRow>, repoId: string, session: seq<Outcome>, db: Database, path: string)
    requires UniqueKeys(rows) && !IsCompleted(rows, repoId, path)
    requires forall i, k :: 0 <= i < k < |session| ==> session[i].path != session[k].path
    ensures IsCompleted(AfterSession(rows, repoId, session, db), repoId, path)
            <==> Outcome(path, true) in session
                 && (if Find(rows, repoId, path) == |rows| then repoId in db.live else db.hasUpdatedAt)
    decreases |session|
  {
    hide UniqueKeys, Upserted;
    if |session| > 0 {
      var row := RowOf(repoId, session[0]);
      var rows' := Upserted(rows, row, db);
      UpsertFinds(rows, row, db, repoId, path);
      UpsertKeepsKeys(rows, row, db);
      assert session == [session[0]] + session[1..];
      if session[0].path == path {
        UntouchedBySession(rows', repoId, session[1..], db, path);
        assert forall k :: 0 < k < |session| ==> session[k] != Outcome(path, true);
      } else {
        SessionCompletesExactlyWhen(rows', repoId, session[1..], db, path);
      }
    }
  }
}
