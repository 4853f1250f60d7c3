/** Saving chunks that await embedding, together with their symbol links, and
    loading them back. Rows belong to repositories that exist. */
module PendingChunks {
  import opened Wrappers

  datatype Value = Text(text: string) | Texts(texts: seq<string>)

  type Metadata = map<string, Value>

  /** The attributes of a chunk that are read when it is saved. */
  datatype Chunk = Chunk(
    chunkId: string, content: string, startLine: Option<int>, endLine: Option<int>,
    chunkType: string, language: string,
    symbolsDefined: seq<string>, symbolsReferenced: seq<string>, commitSha: string,
    metadata: Metadata)

  datatype Link = Link(symbolId: string, chunkId: string)

  /** What is stored about a chunk. */
  datatype Item = Item(
    chunkId: string, filePath: string, content: string, startLine: Option<int>, endLine: Option<int>,
    chunkType: string, language: string, metadata: Metadata, symbolIds: seq<string>)

  datatype Row = Row(id: nat, repoId: string, item: Item)

  /** A chunk as it is loaded again. */
  datatype Loaded = Loaded(
    chunkId: string, filePath: string, language: string, startLine: Option<int>, endLine: Option<int>,
    content: string, symbolsDefined: Value, symbolsReferenced: Value, commitSha: Value, chunkType: string)

  const LANGUAGES: set<string> := {
    "python", "typescript", "javascript", "go", "java", "ruby", "rust", "c", "cpp", "csharp",
    "markdown", "yaml", "json", "unknown"
  }

  const BATCH_SIZE := 500

  // ------------------------------------------------------------ specification

  /** The symbols linked to a chunk, in link order. */
  function Symbols(links: seq<Link>, chunkId: string): seq<string> {
    if |links| == 0 then []
    else if links[|links| - 1].chunkId == chunkId
    then Symbols(links[..|links| - 1], chunkId) + [links[|links| - 1].symbolId]
    else Symbols(links[..|links| - 1], chunkId)
  }

  /** A chunk's own metadata overrides the derived entries. */
  function SavedMetadata(repoId: string, c: Chunk, filePath: string): Metadata {
    map["file_path" := Text(filePath), "repo_id" := Text(repoId),
        "symbols_defined" := Texts(c.symbolsDefined), "symbols_referenced" := Texts(c.symbolsReferenced),
        "commit_sha" := Text(c.commitSha)]
    + c.metadata
  }

  function ItemOf(repoId: string, c: Chunk, filePath: string, symbolIds: seq<string>): Item {
    Item(c.chunkId, filePath, c.content, c.startLine, c.endLine, c.chunkType, c.language,
         SavedMetadata(repoId, c, filePath), symbolIds)
  }

  type Sourced = (Chunk, string)

  function Items(repoId: string, chunks: seq<Sourced>, links: seq<Link>): seq<Item> {
    if |chunks| == 0 then []
    else [ItemOf(repoId, chunks[0].0, chunks[0].1, Symbols(links, chunks[0].0.chunkId))]
         + Items(repoId, chunks[1..], links)
  }

  /** The items with a non-empty id that was not seen before. */
  function Dedupe(items: seq<Item>, seen: set<string>): seq<Item> {
    if |items| == 0 then []
    else if items[0].chunkId == "" || items[0].chunkId in seen then Dedupe(items[1..], seen)
    else [items[0]] + Dedupe(items[1..], seen + {items[0].chunkId})
  }

  function Numbered(repoId: string, items: seq<Item>, id: nat): seq<Row> {
    if |items| == 0 then [] else [Row(id, repoId, items[0])] + Numbered(repoId, items[1..], id + 1)
  }

  function Without(rows: seq<Row>, repoId: string): seq<Row> {
    if |rows| == 0 then []
    else if rows[0].repoId == repoId then Without(rows[1..], repoId)
    else [rows[0]] + Without(rows[1..], repoId)
  }

  function ItemsOf(rows: seq<Row>, repoId: string): seq<Item> {
    if |rows| == 0 then []
    else if rows[0].repoId == repoId then [rows[0].item] + ItemsOf(rows[1..], repoId)
    else ItemsOf(rows[1..], repoId)
  }

  function GetOr(m: Metadata, key: string, default: Value): Value {
    if key in m then m[key] else default
  }

  function LoadedOf(item: Item): Loaded {
    Loaded(item.chunkId, item.filePath, if item.language in LANGUAGES then item.language else "unknown",
           item.startLine, item.endLine, item.content,
           GetOr(item.metadata, "symbols_defined", Texts([])),
           GetOr(item.metadata, "symbols_referenced", Texts([])),
           GetOr(item.metadata, "commit_sha", Text("")),
           if item.chunkType == "" then "code" else item.chunkType)
  }

  function LoadedAll(items: seq<Item>): seq<Loaded> {
    if |items| == 0 then [] else [LoadedOf(items[0])] + LoadedAll(items[1..])
  }

  function LinksOf(item: Item, symbolIds: seq<string>): seq<Link> {
    if |symbolIds| == 0 then [] else [Link(symbolIds[0], item.chunkId)] + LinksOf(item, symbolIds[1..])
  }

  function FlatLinks(items: seq<Item>): seq<Link> {
    if |items| == 0 then [] else LinksOf(items[0], items[0].symbolIds) + FlatLinks(items[1..])
  }

  /** Which repositories there are, and whether the unique key is a constraint with a name,
      as in a table made from the models; one made by the migration has an index only. */
  datatype Database = Database(hasConstraint: bool, live: set<string>)

  /** An upsert of any row names the constraint and refers to the repository. */
  predicate Takes(db: Database, repoId: string) {
    db.hasConstraint && repoId in db.live
  }

  /** How many rows a save stores, if it works. */
  function Saves(repoId: string, items: seq<Item>, db: Database): Option<nat> {
    if Takes(db, repoId) || |items| == 0 then Some(|items|) else None
  }

  function AfterSave(rows: seq<Row>, repoId: string, items: seq<Item>, id: nat, db: Database): seq<Row> {
    if Saves(repoId, items, db).Some? then Without(rows, repoId) + Numbered(repoId, items, id) else rows
  }

  // ------------------------------------------------------------------ the table

  /** Ids rise along the table, and a repository holds a chunk id at most once. */
  ghost predicate ValidRows(rows: seq<Row>, nextId: nat) {
    && (forall k :: 0 <= k < |rows| ==> rows[k].id < nextId)
    && (forall i, k :: 0 <= i < k < |rows| ==> Apart(rows[i], rows[k]))
  }

  /** The foreign key. */
  ghost predicate Owned(rows: seq<Row>, live: set<string>) {
    forall r :: r in rows ==> r.repoId in live
  }

  predicate Apart(a: Row, b: Row) {
    a.id < b.id && !(a.repoId == b.repoId && a.item.chunkId == b.item.chunkId)
  }

  ghost predicate DistinctIds(items: seq<Item>) {
    forall i, k :: 0 <= i < k < |items| ==> items[i].chunkId != items[k].chunkId
  }

  /** No item is in the table yet. */
  ghost predicate Fresh(rows: seq<Row>, repoId: string, items: seq<Item>) {
    && DistinctIds(items)
    && (forall i, k :: 0 <= i < |rows| && 0 <= k < |items| ==>
          !(rows[i].repoId == repoId && rows[i].item.chunkId == items[k].chunkId))
  }

  lemma {:induction false} WithoutProperties(rows: seq<Row>, repoId: string)
    ensures forall r :: r in Without(rows, repoId) <==> r in rows && r.repoId != repoId
    ensures ItemsOf(Without(rows, repoId), repoId) == []
    ensures forall other :: other != repoId ==> ItemsOf(Without(rows, repoId), other) == ItemsOf(rows, other)
  {
    if |rows| > 0 {
      WithoutProperties(rows[1..], repoId);
      assert rows == [rows[0]] + rows[1..];
    }
  }

  lemma {:induction false} WithoutValid(rows: seq<Row>, repoId: string, nextId: nat)
    requires ValidRows(rows, nextId)
    ensures ValidRows(Without(rows, repoId), nextId)
  {
    if |rows| > 0 {
      WithoutValid(rows[1..], repoId, nextId);
      WithoutProperties(rows[1..], repoId);
      var rest := Without(rows[1..], repoId);
      forall k | 0 <= k < |rest| ensures Apart(rows[0], rest[k]) {
        assert rest[k] in rows[1..];
      }
    }
  }

  lemma {:induction false} ItemsOfConcat(a: seq<Row>, b: seq<Row>, repoId: string)
    ensures ItemsOf(a + b, repoId) == ItemsOf(a, repoId) + ItemsOf(b, repoId)
  {
    if |a| == 0 {
      assert a + b == b;
    } else {
      assert (a + b)[0] == a[0] && (a + b)[1..] == a[1..] + b;
      ItemsOfConcat(a[1..], b, repoId);
    }
  }

  lemma {:induction false} NumberedItems(repoId: string, items: seq<Item>, id: nat)
    ensures |Numbered(repoId, items, id)| == |items|
    ensures forall k :: 0 <= k < |items| ==> Numbered(repoId, items, id)[k] == Row(id + k, repoId, items[k])
    ensures ItemsOf(Numbered(repoId, items, id), repoId) == items
    ensures forall other :: other != repoId ==> ItemsOf(Numbered(repoId, items, id), other) == []
  {
    if |items| > 0 {
      NumberedItems(repoId, items[1..], id + 1);
    }
  }

  lemma NumberedEmpty(repoId: string, id: nat)
    ensures Numbered(repoId, [], id) == []
  {
  }

  lemma {:induction false} NumberedConcat(repoId: string, a: seq<Item>, b: seq<Item>, id: nat)
    ensures Numbered(repoId, a + b, id) == Numbered(repoId, a, id) + Numbered(repoId, b, id + |a|)
  {
    if |a| == 0 {
      assert a + b == b;
    } else {
      assert (a + b)[0] == a[0] && (a + b)[1..] == a[1..] + b;
      NumberedConcat(repoId, a[1..], b, id + 1);
    }
  }

  lemma {:induction false} DedupeProperties(items: seq<Item>, seen: set<string>)
    ensures DistinctIds(Dedupe(items, seen))
    ensures forall x :: x in Dedupe(items, seen) ==> x in items && x.chunkId != "" && x.chunkId !in seen
  {
    if |items| > 0 {
      assert items == [items[0]] + items[1..];
      var first := items[0].chunkId;
      DedupeProperties(items[1..], if first == "" || first in seen then seen else seen + {first});
    }
  }

  predicate Conflicts(r: Row, repoId: string, item: Item) {
    r.repoId == repoId && r.item.chunkId == item.chunkId
  }

  function FirstConflict(rows: seq<Row>, from: nat, repoId: string, item: Item): (k: nat)
    requires from <= |rows|
    ensures from <= k <= |rows|
    ensures k < |rows| ==> Conflicts(rows[k], repoId, item)
    ensures forall j :: from <= j < k ==> !Conflicts(rows[j], repoId, item)
    decreases |rows| - from
  {
    if from < |rows| && !Conflicts(rows[from], repoId, item) then FirstConflict(rows, from + 1, repoId, item) else from
  }

  /** Replaces the row with the same key, or appends one with the next id. */
  function UpsertOne(rows: seq<Row>, repoId: string, item: Item, id: nat): seq<Row> {
    var at := FirstConflict(rows, 0, repoId, item);
    if at < |rows| then rows[at := rows[at].(item := item)] else rows + [Row(id, repoId, item)]
  }

  function Upserted(rows: seq<Row>, repoId: string, batch: seq<Item>, id: nat): seq<Row>
    decreases |batch|
  {
    if |batch| == 0 then rows else Upserted(UpsertOne(rows, repoId, batch[0], id), repoId, batch[1..], id + 1)
  }

  lemma UpsertOneValid(rows: seq<Row>, repoId: string, item: Item, id: nat)
    requires ValidRows(rows, id)
    ensures ValidRows(UpsertOne(rows, repoId, item, id), id + 1)
  {
    var after := UpsertOne(rows, repoId, item, id);
    var at := FirstConflict(rows, 0, repoId, item);
    forall i, k | 0 <= i < k < |after| ensures Apart(after[i], after[k]) {
      if k < |rows| {
        assert Apart(rows[i], rows[k]);
      } else {
        assert !Conflicts(rows[i], repoId, item);
      }
    }
  }

  lemma UpsertOneOwned(rows: seq<Row>, repoId: string, item: Item, id: nat, live: set<string>)
    requires Owned(rows, live) && repoId in live
    ensures Owned(UpsertOne(rows, repoId, item, id), live)
  {
    var at := FirstConflict(rows, 0, repoId, item);
    if at < |rows| {
      assert rows[at] in rows;
    }
  }

  /** Rows with new keys are appended in order. */
  lemma {:induction false} FreshIsAppended(rows: seq<Row>, repoId: string, batch: seq<Item>, id: nat)
    requires Fresh(rows, repoId, batch)
    ensures Upserted(rows, repoId, batch, id) == rows + Numbered(repoId, batch, id)
    decreases |batch|
  {
    if |batch| > 0 {
      var more := [Row(id, repoId, batch[0])];
      assert UpsertOne(rows, repoId, batch[0], id) == rows + more;
      FreshIsAppended(rows + more, repoId, batch[1..], id + 1);
      assert rows + more + Numbered(repoId, batch[1..], id + 1) == rows + (more + Numbered(repoId, batch[1..], id + 1));
    }
  }

  method GroupLinks(links: seq<Link>) returns (grouped: map<string, seq<string>>)
    ensures forall c :: Symbols(links, c) == if c in grouped then grouped[c] else []
  {
    grouped := map[];
    for i := 0 to |links|
      invariant forall c :: Symbols(links[..i], c) == if c in grouped then grouped[c] else []
    {
      var l := links[i];
      assert links[..i + 1][..i] == links[..i];
      grouped := grouped[l.chunkId := (if l.chunkId in grouped then grouped[l.chunkId] else []) + [l.symbolId]];
    }
    assert links[..|links|] == links;
  }

  class PendingChunkStore {
    const hasConstraint: bool
    var live: set<string>
    var rows: seq<Row>
    var nextId: nat

    function Db(): Database
      reads this
    {
      Database(hasConstraint, live)
    }

    ghost predicate Valid()
      reads this
    {
      ValidRows(rows, nextId) && Owned(rows, live)
    }

    constructor (hasConstraint: bool)
      ensures Valid() && rows == [] && nextId == 0 && Db() == Database(hasConstraint, {})
    {
      this.hasConstraint := hasConstraint;
      rows, nextId, live := [], 0, {};
    }

    method AddRepository(repoId: string)
      requires Valid()
      modifies this
      ensures Valid() && rows == old(rows) && nextId == old(nextId) && live == old(live) + {repoId}
    {
      live := live + {repoId};
    }

    /** Deleting a repository deletes its rows. */
    method DeleteRepository(repoId: string)
      requires Valid()
      modifies this
      ensures Valid() && rows == Without(old(rows), repoId) && nextId == old(nextId)
      ensures live == old(live) - {repoId}
    {
      WithoutValid(rows, repoId, nextId);
      WithoutProperties(rows, repoId);
      rows, live := Without(rows, repoId), live - {repoId};
    }

    /** One upsert statement. It must not meet the same key twice, and fails without
        the constraint it names or when it has a row of an unknown repository. */
    method Upsert(repoId: string, batch: seq<Item>) returns (ok: bool)
      requires Valid() && DistinctIds(batch)
      modifies this
      ensures Valid() && live == old(live)
      ensures ok <==> Takes(Db(), repoId) || |batch| == 0
      ensures if ok
              then rows == Upserted(old(rows), repoId, batch, old(nextId)) && nextId == old(nextId) + |batch|
              else rows == old(rows) && nextId == old(nextId)
    {
      hide ValidRows, Owned;
      ok := (hasConstraint && repoId in live) || |batch| == 0;
      if !ok {
        return;
      }
      for i := 0 to |batch|
        invariant nextId == old(nextId) + i && ValidRows(rows, nextId) && Owned(rows, live) && live == old(live)
        invariant Upserted(rows, repoId, batch[i..], nextId) == Upserted(old(rows), repoId, batch, old(nextId))
      {
        assert batch[i..][1..] == batch[i + 1..];
        var at := 0;
        while at < |rows| && !Conflicts(rows[at], repoId, batch[i])
          invariant 0 <= at <= |rows|
          invariant FirstConflict(rows, 0, repoId, batch[i]) == FirstConflict(rows, at, repoId, batch[i])
        {
          at := at + 1;
        }
        UpsertOneValid(rows, repoId, batch[i], nextId);
        UpsertOneOwned(rows, repoId, batch[i], nextId, live);
        if at < |rows| {
          rows := rows[at := rows[at].(item := batch[i])];
        } else {
          rows := rows + [Row(nextId, repoId, batch[i])];
        }
        nextId := nextId + 1;
      }
    }

    /** The rows in batches of 500, one statement each. */
    method UpsertAll(repoId: string, items: seq<Item>) returns (saved: Option<nat>)
      requires Valid() && Fresh(rows, repoId, items)
      modifies this
      ensures Valid() && live == old(live)
      ensures saved == Saves(repoId, items, Db())
      ensures if saved.Some?
              then rows == old(rows) + Numbered(repoId, items, old(nextId)) && nextId == old(nextId) + |items|
              else rows == old(rows) && nextId == old(nextId)
    {
      hide Upserted, Numbered, ValidRows, Fresh, DistinctIds, Owned;
      var count := 0;
      var start := 0;
      assert items[..0] == [] && Numbered(repoId, [], nextId) == [] by {
        NumberedEmpty(repoId, nextId);
      }
      while start < |items|
        invariant 0 <= start && Valid() && live == old(live)
        invariant start > 0 ==> Takes(Db(), repoId)
        invariant count == if start < |items| then start else |items|
        invariant nextId == old(nextId) + count
        invariant rows == old(rows) + Numbered(repoId, items[..count], old(nextId))
      {
        var end := if start + BATCH_SIZE < |items| then start + BATCH_SIZE else |items|;
        var batch := items[start..end];
        FreshBatch(old(rows), repoId, items, start, end, old(nextId));
        FreshIsAppended(rows, repoId, batch, nextId);
        var ok := Upsert(repoId, batch);
        if !ok {
          return None;
        }
        NumberedConcat(repoId, items[..start], batch, old(nextId));
        assert items[..start] + batch == items[..end];
        count := count + |batch|;
        start := start + BATCH_SIZE;
      }
      assert items[..|items|] == items;
      saved := Some(count);
    }

    /** Replaces the repository's rows: first occurrences only. On failure nothing is
        committed. */
    method Save(repoId: string, items: seq<Item>) returns (saved: Option<nat>)
      requires Valid()
      modifies this
      ensures Valid() && live == old(live)
      ensures saved == Saves(repoId, Dedupe(items, {}), Db())
      ensures rows == AfterSave(old(rows), repoId, Dedupe(items, {}), old(nextId), Db())
      ensures nextId == old(nextId) + (if saved.Some? then saved.value else 0)
    {
      var before := rows;
      WithoutValid(rows, repoId, nextId);
      WithoutProperties(rows, repoId);
      hide ValidRows, Without, Numbered;
      rows := Without(rows, repoId);
      var seen: set<string> := {};
      var novel: seq<Item> := [];
      for i := 0 to |items|
        invariant rows == Without(old(rows), repoId) && nextId == old(nextId) && live == old(live)
        invariant novel + Dedupe(items[i..], seen) == Dedupe(items, {})
      {
        assert items[i..][1..] == items[i + 1..];
        var id := items[i].chunkId;
        if id != "" && id !in seen {
          seen := seen + {id};
          novel := novel + [items[i]];
        }
      }
      assert novel == Dedupe(items, {});
      FreshAfterDelete(old(rows), repoId, items);
      saved := UpsertAll(repoId, novel);
      if saved.None? {
        rows := before;
      }
    }

    /** The repository's items, ordered by id, which is table order. */
    method Get(repoId: string) returns (items: seq<Item>)
      requires Valid()
      ensures items == ItemsOf(rows, repoId)
    {
      items := [];
      for i := 0 to |rows|
        invariant items + ItemsOf(rows[i..], repoId) == ItemsOf(rows, repoId)
      {
        assert rows[i..][1..] == rows[i + 1..];
        if rows[i].repoId == repoId {
          items := items + [rows[i].item];
        }
      }
    }

    method SavePendingChunks(repoId: string, chunks: seq<Sourced>, links: seq<Link>)
      returns (saved: Option<nat>)
      requires Valid()
      modifies this
      ensures Valid() && live == old(live)
      ensures saved == Saves(repoId, Dedupe(Items(repoId, chunks, links), {}), Db())
      ensures rows == AfterSave(old(rows), repoId, Dedupe(Items(repoId, chunks, links), {}), old(nextId), Db())
      ensures nextId == old(nextId) + (if saved.Some? then saved.value else 0)
    {
      hide SavedMetadata, Symbols, Dedupe, AfterSave, Saves;
      var grouped := GroupLinks(links);
      var items: seq<Item> := [];
      for i := 0 to |chunks|
        invariant items + Items(repoId, chunks[i..], links) == Items(repoId, chunks, links)
        invariant unchanged(this)
      {
        assert chunks[i..][1..] == chunks[i + 1..];
        var (chunk, filePath) := chunks[i];
        var symbolIds := if chunk.chunkId in grouped then grouped[chunk.chunkId] else [];
        items := items + [ItemOf(repoId, chunk, filePath, symbolIds)];
      }
      assert items == Items(repoId, chunks, links);
      saved := Save(repoId, items);
    }

    method GetPendingChunks(repoId: string) returns (chunks: seq<Loaded>, links: seq<Link>)
      requires Valid()
      ensures chunks == LoadedAll(ItemsOf(rows, repoId)) && links == FlatLinks(ItemsOf(rows, repoId))
    {
      hide LoadedOf, LinksOf, ItemsOf;
      var items := Get(repoId);
      chunks, links := [], [];
      for i := 0 to |items|
        invariant chunks + LoadedAll(items[i..]) == LoadedAll(items)
        invariant links + FlatLinks(items[i..]) == FlatLinks(items)
      {
        assert items[i..][1..] == items[i + 1..];
        chunks := chunks + [LoadedOf(items[i])];
        var more := ItemLinks(items[i]);
        links := links + more;
      }
    }
  }

  method ItemLinks(item: Item) returns (links: seq<Link>)
    ensures links == LinksOf(item, item.symbolIds)
  {
    links := [];
    for k := 0 to |item.symbolIds|
      invariant links + LinksOf(item, item.symbolIds[k..]) == LinksOf(item, item.symbolIds)
    {
      assert item.symbolIds[k..][1..] == item.symbolIds[k + 1..];
      links := links + [Link(item.symbolIds[k], item.chunkId)];
    }
  }

  lemma FreshAfterDelete(rows: seq<Row>, repoId: string, items: seq<Item>)
    ensures Fresh(Without(rows, repoId), repoId, Dedupe(items, {}))
  {
    WithoutProperties(rows, repoId);
    DedupeProperties(items, {});
    var kept := Without(rows, repoId);
    assert forall i :: 0 <= i < |kept| ==> kept[i] in kept;
  }

  lemma FreshBatch(rows: seq<Row>, repoId: string, items: seq<Item>, start: nat, end: nat, id: nat)
    requires Fresh(rows, repoId, items) && start <= end <= |items|
    ensures Fresh(rows + Numbered(repoId, items[..start], id), repoId, items[start..end])
    ensures DistinctIds(items[start..end])
  {
    hide Numbered;
    NumberedItems(repoId, items[..start], id);
    var batch := items[start..end];
    assert forall k :: 0 <= k < |batch| ==> batch[k] == items[start + k];
  }

  // ------------------------------------------------------------ save, then load

  /** After a save the repository holds exactly the first occurrences, and every
      other repository what it held before. */
  lemma SavedItems(rows: seq<Row>, repoId: string, items: seq<Item>, id: nat, other: string)
    ensures ItemsOf(Without(rows, repoId) + Numbered(repoId, items, id), other)
            == if other == repoId then items else ItemsOf(rows, other)
  {
    ItemsOfConcat(Without(rows, repoId), Numbered(repoId, items, id), other);
    WithoutProperties(rows, repoId);
    NumberedItems(repoId, items, id);
  }

  /** Position `i` of the chunk list is the first with its id, which is not empty. */
  predicate IsFirst(chunks: seq<Sourced>, i: nat)
    requires i < |chunks|
  {
    chunks[i].0.chunkId != "" && forall k :: 0 <= k < i ==> chunks[k].0.chunkId != chunks[i].0.chunkId
  }

  /** The positions of first occurrences from `from` on. */
  function Firsts(chunks: seq<Sourced>, from: nat): (r: seq<nat>)
    requires from <= |chunks|
    ensures forall k :: 0 <= k < |r| ==> from <= r[k] < |chunks| && IsFirst(chunks, r[k])
    ensures forall i, k :: 0 <= i < k < |r| ==> r[i] < r[k]
    ensures forall i: nat :: from <= i < |chunks| && IsFirst(chunks, i) ==> i in r
    decreases |chunks| - from
  {
    if from == |chunks| then []
    else if IsFirst(chunks, from) then [from] + Firsts(chunks, from + 1)
    else Firsts(chunks, from + 1)
  }

  function IdsBefore(chunks: seq<Sourced>, n: nat): set<string>
    requires n <= |chunks|
  {
    set k | 0 <= k < n && chunks[k].0.chunkId != "" :: chunks[k].0.chunkId
  }

  function ItemAt(repoId: string, chunks: seq<Sourced>, links: seq<Link>, i: nat): Item
    requires i < |chunks|
  {
    ItemOf(repoId, chunks[i].0, chunks[i].1, Symbols(links, chunks[i].0.chunkId))
  }

  lemma DedupeUnfold(repoId: string, chunks: seq<Sourced>, links: seq<Link>, from: nat)
    requires from < |chunks|
    ensures Dedupe(Items(repoId, chunks[from..], links), IdsBefore(chunks, from))
            == (if IsFirst(chunks, from) then [ItemAt(repoId, chunks, links, from)] else [])
               + Dedupe(Items(repoId, chunks[from + 1..], links), IdsBefore(chunks, from + 1))
  {
    hide SavedMetadata, Symbols, IsFirst, IdsBefore;
    var id := chunks[from].0.chunkId;
    var items := Items(repoId, chunks[from..], links);
    assert chunks[from..][1..] == chunks[from + 1..];
    assert items[0] == ItemAt(repoId, chunks, links, from) && items[1..] == Items(repoId, chunks[from + 1..], links);
    IdsBeforeNext(chunks, from);
    if id == "" || id in IdsBefore(chunks, from) {
      assert id == "" ==> IdsBefore(chunks, from) + {} == IdsBefore(chunks, from);
      assert id in IdsBefore(chunks, from) ==> IdsBefore(chunks, from) + {id} == IdsBefore(chunks, from);
      assert Dedupe(items, IdsBefore(chunks, from)) == Dedupe(items[1..], IdsBefore(chunks, from));
    }
  }

  lemma IdsBeforeNext(chunks: seq<Sourced>, n: nat)
    requires n < |chunks|
    ensures var id := chunks[n].0.chunkId;
            && IdsBefore(chunks, n + 1) == IdsBefore(chunks, n) + (if id == "" then {} else {id})
            && (IsFirst(chunks, n) <==> id != "" && id !in IdsBefore(chunks, n))
  {
    var id := chunks[n].0.chunkId;
    assert id != "" ==> id in IdsBefore(chunks, n + 1);
  }

  /** The saved items are the chunks at the first positions, in input order. */
  lemma FirstsUnfold(chunks: seq<Sourced>, from: nat)
    requires from < |chunks|
    ensures Firsts(chunks, from) == (if IsFirst(chunks, from) then [from] else []) + Firsts(chunks, from + 1)
  {
  }

  lemma PositionsCons(items: seq<Item>, repoId: string, chunks: seq<Sourced>, links: seq<Link>, at: seq<nat>, from: nat)
    requires from < |chunks| && ItemsAtPositions(items, repoId, chunks, links, at)
    ensures ItemsAtPositions([ItemAt(repoId, chunks, links, from)] + items, repoId, chunks, links, [from] + at)
  {
    hide ItemAt;
  }

  lemma {:induction false} DedupeKeepsFirsts(repoId: string, chunks: seq<Sourced>, links: seq<Link>, from: nat)
    requires from <= |chunks|
    ensures ItemsAtPositions(Dedupe(Items(repoId, chunks[from..], links), IdsBefore(chunks, from)),
                             repoId, chunks, links, Firsts(chunks, from))
    decreases |chunks| - from
  {
    hide Items, Dedupe, IsFirst, IdsBefore, ItemAt, Firsts, ItemsAtPositions;
    if from < |chunks| {
      var rest := Dedupe(Items(repoId, chunks[from + 1..], links), IdsBefore(chunks, from + 1));
      DedupeUnfold(repoId, chunks, links, from);
      FirstsUnfold(chunks, from);
      DedupeKeepsFirsts(repoId, chunks, links, from + 1);
      if IsFirst(chunks, from) {
        PositionsCons(rest, repoId, chunks, links, Firsts(chunks, from + 1), from);
      } else {
        assert [] + rest == rest && [] + Firsts(chunks, from + 1) == Firsts(chunks, from + 1);
      }
    } else {
      NothingLeft(repoId, chunks, links);
    }
  }

  lemma NothingLeft(repoId: string, chunks: seq<Sourced>, links: seq<Link>)
    ensures ItemsAtPositions(Dedupe(Items(repoId, chunks[|chunks|..], links), IdsBefore(chunks, |chunks|)),
                             repoId, chunks, links, Firsts(chunks, |chunks|))
  {
  }

  ghost predicate ItemsAtPositions(
        items: seq<Item>, repoId: string, chunks: seq<Sourced>, links: seq<Link>, at: seq<nat>) {
    && |items| == |at|
    && forall k :: 0 <= k < |at| ==> at[k] < |chunks| && items[k] == ItemAt(repoId, chunks, links, at[k])
  }

  /** Links of one chunk, in order. */
  function Select(links: seq<Link>, chunkId: string): seq<Link> {
    if |links| == 0 then []
    else if links[|links| - 1].chunkId == chunkId
    then Select(links[..|links| - 1], chunkId) + [links[|links| - 1]]
    else Select(links[..|links| - 1], chunkId)
  }

  lemma {:induction false} SelectConcat(a: seq<Link>, b: seq<Link>, chunkId: string)
    ensures Select(a + b, chunkId) == Select(a, chunkId) + Select(b, chunkId)
  {
    if |b| == 0 {
      assert a + b == a;
    } else {
      SelectConcat(a, b[..|b| - 1], chunkId);
      assert (a + b)[..|a + b| - 1] == a + b[..|b| - 1];
    }
  }

  lemma {:induction false} LinksOfAppend(item: Item, symbols: seq<string>, s: string)
    ensures LinksOf(item, symbols + [s]) == LinksOf(item, symbols) + [Link(s, item.chunkId)]
  {
    if |symbols| > 0 {
      LinksOfAppend(item, symbols[1..], s);
      assert (symbols + [s])[1..] == symbols[1..] + [s];
    }
  }

  /** Regrouping keeps the order of a chunk's links. */
  lemma {:induction false} LinksOfSymbols(item: Item, links: seq<Link>)
    ensures LinksOf(item, Symbols(links, item.chunkId)) == Select(links, item.chunkId)
  {
    if |links| > 0 {
      var init := links[..|links| - 1];
      LinksOfSymbols(item, init);
      LinksOfAppend(item, Symbols(init, item.chunkId), links[|links| - 1].symbolId);
    }
  }

  lemma {:induction false} SelectOfLinksOf(item: Item, symbols: seq<string>, chunkId: string)
    ensures Select(LinksOf(item, symbols), chunkId) == if chunkId == item.chunkId then LinksOf(item, symbols) else []
  {
    if |symbols| > 0 {
      var init, s := symbols[..|symbols| - 1], symbols[|symbols| - 1];
      var l := Link(s, item.chunkId);
      SelectOfLinksOf(item, init, chunkId);
      LinksOfAppend(item, init, s);
      assert symbols == init + [s];
      SelectConcat(LinksOf(item, init), [l], chunkId);
      assert Select([l], chunkId) == if chunkId == item.chunkId then [l] else [];
    }
  }

  predicate HasId(items: seq<Item>, chunkId: string) {
    exists k :: 0 <= k < |items| && items[k].chunkId == chunkId
  }

  ghost predicate LinkedBy(items: seq<Item>, links: seq<Link>) {
    forall x :: x in items ==> x.symbolIds == Symbols(links, x.chunkId)
  }

  /** The loaded links of a saved chunk are that chunk's input links, in input order;
      other chunks have none. */
  lemma {:induction false} FlatLinksOfChunk(items: seq<Item>, links: seq<Link>, chunkId: string)
    requires LinkedBy(items, links) && DistinctIds(items)
    ensures Select(FlatLinks(items), chunkId) == if HasId(items, chunkId) then Select(links, chunkId) else []
  {
    if |items| > 0 {
      hide LinksOf, Select;
      var rest := items[1..];
      assert FlatLinks(items) == LinksOf(items[0], items[0].symbolIds) + FlatLinks(rest);
      FlatLinksOfChunk(rest, links, chunkId);
      SelectConcat(LinksOf(items[0], items[0].symbolIds), FlatLinks(rest), chunkId);
      SelectOfLinksOf(items[0], items[0].symbolIds, chunkId);
      LinksOfSymbols(items[0], links);
      assert HasId(items, chunkId) <==> items[0].chunkId == chunkId || HasId(rest, chunkId) by {
        assert forall k :: 0 < k < |items| ==> items[k] == rest[k - 1];
      }
      if items[0].chunkId == chunkId {
        assert !HasId(rest, chunkId);
      }
    }
  }

  lemma {:induction false} SelectCounts(links: seq<Link>, l: Link)
    ensures multiset(links)[l] == multiset(Select(links, l.chunkId))[l]
  {
    if |links| > 0 {
      assert links == links[..|links| - 1] + [links[|links| - 1]];
      SelectCounts(links[..|links| - 1], l);
    }
  }

  function Saved(links: seq<Link>, items: seq<Item>): seq<Link> {
    if |links| == 0 then []
    else if HasId(items, links[|links| - 1].chunkId)
    then Saved(links[..|links| - 1], items) + [links[|links| - 1]]
    else Saved(links[..|links| - 1], items)
  }

  lemma {:induction false} SelectOfSaved(links: seq<Link>, items: seq<Item>, chunkId: string)
    ensures Select(Saved(links, items), chunkId) == if HasId(items, chunkId) then Select(links, chunkId) else []
  {
    if |links| > 0 {
      SelectOfSaved(links[..|links| - 1], items, chunkId);
      SelectConcat(Saved(links[..|links| - 1], items), [links[|links| - 1]], chunkId);
      assert Select([links[|links| - 1]], chunkId)
             == if links[|links| - 1].chunkId == chunkId then [links[|links| - 1]] else [];
    }
  }

  lemma {:induction false} ItemsSymbols(repoId: string, chunks: seq<Sourced>, links: seq<Link>)
    ensures LinkedBy(Items(repoId, chunks, links), links)
  {
    if |chunks| > 0 {
      ItemsSymbols(repoId, chunks[1..], links);
    }
  }

  lemma {:induction false} LoadedAllAt(items: seq<Item>)
    ensures |LoadedAll(items)| == |items|
    ensures forall k :: 0 <= k < |items| ==> LoadedAll(items)[k] == LoadedOf(items[k])
  {
    hide LoadedOf;
    if |items| > 0 {
      var rest := items[1..];
      assert LoadedAll(items) == [LoadedOf(items[0])] + LoadedAll(rest);
      LoadedAllAt(rest);
    }
  }

  /** What a chunk reads back as: its fields, except that its own metadata decides
      the three symbol and commit entries, an unknown language reads "unknown" and
      an empty type reads "code". */
  function ReadBack(c: Chunk, filePath: string): Loaded {
    Loaded(c.chunkId, filePath, if c.language in LANGUAGES then c.language else "unknown",
           c.startLine, c.endLine, c.content,
           GetOr(c.metadata, "symbols_defined", Texts(c.symbolsDefined)),
           GetOr(c.metadata, "symbols_referenced", Texts(c.symbolsReferenced)),
           GetOr(c.metadata, "commit_sha", Text(c.commitSha)),
           if c.chunkType == "" then "code" else c.chunkType)
  }

  predicate AnyId(chunks: seq<Sourced>) {
    exists k :: 0 <= k < |chunks| && chunks[k].0.chunkId != ""
  }

  /** A save fails exactly when some chunk has an id, and the repository is unknown or the
      table lacks the constraint. */
  lemma {:induction false} SaveFailsExactlyWhen(
        repoId: string, chunks: seq<Sourced>, links: seq<Link>, db: Database)
    ensures Saves(repoId, Dedupe(Items(repoId, chunks, links), {}), db).None?
            <==> !(db.hasConstraint && repoId in db.live) && AnyId(chunks)
  {
    hide SavedMetadata, Symbols;
    if |chunks| > 0 {
      SaveFailsExactlyWhen(repoId, chunks[1..], links, db);
      assert chunks == [chunks[0]] + chunks[1..];
      assert Items(repoId, chunks, links)[1..] == Items(repoId, chunks[1..], links);
      assert AnyId(chunks) <==> chunks[0].0.chunkId != "" || AnyId(chunks[1..]) by {
        assert forall k :: 0 < k < |chunks| ==> chunks[k] == chunks[1..][k - 1];
      }
    }
  }

  /** Save, then load: the first occurrence of every non-empty chunk id, in input
      order and with its fields; per chunk its links in input order; and overall
      exactly the links of saved chunks, even when chunk ids repeat. A save that fails
      changes nothing. */
  lemma SaveThenLoad(
        rows: seq<Row>, id: nat, db: Database, repoId: string, chunks: seq<Sourced>, links: seq<Link>)
    ensures var saved := Dedupe(Items(repoId, chunks, links), {});
            var table := AfterSave(rows, repoId, saved, id, db);
            var loaded := LoadedAll(ItemsOf(table, repoId));
            var regrouped := FlatLinks(ItemsOf(table, repoId));
            var firsts := Firsts(chunks, 0);
            if !(db.hasConstraint && repoId in db.live) && AnyId(chunks) then table == rows
            else
              && Saves(repoId, saved, db) == Some(|firsts|) && |loaded| == |firsts|
              && (forall k :: 0 <= k < |firsts| ==> loaded[k] == ReadBack(chunks[firsts[k]].0, chunks[firsts[k]].1))
              && (forall c :: Select(regrouped, c) == Select(Saved(links, saved), c))
              && multiset(regrouped) == multiset(Saved(links, saved))
              && (forall other :: other != repoId ==> ItemsOf(table, other) == ItemsOf(rows, other))
  {
    hide Dedupe, Items, Without, Numbered, Firsts, IsFirst, Symbols, Select, Saved, FlatLinks, LoadedAll, LoadedOf,
      ReadBack;
    var saved := Dedupe(Items(repoId, chunks, links), {});
    SaveFailsExactlyWhen(repoId, chunks, links, db);
    if Saves(repoId, saved, db).Some? {
      forall other
        ensures ItemsOf(AfterSave(rows, repoId, saved, id, db), other)
                == if other == repoId then saved else ItemsOf(rows, other)
      {
        SavedItems(rows, repoId, saved, id, other);
      }
      DedupeKeepsFirsts(repoId, chunks, links, 0);
      assert chunks[0..] == chunks && IdsBefore(chunks, 0) == {};
      var firsts := Firsts(chunks, 0);
      LoadedAllAt(saved);
      forall k | 0 <= k < |firsts| ensures LoadedOf(saved[k]) == ReadBack(chunks[firsts[k]].0, chunks[firsts[k]].1) {
        ItemReadsBack(repoId, chunks, links, firsts[k]);
      }
      RegroupedLinks(repoId, chunks, links);
    }
  }

  lemma ItemReadsBack(repoId: string, chunks: seq<Sourced>, links: seq<Link>, i: nat)
    requires i < |chunks|
    ensures LoadedOf(ItemAt(repoId, chunks, links, i)) == ReadBack(chunks[i].0, chunks[i].1)
  {
  }

  lemma RegroupedLinks(repoId: string, chunks: seq<Sourced>, links: seq<Link>)
    ensures var saved := Dedupe(Items(repoId, chunks, links), {});
            && (forall c :: Select(FlatLinks(saved), c) == Select(Saved(links, saved), c))
            && multiset(FlatLinks(saved)) == multiset(Saved(links, saved))
  {
    var saved := Dedupe(Items(repoId, chunks, links), {});
    DedupeProperties(Items(repoId, chunks, links), {});
    ItemsSymbols(repoId, chunks, links);
    forall c ensures Select(FlatLinks(saved), c) == Select(Saved(links, saved), c) {
      FlatLinksOfChunk(saved, links, c);
      SelectOfSaved(links, saved, c);
    }
    forall l: Link ensures multiset(FlatLinks(saved))[l] == multiset(Saved(links, saved))[l] {
      SelectCounts(FlatLinks(saved), l);
      SelectCounts(Saved(links, saved), l);
    }
  }
}
