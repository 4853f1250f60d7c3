/** What a saved chunk's row holds, field by field, and how the loaded links are grouped. */
module PendingChunkFields {
  import opened Wrappers
  import opened PendingChunks

  const DERIVED: set<string> := {"file_path", "repo_id", "symbols_defined", "symbols_referenced", "commit_sha"}

  /** The stored metadata: the chunk's own entries, and the derived ones it does not set. */
  ghost predicate IsMetadataOf(m: Metadata, repoId: string, c: Chunk, filePath: string) {
    && m.Keys == c.metadata.Keys + DERIVED
    && (forall key :: key in c.metadata ==> m[key] == c.metadata[key])
    && ("file_path" !in c.metadata ==> m["file_path"] == Text(filePath))
    && ("repo_id" !in c.metadata ==> m["repo_id"] == Text(repoId))
    && ("symbols_defined" !in c.metadata ==> m["symbols_defined"] == Texts(c.symbolsDefined))
    && ("symbols_referenced" !in c.metadata ==> m["symbols_referenced"] == Texts(c.symbolsReferenced))
    && ("commit_sha" !in c.metadata ==> m["commit_sha"] == Text(c.commitSha))
  }

  /** The symbols are those of the chunk's links: one for each link, in link order. */
  ghost predicate AreSymbolsOf(symbolIds: seq<string>, links: seq<Link>, chunkId: string) {
    exists at: seq<nat> ::
      && |at| == |symbolIds|
      && (forall k :: 0 <= k < |at| ==> at[k] < |links| && links[at[k]] == Link(symbolIds[k], chunkId))
      && (forall i, k :: 0 <= i < k < |at| ==> at[i] < at[k])
      && (forall p: nat :: p < |links| && links[p].chunkId == chunkId ==> p in at)
  }

  /** The item holds what the chunk says, the symbols linked to it, and its metadata. */
  ghost predicate Describes(item: Item, repoId: string, c: Chunk, filePath: string, links: seq<Link>) {
    && item.chunkId == c.chunkId && item.filePath == filePath && item.content == c.content
    && item.startLine == c.startLine && item.endLine == c.endLine
    && item.chunkType == c.chunkType && item.language == c.language
    && IsMetadataOf(item.metadata, repoId, c, filePath)
    && AreSymbolsOf(item.symbolIds, links, c.chunkId)
  }

  lemma {:induction false} SymbolPositions(links: seq<Link>, chunkId: string) returns (at: seq<nat>)
    ensures |at| == |Symbols(links, chunkId)|
    ensures forall k :: 0 <= k < |at| ==> at[k] < |links| && links[at[k]] == Link(Symbols(links, chunkId)[k], chunkId)
    ensures forall i, k :: 0 <= i < k < |at| ==> at[i] < at[k]
    ensures forall p: nat :: p < |links| && links[p].chunkId == chunkId ==> p in at
  {
    at := [];
    if |links| > 0 {
      var init, last := links[..|links| - 1], |links| - 1;
      at := SymbolPositions(init, chunkId);
      assert forall p :: 0 <= p < last ==> init[p] == links[p];
      if links[last].chunkId == chunkId {
        var more := at + [last];
        assert forall p: nat :: p in at ==> p in more;
        assert more[|at|] == last;
        at := more;
      }
    }
  }

  lemma ItemDescribes(repoId: string, chunks: seq<Sourced>, links: seq<Link>, i: nat)
    requires i < |chunks|
    ensures Describes(ItemAt(repoId, chunks, links, i), repoId, chunks[i].0, chunks[i].1, links)
  {
    var at := SymbolPositions(links, chunks[i].0.chunkId);
    hide Symbols;
    assert AreSymbolsOf(ItemAt(repoId, chunks, links, i).symbolIds, links, chunks[i].0.chunkId);
    hide AreSymbolsOf;
    MetadataIs(repoId, chunks[i].0, chunks[i].1);
  }

  lemma MetadataIs(repoId: string, c: Chunk, filePath: string)
    ensures IsMetadataOf(SavedMetadata(repoId, c, filePath), repoId, c, filePath)
  {
  }

  /** After a save that works the repository holds one item for each first occurrence of a
      non-empty chunk id, in input order, that describes the chunk. */
  lemma SavedItemsDescribe(
        rows: seq<Row>, id: nat, db: Database, repoId: string, chunks: seq<Sourced>, links: seq<Link>)
    requires (db.hasConstraint && repoId in db.live) || !AnyId(chunks)
    ensures var table := AfterSave(rows, repoId, Dedupe(Items(repoId, chunks, links), {}), id, db);
            var items, firsts := ItemsOf(table, repoId), Firsts(chunks, 0);
            && |items| == |firsts|
            && forall k :: 0 <= k < |firsts| ==>
                 Describes(items[k], repoId, chunks[firsts[k]].0, chunks[firsts[k]].1, links)
  {
    hide Dedupe, Items, Without, Numbered, Firsts, IsFirst, ItemAt, Describes, ItemsOf;
    var saved := Dedupe(Items(repoId, chunks, links), {});
    SaveFailsExactlyWhen(repoId, chunks, links, db);
    SavedItems(rows, repoId, saved, id, repoId);
    DedupeKeepsFirsts(repoId, chunks, links, 0);
    assert chunks[0..] == chunks && IdsBefore(chunks, 0) == {};
    var firsts := Firsts(chunks, 0);
    forall k | 0 <= k < |firsts|
      ensures Describes(saved[k], repoId, chunks[firsts[k]].0, chunks[firsts[k]].1, links)
    {
      ItemDescribes(repoId, chunks, links, firsts[k]);
    }
  }

  lemma {:induction false} LinksOfOneItem(item: Item, symbolIds: seq<string>)
    ensures |LinksOf(item, symbolIds)| == |symbolIds|
    ensures forall k :: 0 <= k < |symbolIds| ==> LinksOf(item, symbolIds)[k] == Link(symbolIds[k], item.chunkId)
  {
    if |symbolIds| > 0 {
      LinksOfOneItem(item, symbolIds[1..]);
    }
  }

  /** The loaded links come in the order of the items they belong to. */
  lemma {:induction false} LinksFollowItems(items: seq<Item>) returns (at: seq<nat>)
    ensures |at| == |FlatLinks(items)|
    ensures forall p :: 0 <= p < |at| ==> at[p] < |items| && FlatLinks(items)[p].chunkId == items[at[p]].chunkId
    ensures forall p, q :: 0 <= p < q < |at| ==> at[p] <= at[q]
  {
    at := [];
    if |items| > 0 {
      var rest := LinksFollowItems(items[1..]);
      var n := |items[0].symbolIds|;
      LinksOfOneItem(items[0], items[0].symbolIds);
      hide LinksOf;
      at := seq(n, _ => 0) + seq(|rest|, p requires 0 <= p < |rest| => rest[p] + 1);
      forall p | 0 <= p < |at|
        ensures at[p] < |items| && FlatLinks(items)[p].chunkId == items[at[p]].chunkId
      {
        if p >= n {
          assert FlatLinks(items)[p] == FlatLinks(items[1..])[p - n];
        }
      }
    }
  }

  /** Position `p` of the batch has the row's key. */
  predicate MeetsAt(r: Row, repoId: string, batch: seq<Item>, p: nat) {
    p < |batch| && r.repoId == repoId && r.item.chunkId == batch[p].chunkId
  }

  ghost predicate Meets(r: Row, repoId: string, batch: seq<Item>) {
    exists p: nat :: MeetsAt(r, repoId, batch, p)
  }

  lemma UpsertOneReplaces(rows: seq<Row>, repoId: string, item: Item, id: nat, k: nat)
    requires ValidRows(rows, id) && k < |rows|
    ensures var after := UpsertOne(rows, repoId, item, id);
            && k < |after|
            && after[k] == if Conflicts(rows[k], repoId, item) then Row(rows[k].id, rows[k].repoId, item) else rows[k]
  {
    var at := FirstConflict(rows, 0, repoId, item);
    assert at < k ==> Apart(rows[at], rows[k]);
  }

  /** One statement: a row whose key is in the batch keeps its place and id and takes the
      item; every other row stays as it is. */
  lemma {:induction false} UpsertReplacesInPlace(rows: seq<Row>, repoId: string, batch: seq<Item>, id: nat, k: nat)
    requires ValidRows(rows, id) && DistinctIds(batch) && k < |rows|
    ensures var after := Upserted(rows, repoId, batch, id);
            && k < |after|
            && (forall p: nat :: MeetsAt(rows[k], repoId, batch, p) ==>
                  after[k] == Row(rows[k].id, rows[k].repoId, batch[p]))
            && (!Meets(rows[k], repoId, batch) ==> after[k] == rows[k])
    decreases |batch|
  {
    if |batch| > 0 {
      var next, rest := UpsertOne(rows, repoId, batch[0], id), batch[1..];
      UpsertOneReplaces(rows, repoId, batch[0], id, k);
      UpsertOneValid(rows, repoId, batch[0], id);
      assert forall p :: 0 < p < |batch| ==> batch[p] == rest[p - 1];
      hide UpsertOne, ValidRows;
      UpsertReplacesInPlace(next, repoId, rest, id + 1, k);
      forall p: nat | MeetsAt(rows[k], repoId, batch, p)
        ensures Upserted(rows, repoId, batch, id)[k] == Row(rows[k].id, rows[k].repoId, batch[p])
      {
        if p > 0 {
          assert batch[0].chunkId != batch[p].chunkId;
          assert MeetsAt(next[k], repoId, rest, p - 1);
        } else {
          NoneLater(next[k], repoId, batch);
        }
      }
      if Meets(next[k], repoId, rest) && !Conflicts(rows[k], repoId, batch[0]) {
        var p: nat :| MeetsAt(next[k], repoId, rest, p);
        assert MeetsAt(rows[k], repoId, batch, p + 1);
      }
      if Conflicts(rows[k], repoId, batch[0]) {
        assert MeetsAt(rows[k], repoId, batch, 0);
      }
    }
  }

  lemma NoneLater(r: Row, repoId: string, batch: seq<Item>)
    requires |batch| > 0 && DistinctIds(batch) && r.item == batch[0]
    ensures !Meets(r, repoId, batch[1..])
  {
    assert forall p :: 0 < p < |batch| ==> batch[0].chunkId != batch[p].chunkId;
  }
}
