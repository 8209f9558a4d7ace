/** The index builder (src/processing.py, `process_and_index`): every row of
    the processed catalog whose image exists and embeds successfully becomes
    one entry of a freshly recreated Chroma collection. The file system and
    the CLIP image encoder are the oracles `fileExists` and `embed`. */
module Indexer {
  import opened Wrappers
  import opened Store
  import opened Text

  const CollectionName := "amazon_products"
  const DistanceSpace := "cosine"

  /** One row of `processed_products.csv` as pandas reads it; `None` is a
      missing cell (NaN). */
  datatype CatalogRow = CatalogRow(
    id: Option<string>,
    title: Option<string>,
    category: Option<string>,
    brand: Option<string>,
    description: Option<string>,
    ragContext: Option<string>,
    imagePath: Option<string>)

  /** Python's `str()` of a cell: a missing value prints as "nan". */
  function Str(cell: Option<string>): (s: string)
    ensures cell.Some? ==> s == cell.value
    ensures cell.None? ==> s == "nan"
  {
    cell.GetOr("nan")
  }

  /** The metadata dictionary of a row whose relative image path is `rel`. */
  function MetadataOf(row: CatalogRow, rel: string): (m: Metadata)
    ensures m.productId == Str(row.id) && m.imageRelativePath == rel
    ensures m.title == Str(row.title) && m.category == Str(row.category) && m.brand == Str(row.brand)
    ensures m.description == Str(row.description) && m.ragContext == Str(row.ragContext)
  {
    Metadata(Str(row.id), Str(row.title), Str(row.category), Str(row.brand),
      Str(row.description), Str(row.ragContext), rel)
  }

  /** What one iteration of the loop does with a row. */
  datatype RowOutcome =
    | Indexed(entry: Entry)
    | PathError        // a missing `image_path`: `os.path.join` raises, the handler skips the row
    | ImageMissing     // the image file does not exist: `continue`
    | EmbeddingFailed  // opening or encoding the image raised: the handler skips the row

  function ProcessRow(root: string, row: CatalogRow, fileExists: string -> bool, embed: string -> Option<Vector>)
    : (o: RowOutcome)
    ensures o.Indexed? <==> row.imagePath.Some? && fileExists(JoinPath(root, row.imagePath.value))
                            && embed(JoinPath(root, row.imagePath.value)).Some?
    ensures o.Indexed? ==> (o.entry.id == Str(row.id)
              && o.entry.embedding == embed(JoinPath(root, row.imagePath.value)).value
              && o.entry.metadata == MetadataOf(row, row.imagePath.value))
    ensures o.PathError? <==> row.imagePath.None?
  {
    match row.imagePath
    case None => PathError
    case Some(rel) =>
      var full := JoinPath(root, rel);
      if !fileExists(full) then ImageMissing
      else match embed(full)
        case None => EmbeddingFailed
        case Some(v) => Indexed(Entry(Str(row.id), v, MetadataOf(row, rel)))
  }

  /** Reference definition: the entries the loop accumulates, in row order. */
  function IndexedEntries(root: string, rows: seq<CatalogRow>, fileExists: string -> bool, embed: string -> Option<Vector>)
    : (entries: seq<Entry>)
    ensures |entries| <= |rows|
    decreases |rows|
  {
    if rows == [] then []
    else
      var o := ProcessRow(root, rows[|rows| - 1], fileExists, embed);
      IndexedEntries(root, rows[..|rows| - 1], fileExists, embed) + (if o.Indexed? then [o.entry] else [])
  }

  /** The loop over the rows: three parallel lists and `successful_count`. */
  method Accumulate(root: string, rows: seq<CatalogRow>, fileExists: string -> bool, embed: string -> Option<Vector>)
    returns (ids: seq<string>, embeddings: seq<Vector>, metadatas: seq<Metadata>, successfulCount: nat)
    ensures |ids| == |embeddings| == |metadatas| == successfulCount
    ensures successfulCount == |IndexedEntries(root, rows, fileExists, embed)|
    ensures forall k :: 0 <= k < successfulCount ==>
              Entry(ids[k], embeddings[k], metadatas[k]) == IndexedEntries(root, rows, fileExists, embed)[k]
  {
    ids, embeddings, metadatas, successfulCount := [], [], [], 0;
    var i := 0;
    while i < |rows|
      invariant 0 <= i <= |rows|
      invariant |ids| == |embeddings| == |metadatas| == successfulCount
      invariant successfulCount == |IndexedEntries(root, rows[..i], fileExists, embed)|
      invariant forall k :: 0 <= k < successfulCount ==>
                  Entry(ids[k], embeddings[k], metadatas[k]) == IndexedEntries(root, rows[..i], fileExists, embed)[k]
    {
      assert rows[..i + 1][..i] == rows[..i];
      var o := ProcessRow(root, rows[i], fileExists, embed);
      if o.Indexed? {
        ids := ids + [o.entry.id];
        embeddings := embeddings + [o.entry.embedding];
        metadatas := metadatas + [o.entry.metadata];
        successfulCount := successfulCount + 1;
      }
      i := i + 1;
    }
    assert rows[..i] == rows;
  }

  /** Row processing is compositional: the entries of a concatenation are the
      entries of each part, one after the other. */
  lemma {:induction false} IndexedEntriesAppend(root: string, a: seq<CatalogRow>, b: seq<CatalogRow>,
                                                fileExists: string -> bool, embed: string -> Option<Vector>)
    ensures IndexedEntries(root, a + b, fileExists, embed)
            == IndexedEntries(root, a, fileExists, embed) + IndexedEntries(root, b, fileExists, embed)
    decreases |b|
  {
    if b == [] {
      assert a + b == a;
    } else {
      var init := b[..|b| - 1];
      assert (a + b)[..|a + b| - 1] == a + init;
      IndexedEntriesAppend(root, a, init, fileExists, embed);
    }
  }

  /** A skipped row contributes nothing: the run is the same as without it,
      and the rows after it are still processed. */
  lemma SkippedRowContributesNothing(root: string, a: seq<CatalogRow>, row: CatalogRow, b: seq<CatalogRow>,
                                     fileExists: string -> bool, embed: string -> Option<Vector>)
    requires !ProcessRow(root, row, fileExists, embed).Indexed?
    ensures IndexedEntries(root, a + [row] + b, fileExists, embed) == IndexedEntries(root, a + b, fileExists, embed)
  {
    IndexedEntriesAppend(root, a + [row], b, fileExists, embed);
    IndexedEntriesAppend(root, a, [row], fileExists, embed);
    IndexedEntriesAppend(root, a, b, fileExists, embed);
    assert [row][..0] == [];
  }

  /** Every entry comes from some row that was indexed, and every indexed
      row has its entry in the result. */
  lemma {:induction false} IndexedEntriesFromRows(root: string, rows: seq<CatalogRow>,
                                                  fileExists: string -> bool, embed: string -> Option<Vector>)
    ensures forall e :: e in IndexedEntries(root, rows, fileExists, embed) <==>
              exists k :: 0 <= k < |rows| && ProcessRow(root, rows[k], fileExists, embed) == Indexed(e)
    decreases |rows|
  {
    if rows != [] {
      var init, last := rows[..|rows| - 1], rows[|rows| - 1];
      IndexedEntriesFromRows(root, init, fileExists, embed);
      var before := IndexedEntries(root, init, fileExists, embed);
      var o := ProcessRow(root, last, fileExists, embed);
      assert IndexedEntries(root, rows, fileExists, embed) == before + (if o.Indexed? then [o.entry] else []);
      forall e ensures e in IndexedEntries(root, rows, fileExists, embed) <==>
                       exists k :: 0 <= k < |rows| && ProcessRow(root, rows[k], fileExists, embed) == Indexed(e)
      {
        if e in before {
          var k :| 0 <= k < |init| && ProcessRow(root, init[k], fileExists, embed) == Indexed(e);
          assert rows[k] == init[k];
        }
        if exists k :: 0 <= k < |rows| && ProcessRow(root, rows[k], fileExists, embed) == Indexed(e) {
          var k :| 0 <= k < |rows| && ProcessRow(root, rows[k], fileExists, embed) == Indexed(e);
          if k < |init| {
            assert init[k] == rows[k];
          }
        }
      }
    }
  }

  /** Rows with pairwise different ids give entries with pairwise different
      ids, so the batch `add` cannot reject them as duplicates. */
  lemma {:induction false} IndexedEntriesDistinct(root: string, rows: seq<CatalogRow>,
                                                  fileExists: string -> bool, embed: string -> Option<Vector>)
    requires forall i, j :: 0 <= i < j < |rows| ==> Str(rows[i].id) != Str(rows[j].id)
    ensures !HasDuplicate(IdsOf(IndexedEntries(root, rows, fileExists, embed)))
    decreases |rows|
  {
    if rows != [] {
      var init, last := rows[..|rows| - 1], rows[|rows| - 1];
      assert forall k :: 0 <= k < |init| ==> init[k] == rows[k];
      IndexedEntriesDistinct(root, init, fileExists, embed);
      IndexedEntriesFromRows(root, init, fileExists, embed);
      var es0 := IndexedEntries(root, init, fileExists, embed);
      var o := ProcessRow(root, last, fileExists, embed);
      if o.Indexed? {
        var es := es0 + [o.entry];
        forall k | 0 <= k < |es0| ensures es0[k].id != o.entry.id {
          assert es0[k] in es0;
          var m :| 0 <= m < |init| && ProcessRow(root, init[m], fileExists, embed) == Indexed(es0[k]);
        }
        var ids := IdsOf(es);
        forall i, j | 0 <= i < j < |ids| ensures ids[i] != ids[j] {
          if j < |es0| {
            assert ids[i] == IdsOf(es0)[i] && ids[j] == IdsOf(es0)[j];
          }
        }
      }
    }
  }

  /** `delete_collection` (its error swallowed) followed by
      `create_collection`: afterwards the collection exists and is empty,
      whether or not it existed before; no other collection changes. */
  function Recreate(client: Client): (c: Client)
    ensures CollectionName in c.collections
    ensures c.collections[CollectionName] == Collection(DistanceSpace, [])
    ensures forall n :: n != CollectionName ==>
              (n in c.collections <==> n in client.collections)
              && (n in client.collections ==> c.collections[n] == client.collections[n])
  {
    var cleared := match DeleteCollection(client, CollectionName)
      case Success(c) => c
      case Failure(_) => client;
    CreateCollection(cleared, CollectionName, DistanceSpace).value
  }

  /** The state of the store after an indexing run, and the exception the
      run ended with, if any. */
  datatype IndexOutcome = IndexOutcome(client: Client, error: Option<StoreError>)

  /** `process_and_index` as written: a missing CSV leaves the store
      untouched; otherwise the collection is recreated first and, when at
      least one row was indexed, the accumulated entries are added in ONE
      batch. A rejected batch leaves the freshly emptied collection behind. */
  function ProcessAndIndex(csvExists: bool, rows: seq<CatalogRow>, root: string, client: Client,
                           fileExists: string -> bool, embed: string -> Option<Vector>, maxBatch: nat)
    : (out: IndexOutcome)
    ensures !csvExists ==> out == IndexOutcome(client, None)
    ensures csvExists ==> CollectionName in out.client.collections
    ensures csvExists ==> (out.error.None? <==>
              !HasDuplicate(IdsOf(IndexedEntries(root, rows, fileExists, embed)))
              && |IndexedEntries(root, rows, fileExists, embed)| <= maxBatch)
    ensures csvExists && HasDuplicate(IdsOf(IndexedEntries(root, rows, fileExists, embed))) ==>
              out.error == Some(DuplicateIds)
    ensures csvExists && !HasDuplicate(IdsOf(IndexedEntries(root, rows, fileExists, embed)))
            && |IndexedEntries(root, rows, fileExists, embed)| > maxBatch ==>
              out.error == Some(BatchTooLarge)
    ensures csvExists && out.error.Some? ==>
              out.client.collections[CollectionName] == Collection(DistanceSpace, [])
    ensures csvExists && out.error.None? ==>
              out.client.collections[CollectionName]
              == Collection(DistanceSpace, IndexedEntries(root, rows, fileExists, embed))
    ensures forall n :: n != CollectionName ==>
              (n in out.client.collections <==> n in client.collections)
              && (n in client.collections ==> out.client.collections[n] == client.collections[n])
  {
    if !csvExists then IndexOutcome(client, None)
    else
      var recreated := Recreate(client);
      var entries := IndexedEntries(root, rows, fileExists, embed);
      if entries == [] then IndexOutcome(recreated, None)
      else
        match AddEntries(recreated, CollectionName, entries, maxBatch)
        case Success(c) =>
          AddEntriesAppends(recreated, CollectionName, entries, maxBatch);
          IndexOutcome(c, None)
        case Failure(e) => IndexOutcome(recreated, Some(e))
  }

  /** The run the loop and the single `add` perform: the three lists
      `Accumulate` builds are those of the entries `ProcessAndIndex` adds. */
  method RunIndexing(csvExists: bool, rows: seq<CatalogRow>, root: string, client: Client,
                     fileExists: string -> bool, embed: string -> Option<Vector>, maxBatch: nat)
    returns (after: Client, error: Option<StoreError>)
    ensures IndexOutcome(after, error) == ProcessAndIndex(csvExists, rows, root, client, fileExists, embed, maxBatch)
  {
    if !csvExists {
      return client, None;
    }
    var recreated := Recreate(client);
    var ids, embeddings, metadatas, count := Accumulate(root, rows, fileExists, embed);
    ghost var entries := IndexedEntries(root, rows, fileExists, embed);
    assert ids == IdsOf(entries) && embeddings == EmbeddingsOf(entries) && metadatas == MetadatasOf(entries);
    if ids != [] {
      var r := Add(recreated, CollectionName, ids, embeddings, metadatas, maxBatch);
      if r.Success? {
        after, error := r.value, None;
      } else {
        after, error := recreated, Some(r.error);
      }
    } else {
      after, error := recreated, None;
    }
  }

  /** What the comment above the `add` promises: the entries go in as
      consecutive batches of at most `maxBatch` entries each. A rejected
      batch ends the run with the batches before it stored. */
  function AddInBatches(c: Client, name: string, batch: seq<Entry>, maxBatch: nat): (out: IndexOutcome)
    requires maxBatch > 0
    ensures name in c.collections ==> name in out.client.collections
    ensures forall n :: n != name ==>
              (n in out.client.collections <==> n in c.collections)
              && (n in c.collections ==> out.client.collections[n] == c.collections[n])
    decreases |batch|
  {
    if |batch| <= maxBatch then
      match AddEntries(c, name, batch, maxBatch)
      case Success(c2) => IndexOutcome(c2, None)
      case Failure(e) => IndexOutcome(c, Some(e))
    else
      match AddEntries(c, name, batch[..maxBatch], maxBatch)
      case Success(c2) => AddInBatches(c2, name, batch[maxBatch..], maxBatch)
      case Failure(e) => IndexOutcome(c, Some(e))
  }

  /** Splitting a batch of distinct new ids keeps both parts distinct and
      new, the second part also against the first. */
  lemma SplitBatch(existing: seq<Entry>, batch: seq<Entry>, m: nat)
    requires m <= |batch|
    requires !HasDuplicate(IdsOf(batch)) && IdsDisjoint(existing, batch)
    ensures !HasDuplicate(IdsOf(batch[..m])) && IdsDisjoint(existing, batch[..m])
    ensures !HasDuplicate(IdsOf(batch[m..])) && IdsDisjoint(existing + batch[..m], batch[m..])
  {
    var ids := IdsOf(batch);
    forall i, j | 0 <= i < j < m ensures IdsOf(batch[..m])[i] != IdsOf(batch[..m])[j] {
      assert ids[i] != ids[j];
    }
    forall i, j | 0 <= i < j < |batch| - m ensures IdsOf(batch[m..])[i] != IdsOf(batch[m..])[j] {
      assert ids[m + i] != ids[m + j];
    }
    var front := existing + batch[..m];
    forall i, j | 0 <= i < |front| && 0 <= j < |batch| - m ensures front[i].id != batch[m..][j].id {
      if i >= |existing| {
        assert ids[i - |existing|] != ids[m + j];
      }
    }
  }

  /** A successful first batch hands the rest to the next round. */
  lemma AddInBatchesUnfold(c: Client, name: string, batch: seq<Entry>, maxBatch: nat)
    requires maxBatch > 0 && |batch| > maxBatch
    requires AddEntries(c, name, batch[..maxBatch], maxBatch).Success?
    ensures AddInBatches(c, name, batch, maxBatch)
            == AddInBatches(AddEntries(c, name, batch[..maxBatch], maxBatch).value, name, batch[maxBatch..], maxBatch)
  {
  }

  /** Batched adding of distinct new ids succeeds and stores them all, in
      order, whatever the batch limit. */
  lemma {:induction false} AddInBatchesAppends(c: Client, name: string, batch: seq<Entry>, maxBatch: nat)
    requires maxBatch > 0 && name in c.collections && batch != []
    requires !HasDuplicate(IdsOf(batch)) && IdsDisjoint(c.collections[name].entries, batch)
    ensures AddInBatches(c, name, batch, maxBatch).error.None?
    ensures AddInBatches(c, name, batch, maxBatch).client.collections[name]
            == Collection(c.collections[name].space, c.collections[name].entries + batch)
    decreases |batch|
  {
    if |batch| <= maxBatch {
      AddEntriesAppends(c, name, batch, maxBatch);
    } else {
      var col := c.collections[name];
      var chunk, rest := batch[..maxBatch], batch[maxBatch..];
      assert col.entries + chunk + rest == col.entries + batch;
      assert AddEntries(c, name, chunk, maxBatch).Success?
             && name in AddEntries(c, name, chunk, maxBatch).value.collections
             && AddEntries(c, name, chunk, maxBatch).value.collections[name] == Collection(col.space, col.entries + chunk)
             && !HasDuplicate(IdsOf(rest)) && IdsDisjoint(col.entries + chunk, rest) by {
        SplitBatch(col.entries, batch, maxBatch);
        AddEntriesAppends(c, name, chunk, maxBatch);
      }
      var c2 := AddEntries(c, name, chunk, maxBatch).value;
      AddInBatchesAppends(c2, name, rest, maxBatch);
      AddInBatchesUnfold(c, name, batch, maxBatch);
    }
  }

  /** `process_and_index` with the batching its comment promises. */
  function ProcessAndIndexBatched(csvExists: bool, rows: seq<CatalogRow>, root: string, client: Client,
                                  fileExists: string -> bool, embed: string -> Option<Vector>, maxBatch: nat)
    : (out: IndexOutcome)
    requires maxBatch > 0
    ensures !csvExists ==> out == IndexOutcome(client, None)
    ensures csvExists ==> CollectionName in out.client.collections
    ensures csvExists && !HasDuplicate(IdsOf(IndexedEntries(root, rows, fileExists, embed))) ==>
              out.error.None?
              && out.client.collections[CollectionName]
                 == Collection(DistanceSpace, IndexedEntries(root, rows, fileExists, embed))
    ensures forall n :: n != CollectionName ==>
              (n in out.client.collections <==> n in client.collections)
              && (n in client.collections ==> out.client.collections[n] == client.collections[n])
  {
    if !csvExists then IndexOutcome(client, None)
    else
      var recreated := Recreate(client);
      var entries := IndexedEntries(root, rows, fileExists, embed);
      if entries == [] then IndexOutcome(recreated, None)
      else
        var out := AddInBatches(recreated, CollectionName, entries, maxBatch);
        if !HasDuplicate(IdsOf(entries)) then
          AddInBatchesAppends(recreated, CollectionName, entries, maxBatch);
          out
        else out
  }

  /** The single `add` rejects a catalog with more indexed images than the
      batch limit and leaves the collection empty, although the ids are
      distinct; batching indexes all of them. */
  lemma OversizedBatchEmptiesIndex(rows: seq<CatalogRow>, root: string, client: Client,
                                   fileExists: string -> bool, embed: string -> Option<Vector>, maxBatch: nat)
    requires maxBatch > 0
    requires !HasDuplicate(IdsOf(IndexedEntries(root, rows, fileExists, embed)))
    requires |IndexedEntries(root, rows, fileExists, embed)| > maxBatch
    ensures var single := ProcessAndIndex(true, rows, root, client, fileExists, embed, maxBatch);
            single.error == Some(BatchTooLarge)
            && single.client.collections[CollectionName].entries == []
    ensures var batched := ProcessAndIndexBatched(true, rows, root, client, fileExists, embed, maxBatch);
            batched.error.None?
            && batched.client.collections[CollectionName].entries == IndexedEntries(root, rows, fileExists, embed)
  {
  }

  /** A concrete instance: two products with images and a batch limit of
      one entry. */
  lemma TwoImagesOverflowOneEntryBatch()
    ensures var rows := [CatalogRow(Some("A1"), None, None, None, None, None, Some("data/images/A1.jpg")),
                         CatalogRow(Some("B2"), None, None, None, None, None, Some("data/images/B2.jpg"))];
            var client := Client(map[]);
            ProcessAndIndex(true, rows, "/srv", client, p => true, p => Some([1.0]), 1).error == Some(BatchTooLarge)
            && ProcessAndIndexBatched(true, rows, "/srv", client, p => true, p => Some([1.0]), 1).error.None?
  {
    var rows := [CatalogRow(Some("A1"), None, None, None, None, None, Some("data/images/A1.jpg")),
                 CatalogRow(Some("B2"), None, None, None, None, None, Some("data/images/B2.jpg"))];
    var fileExists: string -> bool := p => true;
    var embed: string -> Option<Vector> := p => Some([1.0]);
    assert rows[..1][..0] == [];
    var entries := IndexedEntries("/srv", rows, fileExists, embed);
    assert |entries| == 2 && entries[0].id == "A1" && entries[1].id == "B2";
    assert !HasDuplicate(IdsOf(entries));
    OversizedBatchEmptiesIndex(rows, "/srv", Client(map[]), fileExists, embed, 1);
  }

  /** Whenever the single `add` succeeds, batching gives the same store. */
  lemma BatchedAgreesWithSingle(csvExists: bool, rows: seq<CatalogRow>, root: string, client: Client,
                                fileExists: string -> bool, embed: string -> Option<Vector>, maxBatch: nat)
    requires maxBatch > 0
    requires ProcessAndIndex(csvExists, rows, root, client, fileExists, embed, maxBatch).error.None?
    ensures ProcessAndIndexBatched(csvExists, rows, root, client, fileExists, embed, maxBatch)
            == ProcessAndIndex(csvExists, rows, root, client, fileExists, embed, maxBatch)
  {
    var single := ProcessAndIndex(csvExists, rows, root, client, fileExists, embed, maxBatch);
    var batched := ProcessAndIndexBatched(csvExists, rows, root, client, fileExists, embed, maxBatch);
    if csvExists {
      assert batched.client.collections == single.client.collections;
    }
  }
}
