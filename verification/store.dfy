/** The part of a ChromaDB client the indexer and the search engine use:
    named collections of (id, embedding, metadata) entries, deletion,
    creation and a batch `add`. Nearest-neighbour search itself is not
    modelled here; the search engine receives its results as an oracle. */
module Store {
  import opened Wrappers

  /** An embedding as a list of numbers (the floats are modelled as reals). */
  type Vector = seq<real>

  /** The metadata dictionary stored with every product vector. */
  datatype Metadata = Metadata(
    productId: string,
    title: string,
    category: string,
    brand: string,
    description: string,
    ragContext: string,
    imageRelativePath: string)

  datatype Entry = Entry(id: string, embedding: Vector, metadata: Metadata)

  /** A collection: its distance space and its entries in insertion order. */
  datatype Collection = Collection(space: string, entries: seq<Entry>)

  /** A persistent client: the collections by name. */
  datatype Client = Client(collections: map<string, Collection>)

  datatype StoreError =
    | NoSuchCollection(name: string)
    | CollectionExists(name: string)
    | EmptyBatch
    | LengthMismatch
    | DuplicateIds
    | BatchTooLarge

  /** Deleting a collection by name; deleting a collection that does not
      exist is an error. */
  function DeleteCollection(c: Client, name: string): (r: Result<Client, StoreError>)
    ensures r.Failure? <==> name !in c.collections
    ensures r.Failure? ==> r.error == NoSuchCollection(name)
    ensures r.Success? ==> name !in r.value.collections
    ensures r.Success? ==> forall n :: n != name ==>
              (n in r.value.collections <==> n in c.collections)
              && (n in c.collections ==> r.value.collections[n] == c.collections[n])
  {
    if name in c.collections then Success(Client(c.collections - {name}))
    else Failure(NoSuchCollection(name))
  }

  /** Creating a collection whose index uses the distance `space`; creating
      a name that is taken is an error. */
  function CreateCollection(c: Client, name: string, space: string): (r: Result<Client, StoreError>)
    ensures r.Failure? <==> name in c.collections
    ensures r.Success? ==> (name in r.value.collections
              && r.value.collections[name] == Collection(space, []))
    ensures r.Success? ==> forall n :: n != name ==>
              (n in r.value.collections <==> n in c.collections)
              && (n in c.collections ==> r.value.collections[n] == c.collections[n])
  {
    if name in c.collections then Failure(CollectionExists(name))
    else Success(Client(c.collections[name := Collection(space, [])]))
  }

  /** Does some id occur twice in `ids`? */
  predicate HasDuplicate(ids: seq<string>) {
    exists i, j :: 0 <= i < j < |ids| && ids[i] == ids[j]
  }

  function IdsOf(entries: seq<Entry>): (ids: seq<string>)
    ensures |ids| == |entries|
    ensures forall k :: 0 <= k < |entries| ==> ids[k] == entries[k].id
  {
    seq(|entries|, k requires 0 <= k < |entries| => entries[k].id)
  }

  /** The batch entries whose id the collection does not hold yet: Chroma
      ignores (with a warning) an `add` of an id that already exists. */
  function NewEntries(existing: seq<Entry>, batch: seq<Entry>): (added: seq<Entry>)
    ensures |added| <= |batch|
    ensures forall e :: e in added <==> e in batch && e.id !in IdsOf(existing)
    decreases |batch|
  {
    if batch == [] then []
    else
      var rest := NewEntries(existing, batch[1..]);
      assert forall e :: e in batch <==> e == batch[0] || e in batch[1..];
      if batch[0].id in IdsOf(existing) then rest else [batch[0]] + rest
  }

  /** Adding a batch given as three parallel lists of ids, embeddings and
      metadata: the batch must be non-empty, the three lists of equal length, the ids pairwise distinct
      and the batch no larger than the client's maximum batch size
      `maxBatch`; the new entries are appended in batch order. */
  function Add(c: Client, name: string, ids: seq<string>, embeddings: seq<Vector>, metadatas: seq<Metadata>,
               maxBatch: nat)
    : (r: Result<Client, StoreError>)
    ensures r.Success? <==> name in c.collections && ids != [] && |ids| == |embeddings| == |metadatas|
                            && !HasDuplicate(ids) && |ids| <= maxBatch
    ensures r.Success? ==> (name in r.value.collections
              && r.value.collections[name].space == c.collections[name].space
              && c.collections[name].entries <= r.value.collections[name].entries)
    ensures r.Success? ==> forall n :: n != name ==>
              (n in r.value.collections <==> n in c.collections)
              && (n in c.collections ==> r.value.collections[n] == c.collections[n])
  {
    if name !in c.collections then Failure(NoSuchCollection(name))
    else if ids == [] then Failure(EmptyBatch)
    else if !(|ids| == |embeddings| == |metadatas|) then Failure(LengthMismatch)
    else if HasDuplicate(ids) then Failure(DuplicateIds)
    else if |ids| > maxBatch then Failure(BatchTooLarge)
    else
      var col := c.collections[name];
      var batch := seq(|ids|, k requires 0 <= k < |ids| => Entry(ids[k], embeddings[k], metadatas[k]));
      Success(Client(c.collections[name := Collection(col.space, col.entries + NewEntries(col.entries, batch))]))
  }

  /** The three parallel lists of a sequence of entries. */
  function EmbeddingsOf(entries: seq<Entry>): (vs: seq<Vector>)
    ensures |vs| == |entries|
    ensures forall k :: 0 <= k < |entries| ==> vs[k] == entries[k].embedding
  {
    seq(|entries|, k requires 0 <= k < |entries| => entries[k].embedding)
  }

  function MetadatasOf(entries: seq<Entry>): (ms: seq<Metadata>)
    ensures |ms| == |entries|
    ensures forall k :: 0 <= k < |entries| ==> ms[k] == entries[k].metadata
  {
    seq(|entries|, k requires 0 <= k < |entries| => entries[k].metadata)
  }

  /** `add` of the three parallel lists of `batch`. */
  function AddEntries(c: Client, name: string, batch: seq<Entry>, maxBatch: nat): Result<Client, StoreError> {
    Add(c, name, IdsOf(batch), EmbeddingsOf(batch), MetadatasOf(batch), maxBatch)
  }

  /** No id of `batch` is stored in `existing`. */
  predicate IdsDisjoint(existing: seq<Entry>, batch: seq<Entry>) {
    forall i, j :: 0 <= i < |existing| && 0 <= j < |batch| ==> existing[i].id != batch[j].id
  }

  /** A batch of new ids is stored as it is. */
  lemma {:induction false} NewEntriesDisjoint(existing: seq<Entry>, batch: seq<Entry>)
    requires IdsDisjoint(existing, batch)
    ensures NewEntries(existing, batch) == batch
    decreases |batch|
  {
    if batch != [] {
      assert IdsDisjoint(existing, batch[1..]) by {
        forall i, j | 0 <= i < |existing| && 0 <= j < |batch[1..]| ensures existing[i].id != batch[1..][j].id {
          assert batch[1..][j] == batch[j + 1];
        }
      }
      NewEntriesDisjoint(existing, batch[1..]);
      assert batch[0].id !in IdsOf(existing) by {
        forall i | 0 <= i < |existing| ensures IdsOf(existing)[i] != batch[0].id {
          assert existing[i].id != batch[0].id;
        }
      }
    }
  }

  /** Adding a valid batch of new ids appends exactly the batch. */
  lemma AddEntriesAppends(c: Client, name: string, batch: seq<Entry>, maxBatch: nat)
    requires name in c.collections
    requires batch != [] && |batch| <= maxBatch && !HasDuplicate(IdsOf(batch))
    requires IdsDisjoint(c.collections[name].entries, batch)
    ensures AddEntries(c, name, batch, maxBatch).Success?
    ensures var c2 := AddEntries(c, name, batch, maxBatch).value;
            && name in c2.collections
            && c2.collections[name] == Collection(c.collections[name].space, c.collections[name].entries + batch)
  {
    var ids, vs, ms := IdsOf(batch), EmbeddingsOf(batch), MetadatasOf(batch);
    var built := seq(|ids|, k requires 0 <= k < |ids| => Entry(ids[k], vs[k], ms[k]));
    assert built == batch;
    NewEntriesDisjoint(c.collections[name].entries, batch);
  }

  /** Adding a valid batch to an empty collection stores exactly the batch,
      entry `k` built from position `k` of the three lists. */
  lemma AddToEmpty(c: Client, name: string, ids: seq<string>, embeddings: seq<Vector>, metadatas: seq<Metadata>,
                   maxBatch: nat)
    requires name in c.collections && c.collections[name].entries == []
    requires ids != [] && |ids| == |embeddings| == |metadatas| && !HasDuplicate(ids) && |ids| <= maxBatch
    ensures Add(c, name, ids, embeddings, metadatas, maxBatch).Success?
    ensures var es := Add(c, name, ids, embeddings, metadatas, maxBatch).value.collections[name].entries;
            |es| == |ids| && forall k :: 0 <= k < |ids| ==> es[k] == Entry(ids[k], embeddings[k], metadatas[k])
  {
    var batch := seq(|ids|, k requires 0 <= k < |ids| => Entry(ids[k], embeddings[k], metadatas[k]));
    assert IdsDisjoint([], batch);
    NewEntriesDisjoint([], batch);
    var col := c.collections[name];
    assert col.entries + NewEntries(col.entries, batch) == batch;
  }
}
