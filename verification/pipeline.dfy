/** The hand-off between the two offline stages: the records written by the
    catalog pipeline are the rows the index builder reads back. */
module Pipeline {
  import opened Wrappers
  import opened Store
  import opened Catalog
  import opened Indexer

  /** The cell texts pandas reads back as a missing value by default: the
      empty text, "nan", "NA", "null" and the other spellings of a missing
      number. */
  const MissingMarkers: set<string> :=
    {"", "#N/A", "#N/A N/A", "#NA", "-1.#IND", "-1.#QNAN", "-NaN", "-nan", "1.#IND", "1.#QNAN",
     "<NA>", "N/A", "NA", "NULL", "NaN", "None", "n/a", "nan", "null"}

  /** A written cell read back: a missing-value marker becomes a missing cell. */
  function ReadCell(text: string): (cell: Option<string>)
    ensures cell.None? <==> text in MissingMarkers
    ensures cell.Some? ==> cell.value == text
  {
    if text in MissingMarkers then None else Some(text)
  }

  /** What `str()` gives for a written cell after the read-back: the text
      itself, except that every missing-value marker prints as "nan". */
  function ReadBack(text: string): (s: string)
    ensures s == text <==> text !in MissingMarkers || text == "nan"
    ensures text in MissingMarkers ==> s == "nan"
  {
    Str(ReadCell(text))
  }

  /** Distinct texts stay distinct after the read-back unless both are
      missing-value markers. */
  lemma ReadBackInjective(a: string, b: string)
    requires a != b && !(a in MissingMarkers && b in MissingMarkers)
    ensures ReadBack(a) != ReadBack(b)
  {
    assert "nan" in MissingMarkers;
  }

  /** Two different product ids that both read back as "nan". */
  lemma MissingIdsCollide()
    ensures ReadBack("") == ReadBack("NA") == "nan"
  {
    assert "" in MissingMarkers && "NA" in MissingMarkers;
  }

  /** No image path is a missing-value marker: every one ends in ".jpg". */
  lemma ImagePathReadsBack(id: string)
    ensures ImagePath(id) !in MissingMarkers
  {
    var path := ImagePath(id);
    assert path[|path| - 1] == 'g';
  }

  /** A record of `processed_products.csv` read back: each cell is the
      written text, or missing when that text is a missing-value marker. */
  function AsCatalogRow(rec: ProductRecord): (row: CatalogRow)
    ensures Str(row.id) == ReadBack(rec.id) && Str(row.title) == ReadBack(rec.title)
    ensures Str(row.category) == ReadBack(rec.category) && Str(row.brand) == ReadBack(rec.brand)
    ensures Str(row.description) == ReadBack(rec.description) && Str(row.ragContext) == ReadBack(rec.ragContext)
    ensures row.imagePath.None? <==> rec.imagePath in MissingMarkers
    ensures row.imagePath.Some? ==> row.imagePath.value == rec.imagePath
  {
    CatalogRow(ReadCell(rec.id), ReadCell(rec.title), ReadCell(rec.category), ReadCell(rec.brand),
      ReadCell(rec.description), ReadCell(rec.ragContext), ReadCell(rec.imagePath))
  }

  function AsCatalogRows(records: seq<ProductRecord>): (rows: seq<CatalogRow>)
    ensures |rows| == |records|
    ensures forall k :: 0 <= k < |records| ==> rows[k] == AsCatalogRow(records[k])
  {
    seq(|records|, k requires 0 <= k < |records| => AsCatalogRow(records[k]))
  }

  /** The metadata stored for a record: each text field as `str()` prints
      it after the read-back, and the image path as written. */
  function RecordMetadata(rec: ProductRecord): (m: Metadata)
    ensures m.productId == ReadBack(rec.id) && m.imageRelativePath == rec.imagePath
    ensures m.title == ReadBack(rec.title) && m.category == ReadBack(rec.category)
    ensures m.brand == ReadBack(rec.brand) && m.description == ReadBack(rec.description)
    ensures m.ragContext == ReadBack(rec.ragContext)
  {
    Metadata(ReadBack(rec.id), ReadBack(rec.title), ReadBack(rec.category), ReadBack(rec.brand),
      ReadBack(rec.description), ReadBack(rec.ragContext), rec.imagePath)
  }

  /** The metadata copies the record exactly when no text field is a
      missing-value marker other than "nan" itself. */
  lemma MetadataCopiesRecord(rec: ProductRecord)
    ensures RecordMetadata(rec)
            == Metadata(rec.id, rec.title, rec.category, rec.brand, rec.description, rec.ragContext, rec.imagePath)
            <==>
            && (rec.id !in MissingMarkers || rec.id == "nan")
            && (rec.title !in MissingMarkers || rec.title == "nan")
            && (rec.category !in MissingMarkers || rec.category == "nan")
            && (rec.brand !in MissingMarkers || rec.brand == "nan")
            && (rec.description !in MissingMarkers || rec.description == "nan")
            && (rec.ragContext !in MissingMarkers || rec.ragContext == "nan")
  {
  }

  /** Every entry indexed from read-back records carries the metadata of the
      record it was built from, and that record's id as `str()` prints it. */
  lemma EntryFromRecord(records: seq<ProductRecord>, root: string, fileExists: string -> bool,
                        embed: string -> Option<Vector>, e: Entry)
    returns (rec: ProductRecord)
    requires e in IndexedEntries(root, AsCatalogRows(records), fileExists, embed)
    ensures rec in records && e.id == ReadBack(rec.id) && e.metadata == RecordMetadata(rec)
  {
    var rows := AsCatalogRows(records);
    IndexedEntriesFromRows(root, rows, fileExists, embed);
    var k :| 0 <= k < |rows| && ProcessRow(root, rows[k], fileExists, embed) == Indexed(e);
    rec := records[k];
    assert e.metadata == RecordMetadata(rec);
  }

  /** At most one record has an id that reads back as missing. */
  predicate AtMostOneMissingId(records: seq<ProductRecord>) {
    forall i, j :: 0 <= i < j < |records| ==> !(records[i].id in MissingMarkers && records[j].id in MissingMarkers)
  }

  /** Distinct record ids stay distinct after the read-back when at most
      one of them is a missing-value marker. */
  lemma ReadBackIdsDistinct(records: seq<ProductRecord>)
    requires forall i, j :: 0 <= i < j < |records| ==> records[i].id != records[j].id
    requires AtMostOneMissingId(records)
    ensures var rows := AsCatalogRows(records);
            forall i, j :: 0 <= i < j < |rows| ==> Str(rows[i].id) != Str(rows[j].id)
  {
    var rows := AsCatalogRows(records);
    forall i, j | 0 <= i < j < |rows| ensures Str(rows[i].id) != Str(rows[j].id) {
      ReadBackInjective(records[i].id, records[j].id);
    }
  }

  /** An entry indexed from the catalog output carries the metadata of a
      record whose id it prints and whose image file is named after that id. */
  lemma CatalogEntry(f: Frame, onDisk: string -> bool, fetch: (string, string) -> bool,
                     root: string, fileExists: string -> bool, embed: string -> Option<Vector>, e: Entry)
    requires e in IndexedEntries(root, AsCatalogRows(RunEtl(f, onDisk, fetch)), fileExists, embed)
    ensures exists rec :: rec in RunEtl(f, onDisk, fetch) && e.id == ReadBack(rec.id)
              && e.metadata == RecordMetadata(rec) && e.metadata.imageRelativePath == ImagePath(rec.id)
  {
    var rec := EntryFromRecord(RunEtl(f, onDisk, fetch), root, fileExists, embed, e);
    RecordImagePath(f, onDisk, fetch, rec);
  }

  /** Every record of the catalog output names its image file after its id. */
  lemma RecordImagePath(f: Frame, onDisk: string -> bool, fetch: (string, string) -> bool, rec: ProductRecord)
    requires rec in RunEtl(f, onDisk, fetch)
    ensures rec.imagePath == ImagePath(rec.id)
  {
    var p := RecordSource(f, onDisk, fetch, rec);
  }

  /** Indexing the catalog's own output: the ids stay distinct unless two
      records have ids that read back as missing (see `MissingIdsCollide`),
      and every indexed entry carries the metadata of a record whose id it
      prints and whose image file is named after that id. */
  lemma IndexingCatalogOutput(f: Frame, onDisk: string -> bool, fetch: (string, string) -> bool,
                              root: string, fileExists: string -> bool, embed: string -> Option<Vector>)
    ensures var records := RunEtl(f, onDisk, fetch);
            var rows := AsCatalogRows(records);
            && (AtMostOneMissingId(records) ==> !HasDuplicate(IdsOf(IndexedEntries(root, rows, fileExists, embed))))
            && forall e :: e in IndexedEntries(root, rows, fileExists, embed) ==>
                 exists rec :: rec in records && e.id == ReadBack(rec.id) && e.metadata == RecordMetadata(rec)
                   && e.metadata.imageRelativePath == ImagePath(rec.id)
  {
    var records := RunEtl(f, onDisk, fetch);
    var rows := AsCatalogRows(records);
    if AtMostOneMissingId(records) {
      RunEtlDeduplicates(f, onDisk, fetch);
      ReadBackIdsDistinct(records);
      IndexedEntriesDistinct(root, rows, fileExists, embed);
    }
    forall e | e in IndexedEntries(root, rows, fileExists, embed)
      ensures exists rec :: rec in records && e.id == ReadBack(rec.id) && e.metadata == RecordMetadata(rec)
                && e.metadata.imageRelativePath == ImagePath(rec.id)
    {
      CatalogEntry(f, onDisk, fetch, root, fileExists, embed, e);
    }
  }

  /** The catalog stage writes no record exactly when it saves no image. */
  lemma RunEtlEmpty(f: Frame, onDisk: string -> bool, fetch: (string, string) -> bool)
    ensures RunEtl(f, onDisk, fetch) == [] <==>
              forall p :: p in Products(PrepareAll(f.rows)) ==> !ImageSaved(p, onDisk, fetch)
  {
    var rows := PrepareAll(f.rows);
    forall p | p in Products(rows) && ImageSaved(p, onDisk, fetch) ensures RunEtl(f, onDisk, fetch) != [] {
      assert BuildRecord(p, ReviewsFor(rows, p.id), f.hasBrand) in RunEtl(f, onDisk, fetch);
    }
    if RunEtl(f, onDisk, fetch) != [] {
      var rec := RunEtl(f, onDisk, fetch)[0];
      var p := RecordSource(f, onDisk, fetch, rec);
    }
  }

  /** The index builder run on the file the catalog stage wrote. */
  datatype CatalogRun =
    | Unreadable        // the file has no header line and reading it raises; the store is untouched
    | Ran(outcome: IndexOutcome)

  /** With no record, the catalog stage writes a file without even a header
      line, which the index builder cannot read; otherwise the batched index
      builder runs on the rows read back. */
  function IndexWrittenCatalog(records: seq<ProductRecord>, root: string, client: Client,
                               fileExists: string -> bool, embed: string -> Option<Vector>, maxBatch: nat)
    : (run: CatalogRun)
    requires maxBatch > 0
    ensures run.Unreadable? <==> records == []
    ensures run.Ran? ==>
              run.outcome == ProcessAndIndexBatched(true, AsCatalogRows(records), root, client, fileExists, embed, maxBatch)
  {
    if records == [] then Unreadable
    else Ran(ProcessAndIndexBatched(true, AsCatalogRows(records), root, client, fileExists, embed, maxBatch))
  }

  /** End to end, with the batching the indexer's comment promises: when no
      product image was saved, the index builder cannot read the catalog;
      otherwise, unless two ids read back as missing, indexing never fails
      and the collection holds exactly the entries of the records whose
      image exists and embeds. */
  lemma IndexCatalog(f: Frame, onDisk: string -> bool, fetch: (string, string) -> bool,
                     root: string, client: Client, fileExists: string -> bool, embed: string -> Option<Vector>,
                     maxBatch: nat)
    requires maxBatch > 0
    ensures var records := RunEtl(f, onDisk, fetch);
            var run := IndexWrittenCatalog(records, root, client, fileExists, embed, maxBatch);
            && (run.Unreadable? <==>
                  forall p :: p in Products(PrepareAll(f.rows)) ==> !ImageSaved(p, onDisk, fetch))
            && (run.Ran? && AtMostOneMissingId(records) ==>
                  && run.outcome.error.None?
                  && run.outcome.client.collections[CollectionName]
                     == Collection(DistanceSpace, IndexedEntries(root, AsCatalogRows(records), fileExists, embed)))
  {
    RunEtlEmpty(f, onDisk, fetch);
    IndexingCatalogOutput(f, onDisk, fetch, root, fileExists, embed);
  }
}
