# Multimodal product retrieval: a Dafny model of the retrieval core

The system lets a shopper find Amazon catalog products either by a text
description or by an example photograph. Three offline and online stages
form its core, and this project models all three:

1. **Catalog pipeline** (`src/etl_pipeline.py`, `run_etl`). Review rows are
   cleaned, grouped by ASIN and deduplicated. One image per product is
   downloaded. One record per product goes to `processed_products.csv`: id,
   title, category, brand, description, RAG context and image path.
2. **Index builder** (`src/processing.py`, `process_and_index`). Every
   catalog row whose image file exists and can be embedded becomes one entry
   of a freshly recreated Chroma collection `amazon_products`, which uses the
   cosine space.
3. **Search** (`src/retrieval.py`, `SearchEngine.search`). A query is an
   image query when it names an existing file ending in `.jpg`, `.png` or
   `.jpeg`, in any letter case; otherwise it is a text query. Candidates come
   back from the collection with `score = 1 - distance` and a 1-based
   retrieval rank. For text queries, a cross-encoder scores
   (query, description) pairs and a stable descending sort reorders the
   candidates. The answer is `candidates[:top_k_final]`.

Behaviour of the code worth knowing before reading the model:
- A search answer is just `candidates[:top_k_final]`: there is no score floor and no cut after a dominant first hit.
- The query is a plain string. It counts as an image only through the path-and-extension test.
- An exception from the reranker is not caught, and there is no fallback to retrieval order: the search fails.

Modules (one file each):

| module | models |
|---|---|
| `Wrappers` | `Option` (a missing pandas cell) and `Result` (a raised exception) |
| `Text` | the Python `str` operations the code relies on: `strip`, `replace`, `lower`, `in`, `endswith`, `split`, `join`, slicing, string order, and POSIX `os.path.join` |
| `Seqs` | generic filtering, reversal, and the "insert at 0 or append" pass |
| `Cleaning` | `clean_asin`, `is_valid_url`, `clean_text`, and the per-row review format |
| `ImageUrls` | the image URL candidates and their order, and the download loop |
| `Catalog` | `run_etl` from the concatenated frame to the product records |
| `Store` | the Chroma client calls that are used: delete, create and batch `add` of a collection |
| `Indexer` | `process_and_index` |
| `Sorting` | Python's stable `list.sort(key=..., reverse=True)` |
| `Search` | `SearchEngine.search` |
| `Pipeline` | the records of the catalog stage read back by the index builder |

What the model takes as parameters:
- The file system, the HTTP download with its image checks, the CLIP
  encoders, the cross-encoder and the Chroma nearest-neighbour query are
  uninterpreted functions. The oracles are `onDisk` and `fetch` in
  `Catalog`, `fileExists` and `embed` in `Indexer`, and the fields of
  `Search.Engine`.
- Embeddings, distances and scores are reals.
- A missing CSV cell is `None`. Python's `str()` of such a cell is `"nan"`.

## Model

| member | source | states |
|---|---|---|
| `Text.Strip` | src/etl_pipeline.py:25 | the result has no leading or trailing Python whitespace and is no longer than the input |
| `Text.StripInfix` | src/etl_pipeline.py:25 | `strip()` keeps a contiguous infix and every character it drops is whitespace |
| `Text.StripIdempotent` | src/etl_pipeline.py:36 | stripping twice is stripping once |
| `Text.TrimStartSuffix` | src/etl_pipeline.py:25 | the left trim removes exactly a leading run of whitespace |
| `Text.TrimEndPrefix` | src/etl_pipeline.py:25 | the right trim removes exactly a trailing run of whitespace |
| `Text.StripKeepsAbsent` | src/etl_pipeline.py:25 | stripping never introduces a character |
| `Text.Replace` | src/etl_pipeline.py:36 | replacing `c` by a `c`-free string leaves no `c`; a string without `c` is unchanged; a replacement of length at most one never lengthens |
| `Text.ReplaceByChar` | src/etl_pipeline.py:36 | a one-character replacement maps each position independently: a `c` becomes the new character and everything else stays |
| `Text.ReplaceDeletes` | src/etl_pipeline.py:36 | `replace('\r', '')` removes every `\r` and keeps every other character exactly as often as it occurred |
| `Text.ReplaceKeepsAbsent` | src/etl_pipeline.py:36 | a character in neither the text nor the replacement does not appear in the result |
| `Text.ReplaceAppend` | src/etl_pipeline.py:36 | replacing in a concatenation is replacing in each part, one after the other |
| `Text.Lower` | src/etl_pipeline.py:28 | lower-casing acts position by position and keeps the length |
| `Text.Take` | src/etl_pipeline.py:71 | `s[:n]` is a prefix of `s` of length `min(n, len(s))` |
| `Text.IndexOf` | src/etl_pipeline.py:25 | the position of the first separator: no separator before it, and the separator at it when it is in range |
| `Text.Split` | src/etl_pipeline.py:89 | `split(sep)` yields at least one piece, the first piece is the text up to the first separator, and no piece contains the separator |
| `Text.JoinSplit` | src/etl_pipeline.py:89 | joining the pieces of a split with the same separator restores the string |
| `Text.SplitJoin` | src/etl_pipeline.py:89 | splitting a join of separator-free pieces by a one-character separator restores the pieces |
| `Text.Join` | src/etl_pipeline.py:138 | joining no pieces gives `""` and one piece gives that piece, with no separator; `JoinCons` puts the separator, of any length, between a piece and the join of the rest |
| `Text.JoinCons` | src/etl_pipeline.py:138 | joining a piece in front of at least one other piece is that piece, the separator, then the join of the others, for a separator of any length |
| `Text.JoinFlat` | src/etl_pipeline.py:138 | joining flat pieces with a flat separator is flat |
| `Text.JoinPath` | src/processing.py:75 | `os.path.join`: an absolute second part replaces the root; otherwise the result is the root, then a `/` exactly when the root is non-empty and does not already end in `/`, then the relative part |
| `Text.LexLessIrreflexive` | src/etl_pipeline.py:80 | no group key sorts before itself |
| `Text.LexLessTransitive` | src/etl_pipeline.py:80 | the string order of group keys is transitive |
| `Text.LexLessTotal` | src/etl_pipeline.py:80 | any two distinct keys are ordered one way or the other |
| `Seqs.FrontBackShape` | src/etl_pipeline.py:92-97 | the insert-at-0 / append pass yields the front elements in reverse order followed by the others in input order |
| `Seqs.FrontBackFrontFirst` | src/etl_pipeline.py:96-97 | no appended element precedes an element inserted at 0 |
| `Seqs.FrontBackPermutes` | src/etl_pipeline.py:96-97 | the pass is a permutation of its input |
| `Seqs.FrontBackKeepsBackOrder` | src/etl_pipeline.py:97 | the appended elements keep their input order |
| `Seqs.FilterSound` | src/etl_pipeline.py:95 | a filter keeps only accepted elements drawn from its input |
| `Seqs.FilterComplete` | src/etl_pipeline.py:95 | a filter drops no accepted element |
| `Seqs.FilterRejectPartition` | src/etl_pipeline.py:95-97 | the accepted and rejected elements together are the input |
| `Seqs.ReverseIndex` | src/etl_pipeline.py:96 | position `k` of the reversal is position `n-1-k` of the input, and the reversal is a permutation |
| `Cleaning.CleanAsin` | src/etl_pipeline.py:23-25 | a missing cell gives `"UNKNOWN"`; otherwise the result is the stripped text before the first comma, and it holds no comma and no outer whitespace |
| `Cleaning.CleanAsinIdempotent` | src/etl_pipeline.py:23-25 | a cleaned ASIN is a fixed point of `clean_asin` |
| `Cleaning.LowerContains` | src/etl_pipeline.py:28-29 | a marker occurs in the lower-cased URL exactly when it occurs in the URL with letter case ignored |
| `Cleaning.IsValidUrl` | src/etl_pipeline.py:27-31 | a URL is valid exactly when none of `barcode`, `upccodesearch`, `barcodable` and `pixel` occurs in it, in any case |
| `Cleaning.IsValidUrlCaseInsensitive` | src/etl_pipeline.py:28 | validity does not depend on the URL's letter case |
| `Cleaning.Flatten` | src/etl_pipeline.py:36 | the three replacements leave no line break or double quote, never lengthen, and leave an already flat text unchanged; `FlattenMatchesRef` states what each character becomes |
| `Cleaning.FlattenRef` | src/etl_pipeline.py:36 | the reference flattening: the characters other than `\r`, in order, with `\n` turned into a space and `"` into `'` |
| `Cleaning.FlattenAppend` | src/etl_pipeline.py:36 | flattening a concatenation is flattening each part, one after the other |
| `Cleaning.FlattenMatchesRef` | src/etl_pipeline.py:36 | the chained `replace` calls delete every `\r`, turn every `\n` into a space and every `"` into `'`, and keep every other character in order |
| `Cleaning.CleanText` | src/etl_pipeline.py:33-36 | a missing cell gives `""`; every result is flat and stripped and no longer than the input; `CleanTextStripsFlattened` pins its content |
| `Cleaning.CleanTextStripsFlattened` | src/etl_pipeline.py:36 | a present cell is cleaned to a contiguous piece of its reference flattening, with only whitespace dropped on either side and none left at the ends |
| `Cleaning.CleanTextIdempotent` | src/etl_pipeline.py:33-36 | cleaning a cleaned text changes nothing |
| `Cleaning.FormatReview` | src/etl_pipeline.py:70-73 | the review is `[<clean rating>/5] ` followed by the first `min(200, len)` characters of the cleaned text, and it is flat |
| `ImageUrls.OrderUrls` | src/etl_pipeline.py:92-97 | `sorted_urls` holds at most one URL per raw piece, and each is valid and longer than 10 characters |
| `ImageUrls.OrderUrlsIsFrontBack` | src/etl_pipeline.py:92-97 | the URL selection loop is the front/back pass over the stripped URLs that are valid and longer than 10 characters, with "contains SL1500" as the front test |
| `ImageUrls.OrderUrlsShape` | src/etl_pipeline.py:93-97 | the SL1500 URLs come first in reverse input order, then the other kept URLs in input order |
| `ImageUrls.OrderUrlsPermutesKept` | src/etl_pipeline.py:93-97 | the ordered list is a permutation of the kept URLs, and so draws only from the stripped input |
| `ImageUrls.OrderUrlsHiResFirst` | src/etl_pipeline.py:94-97 | every URL tried is a stripped, valid, long-enough URL, and every SL1500 URL precedes every other URL |
| `ImageUrls.OrderUrlsLowResInInputOrder` | src/etl_pipeline.py:97 | the non-SL1500 URLs are tried in input order |
| `ImageUrls.SaveImage` | src/etl_pipeline.py:104-123 | an existing file wins whenever a URL is tried at all; otherwise the first URL that downloads is saved, and nothing is saved exactly when no URL is tried or every URL fails |
| `Catalog.Prepare` | src/etl_pipeline.py:63-73 | the derived `clean_id` is the cleaned ASIN and holds no comma; `formatted_review` is the formatted, flat review; the other cells are copied |
| `Catalog.ReviewsFor` | src/etl_pipeline.py:76 | `reviews_map[id]` lists at most one review per row; `ReviewsForIsFilter` states which |
| `Catalog.ReviewsForAppend` | src/etl_pipeline.py:76 | the review lists of `reviews_map` keep row order across a concatenation of rows |
| `Catalog.ReviewsForEmpty` | src/etl_pipeline.py:132 | `reviews_map.get(id, [])` is empty exactly when no row has that id |
| `Catalog.ReviewsForFirst` | src/etl_pipeline.py:76 | the first review listed for an id is the review of the first row with that id |
| `Catalog.ReviewsOf` | src/etl_pipeline.py:76 | the `formatted_review` column of a list of rows, position by position |
| `Catalog.ReviewsForIsFilter` | src/etl_pipeline.py:76 | the review list of an id is the reviews of exactly the rows with that id, in row order |
| `Catalog.ReviewsForFlat` | src/etl_pipeline.py:70-76 | every grouped review is flat when the row reviews are |
| `Catalog.FirstNonNull` | src/etl_pipeline.py:80 | `first()` gives a missing value exactly when every row of the group misses that column |
| `Catalog.FirstNonNullIsFirst` | src/etl_pipeline.py:80 | a present `first()` value is the cell of the earliest row of the group that has one |
| `Catalog.GroupFirst` | src/etl_pipeline.py:80 | the `first()` row of a group carries its id, and each of its columns is missing exactly when every row of the group misses it |
| `Catalog.InsertKey` | src/etl_pipeline.py:80 | inserting a key keeps the key list strictly ascending and adds exactly that key |
| `Catalog.GroupKeys` | src/etl_pipeline.py:76-80 | the group keys are strictly ascending and are exactly the cleaned ids that occur |
| `Catalog.GroupsWithImages` | src/etl_pipeline.py:80-81 | the kept groups are in ascending id order and are exactly the groups whose `imageURLs` is present and not `"nan"` |
| `Catalog.Products` | src/etl_pipeline.py:80-81 | `products` holds one row per occurring cleaned id, built by `first()`, in ascending id order, and only groups with image URLs |
| `Catalog.ImagePath` | src/etl_pipeline.py:146 | `os.path.join("data", "images", id + ".jpg")`, including the case where an id starting with `/` drops the folder |
| `Catalog.ImagePathStart` | src/etl_pipeline.py:146 | an image path starts with `/` for an id starting with `/`, and with the image folder otherwise |
| `Catalog.ImagePathInjective` | src/etl_pipeline.py:146 | two ids never share an image path |
| `Catalog.ImageSaved` | src/etl_pipeline.py:99-125 | a product gets a record exactly when it has a candidate URL and either its image file exists or some candidate URL downloads to that file |
| `Catalog.TopReviews` | src/etl_pipeline.py:135 | `prod_reviews[:3]` is a prefix: all reviews when there are fewer than three, else exactly three |
| `Catalog.ProductBrand` | src/etl_pipeline.py:126 | with a `brand` column the brand is the cleaned first brand of the group, so `""` for a group with none; without the column it is `"Unknown"`; it is always flat and stripped |
| `Catalog.Description` | src/etl_pipeline.py:128 | the description is the title, `". Category: "`, the category, `". Brand: "` and the brand, each at its place |
| `Catalog.ContextHeader` | src/etl_pipeline.py:140-144 | the context header is `"Product: "`, the title, `" \| Brand: "`, the brand and `" \| Reviews Summary: "`, each at its place |
| `Catalog.BuildRecord` | src/etl_pipeline.py:125-156 | a record carries its product's id and derived image path, the cleaned name as title, the cleaned category, the product brand, the description built from those three, and the header followed by the top reviews joined by `" \|\| "` |
| `Catalog.FlatPieces` | src/etl_pipeline.py:128-144 | the description and the RAG context built from flat pieces are flat |
| `Catalog.DescriptionFlat` | src/etl_pipeline.py:128 | a description built from flat pieces is flat |
| `Catalog.ContextHeaderFlat` | src/etl_pipeline.py:140-144 | a context header built from flat pieces is flat |
| `Catalog.BuildRecordFlat` | src/etl_pipeline.py:125-156 | every text field of a record built from flat reviews is free of line breaks and double quotes |
| `Catalog.RagContextReviews` | src/etl_pipeline.py:132-144 | the RAG context is the header followed by the reviews of the first `min(3, n)` rows of the product, in row order, joined by `" \|\| "` |
| `Catalog.EmitRecords` | src/etl_pipeline.py:88-156 | the loop emits a record for exactly the products whose image was saved, and no more records than products |
| `Catalog.EmitRecordsSorted` | src/etl_pipeline.py:88-156 | records come out in product order, so ascending ids stay ascending |
| `Catalog.RunEtl` | src/etl_pipeline.py:57-162 | the output records are in ascending id order and are exactly the built records of the deduplicated products whose image was saved |
| `Catalog.RunEtlDeduplicates` | src/etl_pipeline.py:80 | no two output records share an id, and each id is the cleaned ASIN of some input row |
| `Catalog.ProductHasRow` | src/etl_pipeline.py:80 | every product id is the cleaned ASIN of some input row |
| `Catalog.RecordSource` | src/etl_pipeline.py:125-156 | every output record is the built record of a product whose image was saved |
| `Catalog.ProductRecordFlat` | src/etl_pipeline.py:125-156 | the record of a product is flat when the row reviews are |
| `Catalog.RunEtlFlat` | src/etl_pipeline.py:148-156 | every text field written to the CSV is free of line breaks and double quotes |
| `Store.DeleteCollection` | src/processing.py:49-53 | deleting fails exactly when the collection is missing; on success it is gone and the other collections are unchanged |
| `Store.CreateCollection` | src/processing.py:56-59 | creating fails exactly when the name is taken; on success the collection is empty with the given space and the others are unchanged |
| `Store.IdsOf` | src/processing.py:101 | the id list is aligned with the entries |
| `Store.NewEntries` | src/processing.py:119-123 | exactly the batch entries whose id is not yet stored are added |
| `Store.Add` | src/processing.py:119-123 | `add` succeeds exactly on an existing collection with a non-empty, equal-length, duplicate-free batch no larger than the maximum batch size; the old entries stay a prefix, and other collections are unchanged |
| `Store.AddToEmpty` | src/processing.py:119-123 | adding to an empty collection stores exactly the batch, entry `k` built from position `k` of the three lists |
| `Store.EmbeddingsOf` | src/processing.py:102 | the embedding list is aligned with the entries |
| `Store.MetadatasOf` | src/processing.py:103 | the metadata list is aligned with the entries |
| `Store.NewEntriesDisjoint` | src/processing.py:119-123 | a batch whose ids are all new is stored exactly as it is |
| `Store.AddEntriesAppends` | src/processing.py:119-123 | a valid batch of new ids is appended exactly, after the old entries, in batch order |
| `Indexer.Str` | src/processing.py:92-97 | `str()` of a cell is its text, or `"nan"` when it is missing |
| `Indexer.MetadataOf` | src/processing.py:91-99 | each of the six text fields is `str()` of the row's cell, and `image_relative_path` is the relative path |
| `Indexer.ProcessRow` | src/processing.py:72-112 | a row is indexed exactly when its image path is present, the joined file exists and embedding succeeds; the entry carries `str(id)`, the embedding and the metadata; a missing path is the only path error |
| `Indexer.IndexedEntries` | src/processing.py:70-112 | at most one entry per row; `IndexedEntriesFromRows` says which |
| `Indexer.Accumulate` | src/processing.py:64-112 | the three lists have equal length `successful_count` and hold, position by position, the entries of the indexed rows |
| `Indexer.IndexedEntriesAppend` | src/processing.py:70-112 | the rows are processed independently, so the entries of a concatenation are the entries of each part |
| `Indexer.SkippedRowContributesNothing` | src/processing.py:77-79 | a skipped row leaves the result as if it were absent, and later rows are still processed |
| `Indexer.IndexedEntriesFromRows` | src/processing.py:70-105 | an entry is accumulated exactly when some row is indexed as that entry |
| `Indexer.IndexedEntriesDistinct` | src/processing.py:101-123 | rows with pairwise distinct ids give a batch without duplicate ids |
| `Indexer.Recreate` | src/processing.py:49-59 | afterwards `amazon_products` exists, is empty and uses the cosine space, whether or not it existed; other collections are unchanged |
| `Indexer.ProcessAndIndex` | src/processing.py:25-127 | a missing CSV changes nothing; otherwise the collection is recreated and the run ends without error exactly when the indexed ids are distinct and fit in one batch; then the collection holds exactly the indexed entries in row order, and after a duplicate-id or batch-size error it stays empty; other collections are unchanged |
| `Indexer.RunIndexing` | src/processing.py:64-123 | the loop and the single `add` produce exactly the outcome `ProcessAndIndex` describes |
| `Indexer.AddInBatches` | src/processing.py:117-123 | batched adding keeps the collection and leaves every other collection unchanged |
| `Indexer.SplitBatch` | src/processing.py:117-123 | cutting a batch of distinct new ids gives two batches of distinct ids, each new to what is stored before it |
| `Indexer.AddInBatchesAppends` | src/processing.py:117-123 | batched adding of distinct new ids succeeds and appends all of them in order, whatever the batch limit |
| `Indexer.ProcessAndIndexBatched` | src/processing.py:114-123 | with batching, a run over rows with distinct ids never fails and the collection holds exactly the indexed entries |
| `Indexer.OversizedBatchEmptiesIndex` | src/processing.py:114-123 | with distinct ids but more entries than the batch limit, the single `add` fails and leaves the collection empty, while batching stores them all |
| `Indexer.TwoImagesOverflowOneEntryBatch` | src/processing.py:114-123 | two products with images and a batch limit of one: the single `add` raises, batching does not |
| `Indexer.BatchedAgreesWithSingle` | src/processing.py:114-123 | whenever the single `add` succeeds, batching leaves the store the same |
| `Pipeline.ReadCell` | src/processing.py:33 | reading a written cell back gives a missing cell exactly for pandas' default missing-value markers (`""`, `"NA"`, `"null"`, `"nan"`, …) and the written text otherwise |
| `Pipeline.ReadBack` | src/processing.py:33 | `str()` of a read-back cell is the written text exactly when that text is not a missing-value marker or is `"nan"` itself; every marker prints as `"nan"` |
| `Pipeline.ReadBackInjective` | src/processing.py:33 | two different texts print differently after the read-back unless both are missing-value markers |
| `Pipeline.MissingIdsCollide` | src/processing.py:33 | the ids `""` and `"NA"` both print as `"nan"` after the read-back |
| `Pipeline.ImagePathReadsBack` | src/processing.py:33 | no image path is a missing-value marker, so every path reads back as written |
| `Pipeline.AsCatalogRow` | src/processing.py:33 | a record read back: each text cell prints as its `ReadBack`, and the image path is missing exactly when it is a missing-value marker and otherwise is the written path |
| `Pipeline.AsCatalogRows` | src/processing.py:70 | reading back keeps the records' order |
| `Pipeline.RecordMetadata` | src/processing.py:91-99 | the metadata stored for a record: each text field as it prints after the read-back, and the image path as written |
| `Pipeline.MetadataCopiesRecord` | src/processing.py:91-99 | the metadata copies the record field for field exactly when no text field is a missing-value marker other than `"nan"` |
| `Pipeline.EntryFromRecord` | src/processing.py:91-105 | an entry indexed from read-back records has the printed id and the metadata of one of those records |
| `Pipeline.ReadBackIdsDistinct` | src/processing.py:92 | distinct record ids print distinctly after the read-back when at most one of them is a missing-value marker |
| `Pipeline.RecordImagePath` | src/etl_pipeline.py:146-156 | every record of the catalog output names its image file after its id |
| `Pipeline.CatalogEntry` | src/processing.py:91-105 | an entry indexed from the catalog output carries the metadata of a record whose printed id it has and whose image file is named after that id |
| `Pipeline.IndexingCatalogOutput` | src/processing.py:91-123 | indexing the catalog's own output meets no duplicate id unless two record ids are missing-value markers; each entry carries the metadata of a record whose printed id it has and whose image file is named after that id |
| `Pipeline.RunEtlEmpty` | src/etl_pipeline.py:101-162 | the catalog stage writes no record exactly when it saves no product image |
| `Pipeline.IndexWrittenCatalog` | src/processing.py:33 | the catalog file of an empty catalog has no header and cannot be read, so the index builder stops before touching the store; any other catalog file is indexed |
| `Pipeline.IndexCatalog` | src/processing.py:33-123 | with batching: when no product image was saved the index builder cannot read the catalog; otherwise, unless two record ids are missing-value markers, indexing never fails and the collection holds exactly the entries of the records whose image exists and embeds |
| `Sorting.Insert` | src/retrieval.py:108 | inserting adds one element |
| `Sorting.SortDesc` | src/retrieval.py:108 | the sort keeps the length; `SortDescCorrect` states its three promises |
| `Sorting.InsertPermutes` | src/retrieval.py:108 | insertion adds exactly the inserted element |
| `Sorting.InsertOrigin` | src/retrieval.py:108 | every element of an insertion is the inserted element or an element of the sorted list |
| `Sorting.InsertSorted` | src/retrieval.py:108 | insertion keeps a descending list descending |
| `Sorting.InsertStable` | src/retrieval.py:108 | inserting an element of lowest rank keeps ties in rank order |
| `Sorting.SortPermutes` | src/retrieval.py:108 | the sort is a permutation |
| `Sorting.SortSorted` | src/retrieval.py:108 | the sort yields non-increasing keys |
| `Sorting.SortStable` | src/retrieval.py:108 | the sort is stable: equal keys keep their input order |
| `Sorting.SortDescCorrect` | src/retrieval.py:108 | the three promises of `sort(key, reverse=True)` together |
| `Search.DetectModality` | src/retrieval.py:54-65 | a query is an image query exactly when its path exists and it ends in `.jpg`, `.png` or `.jpeg` with case ignored, so `.JPG` counts and a non-existing path is text |
| `Search.ToCandidates` | src/retrieval.py:76-87 | candidate `i` carries the `i`-th id and metadata, score `1 - distance` and rank `i + 1`, with no rerank score; shorter metadata or distance lists raise an error |
| `Search.CandidatesInRetrievalOrder` | src/retrieval.py:81-87 | ascending distances give non-increasing scores, and ranks increase along the list |
| `Search.RerankPairs` | src/retrieval.py:98 | pair `i` is the query with candidate `i`'s description |
| `Search.AttachScores` | src/retrieval.py:104-105 | candidate `i` gets score `i` as its rerank score and is otherwise unchanged |
| `Search.Rerank` | src/retrieval.py:94-108 | too few scores raise an error; otherwise the result is a permutation of the scored candidates, in non-increasing rerank score, every candidate scored, and ties keep retrieval order |
| `Search.SortAttached` | src/retrieval.py:104-108 | sorting the scored candidates keeps them all with their scores, orders them by score and is stable |
| `Search.Truncate` | src/retrieval.py:113 | `xs[:k]` is a prefix of length `min(k, len)` for `k >= 0`, and counts from the end for negative `k` |
| `Search.QueryEmbedding` | src/retrieval.py:54-65 | an image query is embedded by the image encoder and a text query by the text encoder, and an encoder failure is an error |
| `Search.QueryEmbeddingUsesOneEncoder` | src/retrieval.py:54-65 | an image query never consults the text encoder, and a text query never opens a file |
| `Search.Retrieve` | src/retrieval.py:67-87 | retrieval fails exactly when encoding, the Chroma query or the candidate loop fails; otherwise candidate `i` carries the `i`-th id and metadata, the score `1 - distance`, rank `i + 1` and no rerank score |
| `Search.SearchFor` | src/retrieval.py:43-113 | the search fails exactly when retrieval fails or, for a text query, the rerank does; the answer has `min(top_k_final, hits)` candidates; an image query answers a prefix of the retrieval order; a text query answers a prefix of the reranked list, best first |
| `Search.SearchDefault` | src/retrieval.py:43 | with the default arguments at most five candidates come back |
| `Search.ImageQueryIgnoresReranker` | src/retrieval.py:94-113 | an image query's answer does not depend on the reranker, keeps retrieval order and carries no rerank score |
| `Search.TextQueryUsesPairScores` | src/retrieval.py:98-101 | a text query depends on the reranker only through its scores for the (query, description) pairs |
| `Search.TextQueryTiesKeepRetrievalOrder` | src/retrieval.py:104-108 | among equal rerank scores the answer keeps retrieval order |

## Left out

- Reading the CSV files (`pd.read_csv(dtype=str)`, `concat`, filling missing columns, lines 45-61 of `src/etl_pipeline.py`) and the early return when none is found: the model starts from the concatenated frame. A missing `asins`, `imageURLs`, `name`, `primaryCategories`, `reviews.text` or `reviews.rating` column is filled with `""`, so it is a column of present, empty cells (`Some("")`). `brand` is not filled; `Frame.hasBrand` says whether it exists.
- A `processed_products.csv` without one of the metadata columns: the index builder would raise `KeyError` on every row and the handler would skip each one. The model's `CatalogRow` always has all seven columns, though any cell may be missing.
- Creating the image directory, every `print`, and the progress counters: output only.
- The HTTP request, the status check, PIL decoding, the 100-pixel width check and saving the JPEG: they are the `fetch` oracle, which sees the URL and the target path. Whether the image file exists is read once per product (`onDisk`). A partial file left by a failed save is not modelled. The 4-second timeout is not modelled as a source of nondeterminism: the same URL tried twice for the same path gets the same outcome.
- The image target path: the source joins `OUTPUT_IMG_DIR`, an absolute directory under the project root, with `<id>.jpg`; the model hands the oracles the relative path `data/images/<id>.jpg` that the record stores.
- Writing `processed_products.csv` and reading it back: `Pipeline` models the file as a table of the written texts, a cell that is one of pandas' default missing-value markers reading back as missing, and a catalog with no record as a file that cannot be read. pandas quotes any field that holds a comma, a double quote or a line break, and reads it back unchanged; the model takes that quoting as exact. Title, category, brand, description and RAG context are flat (`Catalog.RunEtlFlat`), but the id and the image path need not be, since `clean_asin` keeps an inner double quote or line break of the ASIN.
- Pipeline.AsCatalogRow: pandas type inference on read-back is not modelled. An id column whose present cells are all digits is read as numbers, so an id loses its leading zeros, and with a missing cell in the column every id prints as a float such as `123.0`.
- Pipeline.IndexCatalog: promises nothing when two record ids are missing-value markers. Both print as `"nan"`. The batched add then meets a duplicate id: it fails when both fall in one batch and silently skips the second otherwise.
- Indexer.ProcessAndIndexBatched: promises an outcome only for distinct ids, and needs a positive batch limit, since a chunk of size zero would never advance. With a repeated id, the outcome depends on whether the copies fall in one batch, which fails, or in different batches, where the later copy is skipped.
- Text.Lower: lower-cases only the ASCII letters `A`-`Z`. Python's `str.lower()` also maps other cased letters. Every marker and extension compared against is ASCII, but a non-ASCII letter that lower-cases to ASCII (such as `İ` or the Kelvin sign) is not modelled.
- The CLIP model, the cross-encoder, the torch device choice and `SearchEngine.__init__`: they are fields of `Search.Engine` or oracles. Floating point is modelled by reals.
- Exceptions raised inside `predict`: a reranker returning fewer scores than candidates is the only rerank error modelled. Failures of opening or encoding the query and of the Chroma query (for example a non-positive `n_results`) are modelled only as `None` from the `Engine` oracles, without their cause.
- Chroma's own checks of embedding dimensions and metadata value types, its HNSW index, and the persistence of the client on disk: the store is a map of collections, and nearest-neighbour search is the `nearest` oracle. The maximum batch size is a parameter (`maxBatch`) rather than Chroma's computed limit, and the order in which `add` reports several problems of one batch follows the model's checks.
- `app.py` and `src/ai_logic.py` (the chat interface and the answer generation): outside the retrieval core.

## Findings

| source | as written | input that shows it | evidently intended | confidence | as-written member | corrected member |
|---|---|---|---|---|---|---|
| src/processing.py:117-123 | the comment promises to add in small batches if the one batch fails, but the code calls `collection.add` once with every entry and nothing catches its error; the collection was already deleted and recreated, so it is left empty | a catalog whose indexed images outnumber Chroma's maximum batch size, all with distinct ids; in miniature, two products with images and a limit of one entry | add the entries in consecutive batches no larger than the limit | medium, not executed | `Indexer.ProcessAndIndex`, with `Indexer.OversizedBatchEmptiesIndex` and `Indexer.TwoImagesOverflowOneEntryBatch` | `Indexer.ProcessAndIndexBatched`, with `Indexer.AddInBatchesAppends`, `Indexer.BatchedAgreesWithSingle` and `Pipeline.IndexCatalog` |
