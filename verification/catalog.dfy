/** Catalog normalisation (src/etl_pipeline.py): cleaning of raw review rows
    into one product record per ASIN, with the image download replaced by
    two oracles: `onDisk` (is the product's image file already present?) and
    `fetch` (does downloading this URL into this file give a usable image?). */
module Catalog {
  import opened Wrappers
  import opened Text
  import opened Seqs
  import opened Cleaning
  import opened ImageUrls

  // ------------------------------------------------------ rows

  /** One row of the concatenated review CSVs; `None` is a missing cell. */
  datatype RawRow = RawRow(
    asins: Option<string>,
    imageUrls: Option<string>,
    name: Option<string>,
    categories: Option<string>,
    brand: Option<string>,
    reviewText: Option<string>,
    reviewRating: Option<string>)

  /** The concatenated data frame; `hasBrand` tells whether a `brand` column
      exists at all. */
  datatype Frame = Frame(rows: seq<RawRow>, hasBrand: bool)

  /** A row after the two derived columns `clean_id` and `formatted_review`
      were added. */
  datatype Row = Row(
    cleanId: string,
    review: string,
    imageUrls: Option<string>,
    name: Option<string>,
    categories: Option<string>,
    brand: Option<string>)

  /** Adds the derived columns to one raw row. */
  function Prepare(r: RawRow): (row: Row)
    ensures row.cleanId == CleanAsin(r.asins) && ',' !in row.cleanId
    ensures row.review == FormatReview(r.reviewRating, r.reviewText) && IsFlat(row.review)
    ensures row.imageUrls == r.imageUrls && row.name == r.name
    ensures row.categories == r.categories && row.brand == r.brand
  {
    Row(CleanAsin(r.asins), FormatReview(r.reviewRating, r.reviewText),
      r.imageUrls, r.name, r.categories, r.brand)
  }

  function PrepareAll(raw: seq<RawRow>): (rows: seq<Row>)
    ensures |rows| == |raw|
    ensures forall k :: 0 <= k < |raw| ==> rows[k] == Prepare(raw[k])
  {
    seq(|raw|, k requires 0 <= k < |raw| => Prepare(raw[k]))
  }

  // ------------------------------------------------------ reviews per product

  /** The review list the grouping step keeps for `id` (empty for an id
      with no rows): the formatted reviews of the rows whose cleaned id is
      `id`, in row order. */
  function ReviewsFor(rows: seq<Row>, id: string): (reviews: seq<string>)
    ensures |reviews| <= |rows|
    decreases |rows|
  {
    if rows == [] then []
    else
      var last := rows[|rows| - 1];
      ReviewsFor(rows[..|rows| - 1], id) + (if last.cleanId == id then [last.review] else [])
  }

  /** Grouping keeps row order: the reviews of a concatenation are the
      reviews of each part, one after the other. */
  lemma {:induction false} ReviewsForAppend(a: seq<Row>, b: seq<Row>, id: string)
    ensures ReviewsFor(a + b, id) == ReviewsFor(a, id) + ReviewsFor(b, id)
    decreases |b|
  {
    if b == [] {
      assert a + b == a;
    } else {
      var init := b[..|b| - 1];
      assert (a + b)[..|a + b| - 1] == a + init;
      ReviewsForAppend(a, init, id);
    }
  }

  /** A group is empty exactly when no row has that id. */
  lemma {:induction false} ReviewsForEmpty(rows: seq<Row>, id: string)
    ensures ReviewsFor(rows, id) == [] <==> forall k :: 0 <= k < |rows| ==> rows[k].cleanId != id
    decreases |rows|
  {
    if rows != [] {
      ReviewsForEmpty(rows[..|rows| - 1], id);
      assert forall k :: 0 <= k < |rows| - 1 ==> rows[..|rows| - 1][k] == rows[k];
    }
  }

  /** The grouped reviews are reviews of the rows, so they are flat whenever
      the rows' reviews are. */
  lemma {:induction false} ReviewsForFlat(rows: seq<Row>, id: string)
    requires forall k :: 0 <= k < |rows| ==> IsFlat(rows[k].review)
    ensures forall k :: 0 <= k < |ReviewsFor(rows, id)| ==> IsFlat(ReviewsFor(rows, id)[k])
    decreases |rows|
  {
    if rows != [] {
      var init := rows[..|rows| - 1];
      var last := rows[|rows| - 1];
      assert forall k :: 0 <= k < |init| ==> init[k] == rows[k];
      ReviewsForFlat(init, id);
      var tail := if last.cleanId == id then [last.review] else [];
      assert ReviewsFor(rows, id) == ReviewsFor(init, id) + tail;
    }
  }

  // ------------------------------------------------------ groupby('clean_id').first()

  function NameOf(r: Row): Option<string> { r.name }
  function CategoriesOf(r: Row): Option<string> { r.categories }
  function ImageUrlsOf(r: Row): Option<string> { r.imageUrls }
  function BrandOf(r: Row): Option<string> { r.brand }

  /** pandas `GroupBy.first()` for one column: the first non-missing value of
      that column among the rows of the group; missing when all are. */
  function FirstNonNull(rows: seq<Row>, id: string, column: Row -> Option<string>): (v: Option<string>)
    ensures v.None? <==> forall k :: 0 <= k < |rows| && rows[k].cleanId == id ==> column(rows[k]).None?
    decreases |rows|
  {
    if rows == [] then None
    else if rows[0].cleanId == id && column(rows[0]).Some? then column(rows[0])
    else
      assert forall k :: 1 <= k < |rows| ==> rows[k] == rows[1..][k - 1];
      FirstNonNull(rows[1..], id, column)
  }

  /** A present value is the column of the group's first row that has one. */
  lemma {:induction false} FirstNonNullIsFirst(rows: seq<Row>, id: string, column: Row -> Option<string>)
    requires FirstNonNull(rows, id, column).Some?
    ensures exists k :: (0 <= k < |rows| && rows[k].cleanId == id && column(rows[k]) == FirstNonNull(rows, id, column)
              && forall j :: 0 <= j < k && rows[j].cleanId == id ==> column(rows[j]).None?)
    decreases |rows|
  {
    var v := FirstNonNull(rows, id, column);
    if rows[0].cleanId == id && column(rows[0]).Some? {
      assert rows[0].cleanId == id && column(rows[0]) == v;
    } else {
      var tail := rows[1..];
      FirstNonNullIsFirst(tail, id, column);
      var k :| 0 <= k < |tail| && tail[k].cleanId == id && column(tail[k]) == v
          && forall j :: 0 <= j < k && tail[j].cleanId == id ==> column(tail[j]).None?;
      assert rows[k + 1] == tail[k];
      assert forall j :: 1 <= j < k + 1 ==> rows[j] == tail[j - 1];
    }
  }

  /** One product after grouping the rows by cleaned id: per column, the
      first value present in the group. */
  datatype ProductRow = ProductRow(
    id: string,
    name: Option<string>,
    categories: Option<string>,
    imageUrls: Option<string>,
    brand: Option<string>)

  function GroupFirst(rows: seq<Row>, id: string): (p: ProductRow)
    ensures p.id == id
    ensures p.name.None? <==> forall k :: 0 <= k < |rows| && rows[k].cleanId == id ==> rows[k].name.None?
    ensures p.categories.None? <==>
              forall k :: 0 <= k < |rows| && rows[k].cleanId == id ==> rows[k].categories.None?
    ensures p.imageUrls.None? <==>
              forall k :: 0 <= k < |rows| && rows[k].cleanId == id ==> rows[k].imageUrls.None?
    ensures p.brand.None? <==> forall k :: 0 <= k < |rows| && rows[k].cleanId == id ==> rows[k].brand.None?
  {
    ProductRow(id,
      FirstNonNull(rows, id, NameOf),
      FirstNonNull(rows, id, CategoriesOf),
      FirstNonNull(rows, id, ImageUrlsOf),
      FirstNonNull(rows, id, BrandOf))
  }

  predicate StrictlySorted(keys: seq<string>) {
    forall i, j :: 0 <= i < j < |keys| ==> LexLess(keys[i], keys[j])
  }

  lemma SortedPrepend(k: string, keys: seq<string>)
    requires StrictlySorted(keys)
    requires keys == [] || LexLess(k, keys[0])
    ensures StrictlySorted([k] + keys)
  {
    forall j | 0 <= j < |keys| ensures LexLess(k, keys[j]) {
      if j > 0 {
        LexLessTransitive(k, keys[0], keys[j]);
      }
    }
  }

  /** Insertion of one group key into the sorted, duplicate-free key list. */
  function InsertKey(k: string, keys: seq<string>): (r: seq<string>)
    requires StrictlySorted(keys)
    ensures StrictlySorted(r)
    ensures forall x :: x in r <==> x == k || x in keys
    decreases |keys|
  {
    if keys == [] then [k]
    else if k == keys[0] then keys
    else if LexLess(k, keys[0]) then
      SortedPrepend(k, keys);
      [k] + keys
    else
      LexLessTotal(k, keys[0]);
      var rest := InsertKey(k, keys[1..]);
      assert forall x :: x in rest ==> LexLess(keys[0], x);
      SortedPrepend(keys[0], rest);
      [keys[0]] + rest
  }

  /** The group keys of the grouping by cleaned id: each cleaned id once,
      in ascending order. */
  function GroupKeys(rows: seq<Row>): (keys: seq<string>)
    ensures StrictlySorted(keys)
    ensures forall x :: x in keys <==> exists k :: 0 <= k < |rows| && rows[k].cleanId == x
    decreases |rows|
  {
    if rows == [] then []
    else
      var init := rows[..|rows| - 1];
      assert forall k :: 0 <= k < |init| ==> init[k] == rows[k];
      InsertKey(rows[|rows| - 1].cleanId, GroupKeys(init))
  }

  /** The `imageURLs` filter applied after deduplication. */
  predicate HasImageUrls(p: ProductRow) {
    p.imageUrls.Some? && p.imageUrls.value != "nan"
  }

  /** The groups of `keys` (computed by `group`) that pass the `imageURLs`
      filter, in key order. */
  function GroupsWithImages(keys: seq<string>, group: string -> ProductRow): (ps: seq<ProductRow>)
    requires StrictlySorted(keys)
    requires forall x :: group(x).id == x
    ensures forall i, j :: 0 <= i < j < |ps| ==> LexLess(ps[i].id, ps[j].id)
    ensures forall p :: p in ps <==> p.id in keys && p == group(p.id) && HasImageUrls(p)
    decreases |keys|
  {
    if keys == [] then []
    else
      var g := group(keys[0]);
      var rest := GroupsWithImages(keys[1..], group);
      assert forall p :: p in rest ==> LexLess(keys[0], p.id);
      if HasImageUrls(g) then [g] + rest else rest
  }

  /** `products` in `run_etl`: one row per distinct cleaned id (first
      non-missing value per column), in ascending id order, keeping only
      groups with image URLs. */
  function Products(rows: seq<Row>): (ps: seq<ProductRow>)
    ensures forall i, j :: 0 <= i < j < |ps| ==> LexLess(ps[i].id, ps[j].id)
    ensures forall p :: p in ps <==>
              (exists k :: 0 <= k < |rows| && rows[k].cleanId == p.id)
              && p == GroupFirst(rows, p.id) && HasImageUrls(p)
  {
    GroupsWithImages(GroupKeys(rows), x => GroupFirst(rows, x))
  }

  // ------------------------------------------------------ product records

  /** A row of `processed_products.csv`. */
  datatype ProductRecord = ProductRecord(
    id: string,
    title: string,
    category: string,
    brand: string,
    description: string,
    ragContext: string,
    imagePath: string)

  /** The image folder, relative to the project root. */
  const ImageFolder := JoinPath("data", "images")

  /** The relative path of a product's image: the id with a `.jpg`
      extension, inside the image folder. An id starting with `/` makes the
      file name absolute, and the folder is dropped. */
  function ImagePath(id: string): (path: string)
    ensures |id| > 0 && id[0] == '/' ==> path == id + ".jpg"
    ensures (|id| == 0 || id[0] != '/') ==> path == "data/images/" + id + ".jpg"
  {
    assert ImageFolder == "data/images";
    JoinPath(ImageFolder, id + ".jpg")
  }

  /** An image path starts with `/` for an absolute id and with the image
      folder's `d` otherwise. */
  lemma ImagePathStart(id: string)
    ensures |ImagePath(id)| > 0
    ensures ImagePath(id)[0] == if |id| > 0 && id[0] == '/' then '/' else 'd'
  {
    if |id| > 0 && id[0] == '/' {
      assert ImagePath(id) == id + ".jpg";
    } else {
      assert ImagePath(id) == "data/images/" + id + ".jpg";
      assert ("data/images/" + id + ".jpg")[0] == "data/images/"[0];
    }
  }

  /** Distinct products never share an image file. */
  lemma ImagePathInjective(a: string, b: string)
    requires ImagePath(a) == ImagePath(b)
    ensures a == b
  {
    var pa, pb := ImagePath(a), ImagePath(b);
    var absA, absB := |a| > 0 && a[0] == '/', |b| > 0 && b[0] == '/';
    ImagePathStart(a);
    ImagePathStart(b);
    if absA != absB {
      assert false;
    } else if absA {
      assert a == pa[..|pa| - 4] && b == pb[..|pb| - 4];
    } else {
      assert a == pa[12..|pa| - 4] && b == pb[12..|pb| - 4];
    }
  }

  /** The image URL cell as text; a missing cell prints as "nan". */
  function UrlCell(p: ProductRow): string {
    p.imageUrls.GetOr("nan")
  }

  /** The ordered download candidates of a product. */
  function CandidateUrls(p: ProductRow): seq<string> {
    OrderUrls(Split(UrlCell(p), ','))
  }

  /** Whether the product's image was saved by the download loop (false
      as well when the product was skipped for having no candidate URL).
      `fetch(url, path)` tells whether downloading `url` into `path`
      succeeds: the outcome may depend on the target file as well as on
      the URL. */
  predicate ImageSaved(p: ProductRow, onDisk: string -> bool, fetch: (string, string) -> bool)
    ensures ImageSaved(p, onDisk, fetch) <==>
              CandidateUrls(p) != [] &&
              (onDisk(ImagePath(p.id))
               || exists k :: 0 <= k < |CandidateUrls(p)| && fetch(CandidateUrls(p)[k], ImagePath(p.id)))
  {
    var urls := CandidateUrls(p);
    var target := ImagePath(p.id);
    urls != [] && !SaveImage(urls, onDisk(target), u => fetch(u, target)).NotSaved?
  }

  /** Maximum number of reviews embedded in the RAG context. */
  const MaxContextReviews := 3

  /** The first three reviews, or all of them when there are fewer. */
  function TopReviews(reviews: seq<string>): (top: seq<string>)
    ensures |top| <= MaxContextReviews
    ensures top <= reviews
    ensures |reviews| >= MaxContextReviews ==> |top| == MaxContextReviews
    ensures |reviews| < MaxContextReviews ==> top == reviews
  {
    if |reviews| <= MaxContextReviews then reviews else reviews[..MaxContextReviews]
  }

  /** The cleaned brand; "Unknown" when the frame has no brand column at
      all, and empty when the column exists but the group has no brand. */
  function ProductBrand(p: ProductRow, hasBrand: bool): (brand: string)
    ensures IsFlat(brand) && IsStripped(brand)
    ensures !hasBrand ==> brand == "Unknown"
    ensures hasBrand ==> brand == CleanText(p.brand)
    ensures hasBrand && p.brand.None? ==> brand == ""
  {
    var unknown := "Unknown";
    assert IsFlat(unknown) && IsStripped(unknown);
    assert Flatten(unknown) == unknown;
    StripStripped(unknown);
    CleanText(if hasBrand then p.brand else Some(unknown))
  }

  /** The product description: the title, then the category, then the
      brand, with fixed labels in between. */
  function Description(title: string, category: string, brand: string): (d: string)
    ensures |d| == |title| + |category| + |brand| + 21
    ensures d[..|title|] == title && d[|d| - |brand|..] == brand
    ensures d[|title|..|title| + 12] == ". Category: "
    ensures d[|title| + 12..|title| + 12 + |category|] == category
    ensures d[|title| + 12 + |category|..|d| - |brand|] == ". Brand: "
  {
    title + ". Category: " + category + ". Brand: " + brand
  }

  /** The fixed part of `rag_context` in front of the review summary. */
  function ContextHeader(title: string, brand: string): (h: string)
    ensures |h| == |title| + |brand| + 39
    ensures h[..9] == "Product: " && h[9..9 + |title|] == title
    ensures h[9 + |title|..19 + |title|] == " | Brand: " && h[19 + |title|..19 + |title| + |brand|] == brand
    ensures h[|h| - 20..] == " | Reviews Summary: "
  {
    "Product: " + title + " | Brand: " + brand + " | Reviews Summary: "
  }

  /** The record appended to `valid_products` for a product whose image was saved. */
  function BuildRecord(p: ProductRow, reviews: seq<string>, hasBrand: bool): (rec: ProductRecord)
    ensures rec.id == p.id && rec.imagePath == ImagePath(p.id)
    ensures rec.title == CleanText(p.name) && rec.category == CleanText(p.categories)
    ensures rec.brand == ProductBrand(p, hasBrand)
    ensures rec.description == Description(rec.title, rec.category, rec.brand)
    ensures rec.ragContext == ContextHeader(rec.title, rec.brand) + Join(TopReviews(reviews), " || ")
  {
    AssembleRecord(p.id, CleanText(p.name), CleanText(p.categories), ProductBrand(p, hasBrand),
      Join(TopReviews(reviews), " || "))
  }

  /** A record from its cleaned fields and its review summary. */
  function AssembleRecord(id: string, title: string, category: string, brand: string, summary: string)
    : (rec: ProductRecord)
    ensures rec.id == id && rec.imagePath == ImagePath(id)
    ensures rec.title == title && rec.category == category && rec.brand == brand
    ensures rec.description == Description(title, category, brand)
    ensures rec.ragContext == ContextHeader(title, brand) + summary
  {
    ProductRecord(id, title, category, brand, Description(title, category, brand),
      ContextHeader(title, brand) + summary, ImagePath(id))
  }

  /** The fixed labels of the description and the context are flat. */
  lemma DescriptionLabelsFlat()
    ensures IsFlat(". Category: ") && IsFlat(". Brand: ")
  {
  }

  lemma HeaderLabelsFlat()
    ensures IsFlat("Product: ") && IsFlat(" | Brand: ")
  {
  }

  lemma SummaryLabelFlat()
    ensures IsFlat(" | Reviews Summary: ")
  {
  }

  lemma DescriptionFlat(title: string, category: string, brand: string)
    requires IsFlat(title) && IsFlat(category) && IsFlat(brand)
    ensures IsFlat(Description(title, category, brand))
  {
    DescriptionLabelsFlat();
    FlatConcat(title, ". Category: ");
    FlatConcat(title + ". Category: ", category);
    FlatConcat(title + ". Category: " + category, ". Brand: ");
    FlatConcat(title + ". Category: " + category + ". Brand: ", brand);
  }

  lemma ContextHeaderFlat(title: string, brand: string)
    requires IsFlat(title) && IsFlat(brand)
    ensures IsFlat(ContextHeader(title, brand))
  {
    HeaderLabelsFlat();
    SummaryLabelFlat();
    FlatConcat("Product: ", title);
    FlatConcat("Product: " + title, " | Brand: ");
    FlatConcat("Product: " + title + " | Brand: ", brand);
    FlatConcat("Product: " + title + " | Brand: " + brand, " | Reviews Summary: ");
  }

  lemma FlatPieces(title: string, category: string, brand: string, summary: string)
    requires IsFlat(title) && IsFlat(category) && IsFlat(brand) && IsFlat(summary)
    ensures IsFlat(Description(title, category, brand))
    ensures IsFlat(ContextHeader(title, brand) + summary)
  {
    DescriptionFlat(title, category, brand);
    ContextHeaderFlat(title, brand);
    FlatConcat(ContextHeader(title, brand), summary);
  }

  /** Every text field of a record built from flat reviews is flat: no line
      breaks and no double quotes, so each record stays one CSV line. */
  lemma BuildRecordFlat(p: ProductRow, reviews: seq<string>, hasBrand: bool)
    requires forall k :: 0 <= k < |reviews| ==> IsFlat(reviews[k])
    ensures var rec := BuildRecord(p, reviews, hasBrand);
            IsFlat(rec.title) && IsFlat(rec.category) && IsFlat(rec.brand)
            && IsFlat(rec.description) && IsFlat(rec.ragContext)
  {
    var top := TopReviews(reviews);
    assert forall k :: 0 <= k < |top| ==> top[k] == reviews[k];
    JoinFlat(top, " || ");
    FlatPieces(CleanText(p.name), CleanText(p.categories), ProductBrand(p, hasBrand), Join(top, " || "));
  }

  /** The first grouped review of an id is the review of the first row
      carrying that id. */
  lemma ReviewsForFirst(rows: seq<Row>, id: string, k: int)
    requires 0 <= k < |rows| && rows[k].cleanId == id
    requires forall j :: 0 <= j < k ==> rows[j].cleanId != id
    ensures ReviewsFor(rows, id) != [] && ReviewsFor(rows, id)[0] == rows[k].review
  {
    var before, at, after := rows[..k], [rows[k]], rows[k + 1..];
    assert rows == before + (at + after);
    ReviewsForAppend(before, at + after, id);
    ReviewsForAppend(at, after, id);
    ReviewsForEmpty(before, id);
    assert ReviewsFor(at, id) == ReviewsFor([], id) + [rows[k].review] by {
      assert at[..0] == [];
    }
  }

  /** The test "this row belongs to product `id`". */
  function IdIs(id: string): Row -> bool {
    (r: Row) => r.cleanId == id
  }

  /** The formatted reviews of `rows`, in order. */
  function ReviewsOf(rows: seq<Row>): (reviews: seq<string>)
    ensures |reviews| == |rows|
    ensures forall k :: 0 <= k < |rows| ==> reviews[k] == rows[k].review
  {
    seq(|rows|, k requires 0 <= k < |rows| => rows[k].review)
  }

  /** The review list of an id holds the reviews of exactly the rows with
      that id, in row order. */
  lemma {:induction false} ReviewsForIsFilter(rows: seq<Row>, id: string)
    ensures ReviewsFor(rows, id) == ReviewsOf(Filter(rows, IdIs(id)))
    decreases |rows|
  {
    if rows != [] {
      var init, last := rows[..|rows| - 1], rows[|rows| - 1];
      assert rows == init + [last];
      ReviewsForIsFilter(init, id);
      FilterSnoc(init, last, IdIs(id));
      var f, fi := Filter(rows, IdIs(id)), Filter(init, IdIs(id));
      if last.cleanId == id {
        assert ReviewsOf(f) == ReviewsOf(fi) + [last.review];
      } else {
        assert ReviewsOf(f) == ReviewsOf(fi);
      }
    }
  }

  /** The RAG context is the product header followed by the reviews of the
      first three rows of the product (all of them when it has fewer), in
      row order, joined by " || ". */
  lemma RagContextReviews(rows: seq<Row>, p: ProductRow, hasBrand: bool)
    ensures var rec := BuildRecord(p, ReviewsFor(rows, p.id), hasBrand);
            var same := Filter(rows, IdIs(p.id));
            var m := if |same| <= MaxContextReviews then |same| else MaxContextReviews;
            rec.ragContext == ContextHeader(rec.title, rec.brand) + Join(ReviewsOf(same[..m]), " || ")
  {
    var same := Filter(rows, IdIs(p.id));
    var m := if |same| <= MaxContextReviews then |same| else MaxContextReviews;
    ReviewsForIsFilter(rows, p.id);
    assert TopReviews(ReviewsOf(same)) == ReviewsOf(same[..m]);
  }

  /** The emission loop over `products`: `build` the record of every product
      whose image was `saved`, in product order. */
  function EmitRecords(products: seq<ProductRow>, saved: ProductRow -> bool, build: ProductRow -> ProductRecord)
    : (records: seq<ProductRecord>)
    ensures |records| <= |products|
    ensures forall rec :: rec in records <==> exists p :: p in products && saved(p) && rec == build(p)
    decreases |products|
  {
    if products == [] then []
    else
      var p := products[0];
      var rest := EmitRecords(products[1..], saved, build);
      assert forall q :: q in products <==> q == p || q in products[1..];
      if saved(p) then [build(p)] + rest else rest
  }

  predicate IdsAscending(products: seq<ProductRow>) {
    forall i, j :: 0 <= i < j < |products| ==> LexLess(products[i].id, products[j].id)
  }

  predicate RecordIdsAscending(records: seq<ProductRecord>) {
    forall i, j :: 0 <= i < j < |records| ==> LexLess(records[i].id, records[j].id)
  }

  /** Records come out in product order, so ascending ids stay ascending. */
  lemma {:induction false} EmitRecordsSorted(products: seq<ProductRow>, saved: ProductRow -> bool,
                                             build: ProductRow -> ProductRecord)
    requires forall p :: build(p).id == p.id
    requires IdsAscending(products)
    ensures RecordIdsAscending(EmitRecords(products, saved, build))
    decreases |products|
  {
    if products != [] {
      var tail := products[1..];
      var rest := EmitRecords(tail, saved, build);
      EmitRecordsSorted(tail, saved, build);
      forall k | 0 <= k < |rest| ensures LexLess(products[0].id, rest[k].id) {
        assert rest[k] in rest;
        var q :| q in tail && saved(q) && rest[k] == build(q);
        var m :| 0 <= m < |tail| && tail[m] == q;
        assert products[m + 1] == q;
      }
      var records := EmitRecords(products, saved, build);
      if saved(products[0]) {
        assert records == [build(products[0])] + rest;
        forall i, j | 0 <= i < j < |records| ensures LexLess(records[i].id, records[j].id) {
          if i > 0 {
            assert records[i] == rest[i - 1] && records[j] == rest[j - 1];
          } else {
            assert records[j] == rest[j - 1];
          }
        }
      } else {
        assert records == rest;
      }
    }
  }

  /** `run_etl` after the CSV files are loaded: the cleaned product records,
      one per distinct id whose image was saved, in ascending id order. */
  function RunEtl(f: Frame, onDisk: string -> bool, fetch: (string, string) -> bool): (records: seq<ProductRecord>)
    ensures RecordIdsAscending(records)
    ensures forall rec :: rec in records <==>
              exists p :: p in Products(PrepareAll(f.rows)) && ImageSaved(p, onDisk, fetch)
                && rec == BuildRecord(p, ReviewsFor(PrepareAll(f.rows), p.id), f.hasBrand)
  {
    var rows := PrepareAll(f.rows);
    var saved := (p: ProductRow) => ImageSaved(p, onDisk, fetch);
    var build := (p: ProductRow) => BuildRecord(p, ReviewsFor(rows, p.id), f.hasBrand);
    EmitRecordsSorted(Products(rows), saved, build);
    EmitRecords(Products(rows), saved, build)
  }

  /** Deduplication: no two records share an id, and every record comes
      from a group of input rows whose cleaned ASIN is that id. */
  lemma RunEtlDeduplicates(f: Frame, onDisk: string -> bool, fetch: (string, string) -> bool)
    ensures forall i, j :: 0 <= i < j < |RunEtl(f, onDisk, fetch)| ==>
              RunEtl(f, onDisk, fetch)[i].id != RunEtl(f, onDisk, fetch)[j].id
    ensures forall rec :: rec in RunEtl(f, onDisk, fetch) ==>
              exists k :: 0 <= k < |f.rows| && CleanAsin(f.rows[k].asins) == rec.id
  {
    var records := RunEtl(f, onDisk, fetch);
    forall i, j | 0 <= i < j < |records| ensures records[i].id != records[j].id {
      LexLessIrreflexive(records[i].id);
    }
    forall rec | rec in records ensures exists k :: 0 <= k < |f.rows| && CleanAsin(f.rows[k].asins) == rec.id {
      var p := RecordSource(f, onDisk, fetch, rec);
      ProductHasRow(f.rows, p);
    }
  }

  /** A product's id is the cleaned ASIN of one of the input rows. */
  lemma ProductHasRow(raw: seq<RawRow>, p: ProductRow)
    requires p in Products(PrepareAll(raw))
    ensures exists k :: 0 <= k < |raw| && CleanAsin(raw[k].asins) == p.id
  {
    var rows := PrepareAll(raw);
    var k :| 0 <= k < |rows| && rows[k].cleanId == p.id;
    assert rows[k] == Prepare(raw[k]);
  }

  /** No text field of the record, apart from the id and the path, holds a
      line break or a double quote. */
  predicate RecordFlat(rec: ProductRecord) {
    IsFlat(rec.title) && IsFlat(rec.category) && IsFlat(rec.brand)
    && IsFlat(rec.description) && IsFlat(rec.ragContext)
  }

  lemma ProductRecordFlat(rows: seq<Row>, p: ProductRow, hasBrand: bool)
    requires forall k :: 0 <= k < |rows| ==> IsFlat(rows[k].review)
    ensures RecordFlat(BuildRecord(p, ReviewsFor(rows, p.id), hasBrand))
  {
    ReviewsForFlat(rows, p.id);
    BuildRecordFlat(p, ReviewsFor(rows, p.id), hasBrand);
  }

  /** The product a record of the output was built from. */
  lemma RecordSource(f: Frame, onDisk: string -> bool, fetch: (string, string) -> bool, rec: ProductRecord)
    returns (p: ProductRow)
    requires rec in RunEtl(f, onDisk, fetch)
    ensures p in Products(PrepareAll(f.rows)) && ImageSaved(p, onDisk, fetch)
    ensures rec == BuildRecord(p, ReviewsFor(PrepareAll(f.rows), p.id), f.hasBrand)
  {
    p :| p in Products(PrepareAll(f.rows)) && ImageSaved(p, onDisk, fetch)
         && rec == BuildRecord(p, ReviewsFor(PrepareAll(f.rows), p.id), f.hasBrand);
  }

  /** Every text field the records carry, apart from the id and the path, is
      flat: no line breaks and no double quotes. */
  lemma RunEtlFlat(f: Frame, onDisk: string -> bool, fetch: (string, string) -> bool)
    ensures forall rec :: rec in RunEtl(f, onDisk, fetch) ==> RecordFlat(rec)
  {
    var rows := PrepareAll(f.rows);
    assert forall k :: 0 <= k < |rows| ==> IsFlat(rows[k].review);
    forall rec | rec in RunEtl(f, onDisk, fetch) ensures RecordFlat(rec) {
      var p := RecordSource(f, onDisk, fetch, rec);
      ProductRecordFlat(rows, p, f.hasBrand);
    }
  }
}
