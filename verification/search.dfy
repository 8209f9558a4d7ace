/** The search pipeline (src/retrieval.py, `SearchEngine.search`): modality
    detection, nearest-neighbour retrieval, the cross-encoder rerank of text
    queries and the final cut. CLIP, the cross-encoder, the file system and
    the Chroma query are fields of an `Engine` and are not interpreted. */
module Search {
  import opened Wrappers
  import opened Text
  import opened Store
  import opened Sorting

  // ------------------------------------------------------ modality

  datatype Modality = ImageQuery | TextQuery

  const ImageExtensions: seq<string> := [".jpg", ".png", ".jpeg"]

  /** Does the lower-cased query end in one of the three extensions? */
  predicate HasImageExtension(query: string) {
    EndsWith(Lower(query), ".jpg") || EndsWith(Lower(query), ".png") || EndsWith(Lower(query), ".jpeg")
  }

  /** Does the query end in `ext`, compared without regard to ASCII case? */
  predicate EndsWithIgnoringCase(query: string, ext: string) {
    |ext| <= |query| && Lower(query[|query| - |ext|..]) == ext
  }

  /** A query is an image query exactly when it names an existing file and
      ends in one of the image extensions, in any letter case: a path ending
      in ".JPG" counts, and a string that is not an existing path is a text
      query whatever it ends with. */
  function DetectModality(query: string, pathExists: string -> bool): (m: Modality)
    ensures m == ImageQuery <==>
              pathExists(query) && exists e | e in ImageExtensions :: EndsWithIgnoringCase(query, e)
  {
    ImageExtensionIgnoringCase(query);
    if pathExists(query) && HasImageExtension(query) then ImageQuery else TextQuery
  }

  /** Ending in `ext` after lower-casing is ending in it ignoring case. */
  lemma LowerEndsWith(query: string, ext: string)
    ensures EndsWith(Lower(query), ext) <==> EndsWithIgnoringCase(query, ext)
  {
    if |ext| <= |query| {
      LowerSlice(query, |query| - |ext|, |query|);
    }
  }

  lemma ImageExtensionIgnoringCase(query: string)
    ensures HasImageExtension(query) <==> exists e | e in ImageExtensions :: EndsWithIgnoringCase(query, e)
  {
    LowerEndsWith(query, ".jpg");
    LowerEndsWith(query, ".png");
    LowerEndsWith(query, ".jpeg");
    assert ImageExtensions[0] == ".jpg" && ImageExtensions[1] == ".png" && ImageExtensions[2] == ".jpeg";
  }

  // ------------------------------------------------------ candidates

  /** One search hit; `rerankScore` is attached only by the text rerank. */
  datatype Candidate = Candidate(
    id: string,
    score: real,
    metadata: Metadata,
    originalRank: nat,
    rerankScore: Option<real>)

  /** The first (and only) row of a Chroma query result. */
  datatype Retrieved = Retrieved(ids: seq<string>, metadatas: seq<Metadata>, distances: seq<real>)

  /** Why a search raises: a result or score list shorter than the loop
      expects (`IndexError`), an exception from opening or encoding the
      query, or an exception from the Chroma query. */
  datatype SearchError = IndexError | EncodingError | QueryError

  /** The candidate loop: candidate `i` carries the `i`-th id and metadata,
      similarity `1 - distance` and the 1-based retrieval rank. */
  function ToCandidates(res: Retrieved): (r: Result<seq<Candidate>, SearchError>)
    ensures r.Failure? <==> |res.metadatas| < |res.ids| || |res.distances| < |res.ids|
    ensures r.Success? ==> |r.value| == |res.ids|
    ensures r.Success? ==> forall i :: 0 <= i < |res.ids| ==>
              r.value[i] == Candidate(res.ids[i], 1.0 - res.distances[i], res.metadatas[i], i + 1, None)
  {
    if |res.metadatas| < |res.ids| || |res.distances| < |res.ids| then Failure(IndexError)
    else Success(seq(|res.ids|, i requires 0 <= i < |res.ids| =>
      Candidate(res.ids[i], 1.0 - res.distances[i], res.metadatas[i], i + 1, None)))
  }

  predicate ScoresNonIncreasing(cs: seq<Candidate>) {
    forall i, j :: 0 <= i < j < |cs| ==> cs[i].score >= cs[j].score
  }

  /** Retrieval order is similarity order: nearest-first distances give
      non-increasing scores, and the ranks are 1, 2, ... in list order. */
  lemma CandidatesInRetrievalOrder(res: Retrieved)
    requires ToCandidates(res).Success?
    requires forall i, j :: 0 <= i < j < |res.distances| ==> res.distances[i] <= res.distances[j]
    ensures ScoresNonIncreasing(ToCandidates(res).value)
    ensures RanksIncreasing(ToCandidates(res).value, Rank)
    ensures forall i :: 0 <= i < |ToCandidates(res).value| ==> ToCandidates(res).value[i].originalRank == i + 1
  {
  }

  // ------------------------------------------------------ rerank

  /** The cross-encoder input: the query paired with each candidate's
      description, in candidate order. */
  function RerankPairs(query: string, cs: seq<Candidate>): (pairs: seq<(string, string)>)
    ensures |pairs| == |cs|
    ensures forall i :: 0 <= i < |cs| ==> pairs[i].0 == query && pairs[i].1 == cs[i].metadata.description
  {
    seq(|cs|, i requires 0 <= i < |cs| => (query, cs[i].metadata.description))
  }

  /** The sort key: a candidate's rerank score. */
  function Key(c: Candidate): real {
    c.rerankScore.GetOr(0.0)
  }

  /** The retrieval rank, which identifies a candidate's original position. */
  function Rank(c: Candidate): int {
    c.originalRank
  }

  /** Candidate `i` receives the `i`-th cross-encoder score. */
  function AttachScores(cs: seq<Candidate>, scores: seq<real>): (r: seq<Candidate>)
    requires |scores| >= |cs|
    ensures |r| == |cs|
    ensures forall i :: 0 <= i < |cs| ==> r[i] == cs[i].(rerankScore := Some(scores[i]))
  {
    seq(|cs|, i requires 0 <= i < |cs| => cs[i].(rerankScore := Some(scores[i])))
  }

  /** The text-query rerank: score every (query, description) pair with
      `predict`, attach the scores and sort by them, best first. Fewer
      scores than candidates is an `IndexError`. */
  function Rerank(query: string, cs: seq<Candidate>, predict: seq<(string, string)> -> seq<real>)
    : (r: Result<seq<Candidate>, SearchError>)
    ensures r.Failure? <==> |predict(RerankPairs(query, cs))| < |cs|
    ensures r.Success? ==> |r.value| == |cs|
    ensures r.Success? ==>
              multiset(r.value) == multiset(AttachScores(cs, predict(RerankPairs(query, cs))))
    ensures r.Success? ==> NonIncreasing(r.value, Key)
    ensures r.Success? ==> forall k :: 0 <= k < |r.value| ==> r.value[k].rerankScore.Some?
    ensures r.Success? && RanksIncreasing(cs, Rank) ==> TiesInRankOrder(r.value, Key, Rank)
  {
    var scores := predict(RerankPairs(query, cs));
    if |scores| < |cs| then Failure(IndexError)
    else
      var sorted := SortDesc(AttachScores(cs, scores), Key);
      SortAttached(cs, scores);
      Success(sorted)
  }

  /** Sorting the scored candidates keeps them all, each with its score. */
  lemma SortAttached(cs: seq<Candidate>, scores: seq<real>)
    requires |scores| >= |cs|
    ensures var sorted := SortDesc(AttachScores(cs, scores), Key);
            && multiset(sorted) == multiset(AttachScores(cs, scores))
            && NonIncreasing(sorted, Key)
            && (forall k :: 0 <= k < |sorted| ==> sorted[k].rerankScore.Some?)
            && (RanksIncreasing(cs, Rank) ==> TiesInRankOrder(sorted, Key, Rank))
  {
    var attached := AttachScores(cs, scores);
    var sorted := SortDesc(attached, Key);
    SortDescCorrect(attached, Key, Rank);
    forall k | 0 <= k < |sorted| ensures sorted[k].rerankScore.Some? {
      assert sorted[k] in multiset(attached);
      var m :| 0 <= m < |attached| && attached[m] == sorted[k];
    }
    assert RanksIncreasing(cs, Rank) ==> RanksIncreasing(attached, Rank);
  }

  // ------------------------------------------------------ truncation

  /** Python's `xs[:k]`, including a negative `k`, which counts from the end. */
  function Truncate<T>(xs: seq<T>, k: int): (r: seq<T>)
    ensures r <= xs
    ensures k >= 0 ==> |r| == if k <= |xs| then k else |xs|
    ensures k < 0 ==> |r| == if |xs| + k >= 0 then |xs| + k else 0
  {
    if k >= 0 then (if k <= |xs| then xs[..k] else xs)
    else if |xs| + k >= 0 then xs[..|xs| + k]
    else []
  }

  // ------------------------------------------------------ the search

  /** The engine's models and store, as uninterpreted functions; `None` or
      a failure is an exception. `embedImage` opens and encodes the image
      behind a path, `embedText` encodes a string, and `nearest` is the
      Chroma query for the `n` nearest entries to a vector. */
  datatype Engine = Engine(
    pathExists: string -> bool,
    embedImage: string -> Option<Vector>,
    embedText: string -> Option<Vector>,
    nearest: (Vector, int) -> Option<Retrieved>,
    predict: seq<(string, string)> -> seq<real>)

  const DefaultRetrieval := 20
  const DefaultFinal := 5

  /** The query embedding: the image behind the path for an image query,
      the text itself otherwise. */
  function QueryEmbedding(e: Engine, query: string): (r: Result<Vector, SearchError>)
    ensures DetectModality(query, e.pathExists) == ImageQuery ==>
              (r.Success? <==> e.embedImage(query).Some?) && (r.Success? ==> r.value == e.embedImage(query).value)
    ensures DetectModality(query, e.pathExists) == TextQuery ==>
              (r.Success? <==> e.embedText(query).Some?) && (r.Success? ==> r.value == e.embedText(query).value)
    ensures r.Failure? ==> r.error == EncodingError
  {
    var v := if DetectModality(query, e.pathExists) == ImageQuery then e.embedImage(query) else e.embedText(query);
    match v
    case None => Failure(EncodingError)
    case Some(x) => Success(x)
  }

  /** An image query never runs the text encoder and a text query never
      opens a file: each embedding ignores the other encoder. */
  lemma QueryEmbeddingUsesOneEncoder(e: Engine, query: string,
                                     embedImage: string -> Option<Vector>, embedText: string -> Option<Vector>)
    ensures DetectModality(query, e.pathExists) == ImageQuery ==>
              QueryEmbedding(e.(embedText := embedText), query) == QueryEmbedding(e, query)
    ensures DetectModality(query, e.pathExists) == TextQuery ==>
              QueryEmbedding(e.(embedImage := embedImage), query) == QueryEmbedding(e, query)
  {
  }

  /** The retrieved candidates, before any rerank: the query's nearest
      `topKRetrieval` entries as candidates ranked 1, 2, ... with no rerank
      score. Encoding, the Chroma query or a short result list can fail. */
  function Retrieve(e: Engine, query: string, topKRetrieval: int): (r: Result<seq<Candidate>, SearchError>)
    ensures r.Failure? <==>
              QueryEmbedding(e, query).Failure?
              || e.nearest(QueryEmbedding(e, query).value, topKRetrieval).None?
              || ToCandidates(e.nearest(QueryEmbedding(e, query).value, topKRetrieval).value).Failure?
    ensures r.Success? ==>
              var res := e.nearest(QueryEmbedding(e, query).value, topKRetrieval).value;
              |r.value| == |res.ids|
              && forall i :: 0 <= i < |r.value| ==>
                   r.value[i].id == res.ids[i] && r.value[i].metadata == res.metadatas[i]
                   && r.value[i].score == 1.0 - res.distances[i]
                   && r.value[i].originalRank == i + 1 && r.value[i].rerankScore.None?
  {
    match QueryEmbedding(e, query)
    case Failure(err) => Failure(err)
    case Success(v) =>
      match e.nearest(v, topKRetrieval)
      case None => Failure(QueryError)
      case Some(res) => ToCandidates(res)
  }

  /** A search with both cut-offs given: fails exactly when
      retrieval fails or, for a text query, the rerank does; otherwise the
      first `topKFinal` candidates, reranked for a text query. */
  function SearchFor(e: Engine, query: string, topKRetrieval: int, topKFinal: int)
    : (r: Result<seq<Candidate>, SearchError>)
    ensures r.Failure? <==>
              Retrieve(e, query, topKRetrieval).Failure?
              || (DetectModality(query, e.pathExists) == TextQuery
                  && Rerank(query, Retrieve(e, query, topKRetrieval).value, e.predict).Failure?)
    ensures r.Success? && topKFinal >= 0 ==>
              |r.value| == if topKFinal <= |Retrieve(e, query, topKRetrieval).value| then topKFinal
                           else |Retrieve(e, query, topKRetrieval).value|
    ensures r.Success? && DetectModality(query, e.pathExists) == ImageQuery ==>
              r.value <= Retrieve(e, query, topKRetrieval).value
    ensures r.Success? && DetectModality(query, e.pathExists) == TextQuery ==>
              r.value <= Rerank(query, Retrieve(e, query, topKRetrieval).value, e.predict).value
    ensures r.Success? && DetectModality(query, e.pathExists) == TextQuery ==>
              NonIncreasing(r.value, Key) && forall k :: 0 <= k < |r.value| ==> r.value[k].rerankScore.Some?
  {
    match Retrieve(e, query, topKRetrieval)
    case Failure(err) => Failure(err)
    case Success(cands) =>
      if DetectModality(query, e.pathExists) == ImageQuery then Success(Truncate(cands, topKFinal))
      else
        match Rerank(query, cands, e.predict)
        case Failure(err) => Failure(err)
        case Success(ranked) => Success(Truncate(ranked, topKFinal))
  }

  /** A search with the default cut-offs, 20 retrieved and 5 answered. */
  function SearchDefault(e: Engine, query: string): (r: Result<seq<Candidate>, SearchError>)
    ensures r.Success? ==> |r.value| <= DefaultFinal
  {
    SearchFor(e, query, DefaultRetrieval, DefaultFinal)
  }

  /** An image query never consults the reranker: any `predict` gives the
      same answer, which keeps retrieval order and carries no rerank score. */
  lemma ImageQueryIgnoresReranker(e: Engine, query: string, topKRetrieval: int, topKFinal: int,
                                  predict: seq<(string, string)> -> seq<real>)
    requires DetectModality(query, e.pathExists) == ImageQuery
    ensures SearchFor(e.(predict := predict), query, topKRetrieval, topKFinal)
            == SearchFor(e, query, topKRetrieval, topKFinal)
    ensures var r := SearchFor(e, query, topKRetrieval, topKFinal);
            r.Success? ==> RanksIncreasing(r.value, Rank) && forall k :: 0 <= k < |r.value| ==> r.value[k].rerankScore.None?
  {
    var r := SearchFor(e, query, topKRetrieval, topKFinal);
    if r.Success? {
      var cands := Retrieve(e, query, topKRetrieval).value;
      assert forall k :: 0 <= k < |r.value| ==> r.value[k] == cands[k];
    }
  }

  /** A text query's answer depends on the reranker only through its scores
      for the (query, description) pairs of the retrieved candidates. */
  lemma TextQueryUsesPairScores(e: Engine, query: string, topKRetrieval: int, topKFinal: int,
                                predict: seq<(string, string)> -> seq<real>)
    requires DetectModality(query, e.pathExists) == TextQuery
    requires Retrieve(e, query, topKRetrieval).Success?
    requires predict(RerankPairs(query, Retrieve(e, query, topKRetrieval).value))
             == e.predict(RerankPairs(query, Retrieve(e, query, topKRetrieval).value))
    ensures SearchFor(e.(predict := predict), query, topKRetrieval, topKFinal)
            == SearchFor(e, query, topKRetrieval, topKFinal)
  {
  }

  /** Ties in the rerank score keep retrieval order in the final answer. */
  lemma TextQueryTiesKeepRetrievalOrder(e: Engine, query: string, topKRetrieval: int, topKFinal: int)
    requires DetectModality(query, e.pathExists) == TextQuery
    requires SearchFor(e, query, topKRetrieval, topKFinal).Success?
    ensures TiesInRankOrder(SearchFor(e, query, topKRetrieval, topKFinal).value, Key, Rank)
  {
    var cands := Retrieve(e, query, topKRetrieval).value;
    assert forall i :: 0 <= i < |cands| ==> cands[i].originalRank == i + 1;
    var ranked := Rerank(query, cands, e.predict).value;
    var r := SearchFor(e, query, topKRetrieval, topKFinal).value;
    assert forall k :: 0 <= k < |r| ==> r[k] == ranked[k];
  }
}
