/** Image selection of the catalog pipeline (src/etl_pipeline.py): which
    URLs are tried, in which order, and which download wins. The network
    is the oracle `fetch`. */
module ImageUrls {
  import opened Text
  import opened Seqs
  import opened Cleaning

  const MinUrlLength := 10
  const HiResMarker := "SL1500"

  /** A stripped URL the download loop will try. */
  predicate IsCandidateUrl(u: string) {
    IsValidUrl(u) && |u| > MinUrlLength
  }

  /** Amazon's 1500-pixel rendition, tried first. */
  predicate IsHiRes(u: string) {
    Contains(u, HiResMarker)
  }

  /** One step of the selection loop: strip, filter, then put a
      high-resolution URL at the front and any other URL at the back. */
  function PlaceUrl(acc: seq<string>, raw: string): seq<string> {
    var u := Strip(raw);
    if !IsCandidateUrl(u) then acc
    else if IsHiRes(u) then [u] + acc
    else acc + [u]
  }

  /** `sorted_urls` after the selection loop over `raw`. */
  function OrderUrls(raw: seq<string>): (sorted: seq<string>)
    ensures |sorted| <= |raw|
    ensures forall k :: 0 <= k < |sorted| ==> IsCandidateUrl(sorted[k])
    decreases |raw|
  {
    if raw == [] then [] else PlaceUrl(OrderUrls(raw[..|raw| - 1]), raw[|raw| - 1])
  }

  function StripAll(raw: seq<string>): (r: seq<string>)
    ensures |r| == |raw|
    ensures forall k :: 0 <= k < |raw| ==> r[k] == Strip(raw[k])
  {
    seq(|raw|, k requires 0 <= k < |raw| => Strip(raw[k]))
  }

  /** Reference definition: the stripped URLs that pass the filter, in input order. */
  function KeptUrls(raw: seq<string>): seq<string> {
    Filter(StripAll(raw), IsCandidateUrl)
  }

  /** The selection loop is the generic front/back pass over the kept URLs,
      with high resolution as the "front" test. */
  lemma {:induction false} OrderUrlsIsFrontBack(raw: seq<string>)
    ensures OrderUrls(raw) == FrontBack(KeptUrls(raw), IsHiRes)
    decreases |raw|
  {
    if raw != [] {
      var init, last := raw[..|raw| - 1], raw[|raw| - 1];
      var u := Strip(last);
      assert StripAll(raw) == StripAll(init) + [u];
      FilterSnoc(StripAll(init), u, IsCandidateUrl);
      OrderUrlsIsFrontBack(init);
      assert OrderUrls(raw) == PlaceUrl(OrderUrls(init), last);
      if IsCandidateUrl(u) {
        assert KeptUrls(raw) == KeptUrls(init) + [u];
        FrontBackSnoc(KeptUrls(init), u, IsHiRes);
      } else {
        assert KeptUrls(raw) == KeptUrls(init);
      }
    }
  }

  /** The selection loop puts the kept high-resolution URLs first, in reverse
      input order, followed by the other kept URLs in input order. */
  lemma OrderUrlsShape(raw: seq<string>)
    ensures OrderUrls(raw) == Reverse(Filter(KeptUrls(raw), IsHiRes)) + Reject(KeptUrls(raw), IsHiRes)
  {
    OrderUrlsIsFrontBack(raw);
    FrontBackShape(KeptUrls(raw), IsHiRes);
  }

  /** The ordering only rearranges: it is a permutation of the kept URLs,
      and so a sub-multiset of the stripped input. */
  lemma OrderUrlsPermutesKept(raw: seq<string>)
    ensures multiset(OrderUrls(raw)) == multiset(KeptUrls(raw))
    ensures multiset(OrderUrls(raw)) <= multiset(StripAll(raw))
  {
    OrderUrlsIsFrontBack(raw);
    FrontBackPermutes(KeptUrls(raw), IsHiRes);
    FilterSound(StripAll(raw), IsCandidateUrl);
  }

  /** Every high-resolution URL precedes every other URL, and every URL kept
      is a stripped candidate. */
  lemma OrderUrlsHiResFirst(raw: seq<string>)
    ensures forall k :: 0 <= k < |OrderUrls(raw)| ==>
              IsCandidateUrl(OrderUrls(raw)[k]) && IsStripped(OrderUrls(raw)[k])
    ensures forall i, j :: 0 <= i < j < |OrderUrls(raw)| && IsHiRes(OrderUrls(raw)[j]) ==>
              IsHiRes(OrderUrls(raw)[i])
  {
    OrderUrlsIsFrontBack(raw);
    FrontBackFrontFirst(KeptUrls(raw), IsHiRes);
    OrderUrlsPermutesKept(raw);
    var kept, out := KeptUrls(raw), OrderUrls(raw);
    FilterSound(StripAll(raw), IsCandidateUrl);
    forall k | 0 <= k < |out| ensures IsCandidateUrl(out[k]) && IsStripped(out[k]) {
      assert out[k] in multiset(kept);
      var m :| 0 <= m < |kept| && kept[m] == out[k];
      assert out[k] in multiset(StripAll(raw));
      var n :| 0 <= n < |raw| && StripAll(raw)[n] == out[k];
    }
  }

  /** The order in which the other (not high-resolution) URLs are tried is
      their input order. */
  lemma OrderUrlsLowResInInputOrder(raw: seq<string>)
    ensures Reject(OrderUrls(raw), IsHiRes) == Reject(KeptUrls(raw), IsHiRes)
  {
    OrderUrlsIsFrontBack(raw);
    FrontBackKeepsBackOrder(KeptUrls(raw), IsHiRes);
  }

  /** Outcome of the download loop for one product. */
  datatype ImageOutcome = AlreadyOnDisk | Downloaded(url: string) | NotSaved

  /** The download loop: the existing file wins; otherwise URLs are tried in
      order and the first that `fetch`es successfully is saved. */
  function SaveImage(urls: seq<string>, onDisk: bool, fetch: string -> bool): (o: ImageOutcome)
    ensures o.AlreadyOnDisk? <==> urls != [] && onDisk
    ensures o.NotSaved? <==> urls == [] || (!onDisk && forall k :: 0 <= k < |urls| ==> !fetch(urls[k]))
    ensures o.Downloaded? ==>
              exists k :: (0 <= k < |urls| && urls[k] == o.url && fetch(urls[k])
                && forall j :: 0 <= j < k ==> !fetch(urls[j]))
    decreases |urls|
  {
    if urls == [] then NotSaved
    else if onDisk then AlreadyOnDisk
    else if fetch(urls[0]) then Downloaded(urls[0])
    else
      var o := SaveImage(urls[1..], onDisk, fetch);
      assert o.Downloaded? ==>
        exists k :: (1 <= k < |urls| && urls[k] == o.url
          && fetch(urls[k]) && forall j :: 0 <= j < k ==> !fetch(urls[j])) by {
        if o.Downloaded? {
          var k :| 0 <= k < |urls[1..]| && urls[1..][k] == o.url
            && fetch(urls[1..][k]) && forall j :: 0 <= j < k ==> !fetch(urls[1..][j]);
          assert forall j :: 0 <= j < k + 1 ==> !fetch(urls[j]) by {
            forall j | 0 <= j < k + 1 ensures !fetch(urls[j]) {
              if j > 0 {
                assert urls[j] == urls[1..][j - 1];
              }
            }
          }
        }
      }
      o
  }
}
