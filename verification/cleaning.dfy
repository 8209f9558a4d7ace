/** Cell cleaning of the catalog pipeline (src/etl_pipeline.py): ASINs,
    URL blacklisting, text flattening and review formatting. */
module Cleaning {
  import opened Wrappers
  import opened Text
  import opened Seqs

  const UnknownAsin := "UNKNOWN"

  /** `clean_asin`: the first comma-separated ASIN of the cell, stripped. */
  function CleanAsin(raw: Option<string>): (r: string)
    ensures raw.None? ==> r == UnknownAsin
    ensures raw.Some? ==> ',' !in r && IsStripped(r)
    ensures raw.Some? ==> r == Strip(raw.value[..IndexOf(raw.value, ',')])
  {
    match raw
    case None => UnknownAsin
    case Some(s) =>
      var first := Split(s, ',')[0];
      StripKeepsAbsent(first, ',');
      Strip(first)
  }

  /** A cleaned ASIN is a fixed point of `clean_asin`. */
  lemma CleanAsinIdempotent(raw: Option<string>)
    ensures CleanAsin(Some(CleanAsin(raw))) == CleanAsin(raw)
  {
    var r := CleanAsin(raw);
    assert ',' !in r && IsStripped(r) by {
      if raw.None? {
        assert r[0] == 'U' && r[|r| - 1] == 'N';
      }
    }
    IndexOfAbsent(r, ',');
    assert r[..|r|] == r;
    StripStripped(r);
  }

  /** Substrings that mark a URL as a barcode image or a tracking pixel. */
  const BlockedMarkers: seq<string> := ["barcode", "upccodesearch", "barcodable", "pixel"]

  /** `sub` occurs in `s` at position `i` when the case of `s` is ignored. */
  predicate MatchesAtIgnoringCase(s: string, sub: string, i: int) {
    0 <= i <= |s| - |sub| && Lower(s[i..i + |sub|]) == sub
  }

  predicate ContainsIgnoringCase(s: string, sub: string) {
    exists i | 0 <= i <= |s| - |sub| :: MatchesAtIgnoringCase(s, sub, i)
  }

  lemma LowerContains(s: string, sub: string)
    ensures Contains(Lower(s), sub) <==> ContainsIgnoringCase(s, sub)
  {
    forall i | 0 <= i <= |s| - |sub|
      ensures OccursAt(Lower(s), sub, i) <==> MatchesAtIgnoringCase(s, sub, i)
    {
      LowerSlice(s, i, i + |sub|);
    }
  }

  /** `is_valid_url`: a URL is rejected exactly when one of the blocked
      markers occurs in it, in any letter case. */
  function IsValidUrl(url: string): (ok: bool)
    ensures ok <==> forall m | m in BlockedMarkers :: !ContainsIgnoringCase(url, m)
  {
    var l := Lower(url);
    LowerContains(url, "barcode");
    LowerContains(url, "upccodesearch");
    LowerContains(url, "barcodable");
    LowerContains(url, "pixel");
    !(Contains(l, "barcode") || Contains(l, "upccodesearch")
      || Contains(l, "barcodable") || Contains(l, "pixel"))
  }

  /** Validity ignores letter case: lower-casing a URL first changes nothing. */
  lemma IsValidUrlCaseInsensitive(url: string)
    ensures IsValidUrl(Lower(url)) == IsValidUrl(url)
  {
    forall m | m in BlockedMarkers
      ensures ContainsIgnoringCase(Lower(url), m) <==> ContainsIgnoringCase(url, m)
    {
      forall i | 0 <= i <= |url| - |m|
        ensures MatchesAtIgnoringCase(Lower(url), m, i) <==> MatchesAtIgnoringCase(url, m, i)
      {
        LowerSlice(url, i, i + |m|);
        assert Lower(Lower(url)[i..i + |m|]) == Lower(url[i..i + |m|]);
      }
    }
  }

  /** The three replacements of `clean_text`, in the source's order. */
  function Flatten(s: string): (r: string)
    ensures IsFlat(r)
    ensures |r| <= |s|
    ensures IsFlat(s) ==> r == s
  {
    var a := Replace(s, '\n', " ");
    var b := Replace(a, '\r', "");
    ReplaceKeepsAbsent(a, '\r', "", '\n');
    ReplaceKeepsAbsent(b, '"', "'", '\n');
    ReplaceKeepsAbsent(b, '"', "'", '\r');
    Replace(b, '"', "'")
  }

  /** `clean_text`: empty for a missing cell, otherwise the flattened and
      stripped text. */
  function CleanText(text: Option<string>): (r: string)
    ensures text.None? ==> r == ""
    ensures IsFlat(r) && IsStripped(r)
    ensures text.Some? ==> |r| <= |text.value|
  {
    match text
    case None => ""
    case Some(s) =>
      StripFlat(Flatten(s));
      Strip(Flatten(s))
  }

  // ----- what the flattening keeps -----

  /** The character a kept character becomes: a line feed turns into a
      space and a double quote into a single quote. */
  function FlatChar(c: char): char {
    if c == '\n' then ' ' else if c == '"' then '\'' else c
  }

  /** Carriage returns are deleted; every other character is kept. */
  predicate KeptByFlatten(c: char) {
    c != '\r'
  }

  /** Reference definition of the flattening, character by character: drop
      the carriage returns, then map each remaining character. */
  function FlattenRef(s: string): (r: string)
    ensures |r| == |Filter(s, KeptByFlatten)|
    ensures forall k :: 0 <= k < |r| ==> r[k] == FlatChar(Filter(s, KeptByFlatten)[k])
  {
    var kept := Filter(s, KeptByFlatten);
    seq(|kept|, k requires 0 <= k < |kept| => FlatChar(kept[k]))
  }

  lemma FlattenAppend(a: string, b: string)
    ensures Flatten(a + b) == Flatten(a) + Flatten(b)
  {
    ReplaceAppend(a, b, '\n', " ");
    var a1, b1 := Replace(a, '\n', " "), Replace(b, '\n', " ");
    ReplaceAppend(a1, b1, '\r', "");
    var a2, b2 := Replace(a1, '\r', ""), Replace(b1, '\r', "");
    ReplaceAppend(a2, b2, '"', "'");
  }

  lemma FlattenOne(x: char)
    ensures Flatten([x]) == if KeptByFlatten(x) then [FlatChar(x)] else []
  {
    assert [x][1..] == [];
    var a := Replace([x], '\n', " ");
    assert a == [if x == '\n' then ' ' else x] by {
      assert a == (if x == '\n' then " " else [x]) + Replace([], '\n', " ");
    }
    assert a[1..] == [];
    var b := Replace(a, '\r', "");
    assert b == (if x == '\r' then "" else a) by {
      assert b == (if a[0] == '\r' then "" else [a[0]]) + Replace([], '\r', "");
    }
    if b != [] {
      assert b[1..] == [];
      assert Replace(b, '"', "'") == (if b[0] == '"' then "'" else [b[0]]) + Replace([], '"', "'");
    }
  }

  /** The three replacements of `clean_text` delete every carriage return,
      turn every line feed into a space and every double quote into a single
      quote, and keep every other character, in order. */
  lemma {:induction false} FlattenMatchesRef(s: string)
    ensures Flatten(s) == FlattenRef(s)
    decreases |s|
  {
    if s != [] {
      var init, x := s[..|s| - 1], s[|s| - 1];
      assert s == init + [x];
      FlattenMatchesRef(init);
      FlattenAppend(init, [x]);
      FlattenOne(x);
      FilterSnoc(init, x, KeptByFlatten);
      var r, ri := FlattenRef(s), FlattenRef(init);
      if KeptByFlatten(x) {
        assert r == ri + [FlatChar(x)];
      } else {
        assert r == ri;
      }
    }
  }

  /** A present cell is cleaned to the flattened text with all outer
      whitespace removed and nothing else: `clean_text` keeps a contiguous
      piece of the flattened text and drops only whitespace around it. */
  lemma CleanTextStripsFlattened(s: string)
    ensures exists i :: StripsTo(FlattenRef(s), i, CleanText(Some(s)))
  {
    FlattenMatchesRef(s);
    StripInfix(Flatten(s));
    var i :| StripsTo(Flatten(s), i, Strip(Flatten(s)));
    assert CleanText(Some(s)) == Strip(Flatten(s));
    assert StripsTo(FlattenRef(s), i, CleanText(Some(s)));
  }

  /** Cleaning twice is cleaning once. */
  lemma CleanTextIdempotent(text: Option<string>)
    ensures CleanText(Some(CleanText(text))) == CleanText(text)
  {
    var c := CleanText(text);
    assert Flatten(c) == c;
    StripStripped(c);
  }

  /** Maximum number of review-text characters kept per review. */
  const ReviewTextLimit := 200

  /** The per-row `formatted_review`: `[<rating>/5] <first 200 chars of text>`. */
  function FormatReview(rating: Option<string>, text: Option<string>): (r: string)
    ensures IsFlat(r)
    ensures |CleanText(rating)| + 5 <= |r| <= |CleanText(rating)| + 5 + ReviewTextLimit
    ensures r[..|CleanText(rating)| + 5] == "[" + CleanText(rating) + "/5] "
    ensures r[|CleanText(rating)| + 5..] <= CleanText(text)
    ensures |r| == |CleanText(rating)| + 5
                   + (if |CleanText(text)| <= ReviewTextLimit then |CleanText(text)| else ReviewTextLimit)
  {
    var head := CleanText(rating);
    var body := Take(CleanText(text), ReviewTextLimit);
    var open := "[" + head + "/5] ";
    assert IsFlat(body) by {
      assert forall k :: 0 <= k < |body| ==> body[k] == CleanText(text)[k];
    }
    assert IsFlat("[") && IsFlat("/5] ");
    FlatConcat("[", head);
    FlatConcat("[" + head, "/5] ");
    FlatConcat(open, body);
    var r := open + body;
    assert |open| == |head| + 5;
    assert r[..|open|] == open && r[|open|..] == body;
    r
  }
}
