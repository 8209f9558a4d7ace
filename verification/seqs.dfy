/** Generic sequence helpers used by several modules. The functions carry only
    their length facts; what they keep and drop is stated by the lemmas. */
module Seqs {

  /** The elements of `xs` that satisfy `p`, in their original order
      (a list comprehension with an `if`). */
  function Filter<T>(xs: seq<T>, p: T -> bool): (ys: seq<T>)
    ensures |ys| <= |xs|
    decreases |xs|
  {
    if xs == [] then []
    else
      var init := xs[..|xs| - 1];
      Filter(init, p) + (if p(xs[|xs| - 1]) then [xs[|xs| - 1]] else [])
  }

  /** The elements of `xs` that do NOT satisfy `p`, in their original order. */
  function Reject<T>(xs: seq<T>, p: T -> bool): (ys: seq<T>)
    ensures |ys| <= |xs|
    decreases |xs|
  {
    if xs == [] then []
    else
      var init := xs[..|xs| - 1];
      Reject(init, p) + (if p(xs[|xs| - 1]) then [] else [xs[|xs| - 1]])
  }

  /** `xs` back to front. */
  function Reverse<T>(xs: seq<T>): (ys: seq<T>)
    ensures |ys| == |xs|
    decreases |xs|
  {
    if xs == [] then []
    else [xs[|xs| - 1]] + Reverse(xs[..|xs| - 1])
  }

  /** A left-to-right pass that inserts every element satisfying `front` at
      the front of the output and appends every other element at the back. */
  function FrontBack<T>(xs: seq<T>, front: T -> bool): (ys: seq<T>)
    ensures |ys| == |xs|
    decreases |xs|
  {
    if xs == [] then []
    else
      var acc := FrontBack(xs[..|xs| - 1], front);
      var x := xs[|xs| - 1];
      if front(x) then [x] + acc else acc + [x]
  }

  // ----- one step at the end -----

  lemma FilterSnoc<T>(xs: seq<T>, x: T, p: T -> bool)
    ensures p(x) ==> Filter(xs + [x], p) == Filter(xs, p) + [x]
    ensures !p(x) ==> Filter(xs + [x], p) == Filter(xs, p)
  {
    assert (xs + [x])[..|xs + [x]| - 1] == xs;
  }

  lemma RejectSnoc<T>(xs: seq<T>, x: T, p: T -> bool)
    ensures p(x) ==> Reject(xs + [x], p) == Reject(xs, p)
    ensures !p(x) ==> Reject(xs + [x], p) == Reject(xs, p) + [x]
  {
    assert (xs + [x])[..|xs + [x]| - 1] == xs;
  }

  lemma ReverseSnoc<T>(xs: seq<T>, x: T)
    ensures Reverse(xs + [x]) == [x] + Reverse(xs)
  {
    assert (xs + [x])[..|xs + [x]| - 1] == xs;
  }

  lemma FrontBackSnoc<T>(xs: seq<T>, x: T, front: T -> bool)
    ensures front(x) ==> FrontBack(xs + [x], front) == [x] + FrontBack(xs, front)
    ensures !front(x) ==> FrontBack(xs + [x], front) == FrontBack(xs, front) + [x]
  {
    assert (xs + [x])[..|xs + [x]| - 1] == xs;
  }

  // ----- what Filter, Reject and Reverse keep -----

  /** Filter keeps only elements satisfying `p`, drawn from `xs`. */
  lemma {:induction false} FilterSound<T>(xs: seq<T>, p: T -> bool)
    ensures forall k :: 0 <= k < |Filter(xs, p)| ==> p(Filter(xs, p)[k])
    ensures multiset(Filter(xs, p)) <= multiset(xs)
    decreases |xs|
  {
    if xs != [] {
      var init, x := xs[..|xs| - 1], xs[|xs| - 1];
      assert xs == init + [x];
      FilterSound(init, p);
      FilterSnoc(init, x, p);
    }
  }

  /** Filter drops no element satisfying `p`. */
  lemma {:induction false} FilterComplete<T>(xs: seq<T>, p: T -> bool, x: T)
    requires x in xs && p(x)
    ensures x in Filter(xs, p)
    decreases |xs|
  {
    var init, y := xs[..|xs| - 1], xs[|xs| - 1];
    assert xs == init + [y];
    FilterSnoc(init, y, p);
    if x != y {
      FilterComplete(init, p, x);
    }
  }

  /** Reject keeps only elements failing `p`, drawn from `xs`. */
  lemma {:induction false} RejectSound<T>(xs: seq<T>, p: T -> bool)
    ensures forall k :: 0 <= k < |Reject(xs, p)| ==> !p(Reject(xs, p)[k])
    ensures multiset(Reject(xs, p)) <= multiset(xs)
    decreases |xs|
  {
    if xs != [] {
      var init, x := xs[..|xs| - 1], xs[|xs| - 1];
      assert xs == init + [x];
      RejectSound(init, p);
      RejectSnoc(init, x, p);
    }
  }

  /** Position `k` of the reversal holds position `|xs| - 1 - k` of the input. */
  lemma {:induction false} ReverseIndex<T>(xs: seq<T>)
    ensures forall k :: 0 <= k < |xs| ==> Reverse(xs)[k] == xs[|xs| - 1 - k]
    ensures multiset(Reverse(xs)) == multiset(xs)
    decreases |xs|
  {
    if xs != [] {
      var init, x := xs[..|xs| - 1], xs[|xs| - 1];
      assert xs == init + [x];
      ReverseIndex(init);
    }
  }

  /** Filtering distributes over concatenation: order is kept. */
  lemma {:induction false} FilterAppend<T>(xs: seq<T>, ys: seq<T>, p: T -> bool)
    ensures Filter(xs + ys, p) == Filter(xs, p) + Filter(ys, p)
    decreases |ys|
  {
    if ys == [] {
      assert xs + ys == xs;
    } else {
      var init, y := ys[..|ys| - 1], ys[|ys| - 1];
      assert xs + ys == (xs + init) + [y];
      assert ys == init + [y];
      FilterAppend(xs, init, p);
      FilterSnoc(xs + init, y, p);
      FilterSnoc(init, y, p);
    }
  }

  lemma {:induction false} RejectAppend<T>(xs: seq<T>, ys: seq<T>, p: T -> bool)
    ensures Reject(xs + ys, p) == Reject(xs, p) + Reject(ys, p)
    decreases |ys|
  {
    if ys == [] {
      assert xs + ys == xs;
    } else {
      var init, y := ys[..|ys| - 1], ys[|ys| - 1];
      assert xs + ys == (xs + init) + [y];
      assert ys == init + [y];
      RejectAppend(xs, init, p);
      RejectSnoc(xs + init, y, p);
      RejectSnoc(init, y, p);
    }
  }

  /** Filter and Reject split a sequence: together they hold every element. */
  lemma {:induction false} FilterRejectPartition<T>(xs: seq<T>, p: T -> bool)
    ensures multiset(Filter(xs, p)) + multiset(Reject(xs, p)) == multiset(xs)
    decreases |xs|
  {
    if xs != [] {
      var init, x := xs[..|xs| - 1], xs[|xs| - 1];
      assert xs == init + [x];
      FilterRejectPartition(init, p);
      FilterSnoc(init, x, p);
      RejectSnoc(init, x, p);
    }
  }

  lemma {:induction false} RejectOfAll<T>(xs: seq<T>, p: T -> bool)
    requires forall k :: 0 <= k < |xs| ==> p(xs[k])
    ensures Reject(xs, p) == []
    decreases |xs|
  {
    if xs != [] {
      var init, x := xs[..|xs| - 1], xs[|xs| - 1];
      assert xs == init + [x];
      RejectOfAll(init, p);
      RejectSnoc(init, x, p);
    }
  }

  lemma {:induction false} RejectOfNone<T>(xs: seq<T>, p: T -> bool)
    requires forall k :: 0 <= k < |xs| ==> !p(xs[k])
    ensures Reject(xs, p) == xs
    decreases |xs|
  {
    if xs != [] {
      var init, x := xs[..|xs| - 1], xs[|xs| - 1];
      assert xs == init + [x];
      RejectOfNone(init, p);
      RejectSnoc(init, x, p);
    }
  }

  // ----- the front/back pass -----

  /** The front-inserted elements end up first, in reverse order; the
      appended ones follow, in their original order. */
  lemma {:induction false} FrontBackShape<T>(xs: seq<T>, front: T -> bool)
    ensures FrontBack(xs, front) == Reverse(Filter(xs, front)) + Reject(xs, front)
    decreases |xs|
  {
    if xs != [] {
      var init, x := xs[..|xs| - 1], xs[|xs| - 1];
      assert xs == init + [x];
      FrontBackShape(init, front);
      FrontBackSnoc(init, x, front);
      FilterSnoc(init, x, front);
      RejectSnoc(init, x, front);
      var hi, lo := Filter(init, front), Reject(init, front);
      if front(x) {
        ReverseSnoc(hi, x);
        assert [x] + (Reverse(hi) + lo) == ([x] + Reverse(hi)) + lo;
      } else {
        assert (Reverse(hi) + lo) + [x] == Reverse(hi) + (lo + [x]);
      }
    }
  }

  /** In the output no appended element precedes a front-inserted one. */
  lemma FrontBackFrontFirst<T>(xs: seq<T>, front: T -> bool)
    ensures forall i, j :: 0 <= i < j < |FrontBack(xs, front)| && front(FrontBack(xs, front)[j]) ==>
              front(FrontBack(xs, front)[i])
  {
    FrontBackShape(xs, front);
    var f := Filter(xs, front);
    var hi, lo := Reverse(f), Reject(xs, front);
    var out := FrontBack(xs, front);
    FilterSound(xs, front);
    RejectSound(xs, front);
    ReverseIndex(f);
    assert forall k :: 0 <= k < |hi| ==> front(out[k]) by {
      forall k | 0 <= k < |hi| ensures front(out[k]) {
        assert out[k] == hi[k] == f[|f| - 1 - k];
      }
    }
    assert forall k :: |hi| <= k < |out| ==> !front(out[k]) by {
      forall k | |hi| <= k < |out| ensures !front(out[k]) {
        assert out[k] == lo[k - |hi|];
      }
    }
  }

  /** The pass only rearranges its input. */
  lemma FrontBackPermutes<T>(xs: seq<T>, front: T -> bool)
    ensures multiset(FrontBack(xs, front)) == multiset(xs)
  {
    FrontBackShape(xs, front);
    FilterRejectPartition(xs, front);
    ReverseIndex(Filter(xs, front));
  }

  /** The appended elements keep their relative input order. */
  lemma FrontBackKeepsBackOrder<T>(xs: seq<T>, front: T -> bool)
    ensures Reject(FrontBack(xs, front), front) == Reject(xs, front)
  {
    FrontBackShape(xs, front);
    var f := Filter(xs, front);
    var hi, lo := Reverse(f), Reject(xs, front);
    FilterSound(xs, front);
    RejectSound(xs, front);
    ReverseIndex(f);
    RejectAppend(hi, lo, front);
    RejectOfAll(hi, front);
    RejectOfNone(lo, front);
  }
}
