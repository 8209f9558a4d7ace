/** A stable sort into non-increasing key order, as Python's
    `list.sort(key=..., reverse=True)` does it: elements with equal keys keep
    their relative order. */
module Sorting {

  predicate NonIncreasing<T>(xs: seq<T>, key: T -> real) {
    forall i, j :: 0 <= i < j < |xs| ==> key(xs[i]) >= key(xs[j])
  }

  /** Elements with equal keys appear in increasing `rank` order. */
  predicate TiesInRankOrder<T>(xs: seq<T>, key: T -> real, rank: T -> int) {
    forall i, j :: 0 <= i < j < |xs| && key(xs[i]) == key(xs[j]) ==> rank(xs[i]) < rank(xs[j])
  }

  predicate RanksIncreasing<T>(xs: seq<T>, rank: T -> int) {
    forall i, j :: 0 <= i < j < |xs| ==> rank(xs[i]) < rank(xs[j])
  }

  /** Inserts `x` in front of the first element whose key is not larger. */
  function Insert<T>(x: T, sorted: seq<T>, key: T -> real): (r: seq<T>)
    ensures |r| == |sorted| + 1
    decreases |sorted|
  {
    if sorted == [] then [x]
    else if key(sorted[0]) <= key(x) then [x] + sorted
    else [sorted[0]] + Insert(x, sorted[1..], key)
  }

  /** Insertion sort: the head is inserted into the sorted tail. */
  function SortDesc<T>(xs: seq<T>, key: T -> real): (r: seq<T>)
    ensures |r| == |xs|
    decreases |xs|
  {
    if xs == [] then [] else Insert(xs[0], SortDesc(xs[1..], key), key)
  }

  lemma {:induction false} InsertPermutes<T>(x: T, sorted: seq<T>, key: T -> real)
    ensures multiset(Insert(x, sorted, key)) == multiset(sorted) + multiset{x}
    decreases |sorted|
  {
    if sorted != [] && key(sorted[0]) > key(x) {
      InsertPermutes(x, sorted[1..], key);
      assert sorted == [sorted[0]] + sorted[1..];
    }
  }

  /** Where element `k` of an insertion comes from: `x` itself (`m == -1`)
      or position `m` of the sorted list. */
  lemma {:induction false} InsertOrigin<T>(x: T, sorted: seq<T>, key: T -> real, k: nat) returns (m: int)
    requires k <= |sorted|
    ensures -1 <= m < |sorted|
    ensures m == -1 ==> Insert(x, sorted, key)[k] == x
    ensures m >= 0 ==> Insert(x, sorted, key)[k] == sorted[m]
    decreases |sorted|
  {
    if sorted == [] {
      m := -1;
    } else if key(sorted[0]) <= key(x) {
      m := k - 1;
    } else if k == 0 {
      m := 0;
    } else {
      var m' := InsertOrigin(x, sorted[1..], key, k - 1);
      m := if m' == -1 then -1 else m' + 1;
    }
  }

  lemma {:induction false} InsertSorted<T>(x: T, sorted: seq<T>, key: T -> real)
    requires NonIncreasing(sorted, key)
    ensures NonIncreasing(Insert(x, sorted, key), key)
    decreases |sorted|
  {
    if sorted != [] && key(sorted[0]) > key(x) {
      var rest := Insert(x, sorted[1..], key);
      InsertSorted(x, sorted[1..], key);
      var r := [sorted[0]] + rest;
      forall i, j | 0 <= i < j < |r| ensures key(r[i]) >= key(r[j]) {
        assert r[j] == rest[j - 1];
        if i > 0 {
          assert r[i] == rest[i - 1];
        } else {
          var m := InsertOrigin(x, sorted[1..], key, j - 1);
          if m >= 0 {
            assert sorted[1..][m] == sorted[m + 1];
          }
        }
      }
    }
  }

  lemma {:induction false} InsertStable<T>(x: T, sorted: seq<T>, key: T -> real, rank: T -> int)
    requires TiesInRankOrder(sorted, key, rank)
    requires forall k :: 0 <= k < |sorted| ==> rank(x) < rank(sorted[k])
    ensures TiesInRankOrder(Insert(x, sorted, key), key, rank)
    decreases |sorted|
  {
    if sorted != [] && key(sorted[0]) > key(x) {
      var rest := Insert(x, sorted[1..], key);
      InsertStable(x, sorted[1..], key, rank);
      var r := [sorted[0]] + rest;
      forall i, j | 0 <= i < j < |r| && key(r[i]) == key(r[j]) ensures rank(r[i]) < rank(r[j]) {
        assert r[j] == rest[j - 1];
        if i > 0 {
          assert r[i] == rest[i - 1];
        } else {
          var m := InsertOrigin(x, sorted[1..], key, j - 1);
          if m >= 0 {
            assert sorted[1..][m] == sorted[m + 1];
          }
        }
      }
    }
  }

  lemma {:induction false} SortPermutes<T>(xs: seq<T>, key: T -> real)
    ensures multiset(SortDesc(xs, key)) == multiset(xs)
    decreases |xs|
  {
    if xs != [] {
      SortPermutes(xs[1..], key);
      InsertPermutes(xs[0], SortDesc(xs[1..], key), key);
      assert xs == [xs[0]] + xs[1..];
    }
  }

  lemma {:induction false} SortSorted<T>(xs: seq<T>, key: T -> real)
    ensures NonIncreasing(SortDesc(xs, key), key)
    decreases |xs|
  {
    if xs != [] {
      SortSorted(xs[1..], key);
      InsertSorted(xs[0], SortDesc(xs[1..], key), key);
    }
  }

  /** Stability: if the input is in increasing rank order, equal keys stay
      in rank order. */
  lemma {:induction false} SortStable<T>(xs: seq<T>, key: T -> real, rank: T -> int)
    requires RanksIncreasing(xs, rank)
    ensures TiesInRankOrder(SortDesc(xs, key), key, rank)
    decreases |xs|
  {
    if xs != [] {
      var rest := SortDesc(xs[1..], key);
      SortStable(xs[1..], key, rank);
      SortPermutes(xs[1..], key);
      forall k | 0 <= k < |rest| ensures rank(xs[0]) < rank(rest[k]) {
        assert rest[k] in multiset(xs[1..]);
        var m :| 0 <= m < |xs[1..]| && xs[1..][m] == rest[k];
        assert xs[m + 1] == rest[k];
      }
      InsertStable(xs[0], rest, key, rank);
    }
  }

  /** The sort's three promises together. */
  lemma SortDescCorrect<T>(xs: seq<T>, key: T -> real, rank: T -> int)
    ensures multiset(SortDesc(xs, key)) == multiset(xs)
    ensures NonIncreasing(SortDesc(xs, key), key)
    ensures RanksIncreasing(xs, rank) ==> TiesInRankOrder(SortDesc(xs, key), key, rank)
  {
    SortPermutes(xs, key);
    SortSorted(xs, key);
    if RanksIncreasing(xs, rank) {
      SortStable(xs, key, rank);
    }
  }
}
