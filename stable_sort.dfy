/**
 * Stable sorting by an integer key, as Python's `list.sort(key=...)` does:
 * the result is ordered by the key, and elements with equal keys keep the
 * order they had in the input.  Stability is stated as "for every key k, the
 * elements whose key is k appear in the same order as in the input".
 */
module StableSort {

  ghost predicate SortedBy<T>(xs: seq<T>, key: T -> int) {
    forall i, j :: 0 <= i < j < |xs| ==> key(xs[i]) <= key(xs[j])
  }

  /** The elements of xs whose key is k, in their order in xs. */
  function WithKey<T>(xs: seq<T>, key: T -> int, k: int): (r: seq<T>)
    ensures |r| <= |xs|
    decreases |xs|
  {
    if xs == [] then []
    else (if key(xs[0]) == k then [xs[0]] else []) + WithKey(xs[1..], key, k)
  }

  lemma {:induction false} WithKeyAppend<T>(xs: seq<T>, ys: seq<T>, key: T -> int, k: int)
    ensures WithKey(xs + ys, key, k) == WithKey(xs, key, k) + WithKey(ys, key, k)
    decreases |xs|
  {
    if xs == [] {
      assert xs + ys == ys;
    } else {
      var head := if key(xs[0]) == k then [xs[0]] else [];
      var zs := xs + ys;
      assert zs[0] == xs[0];
      assert zs[1..] == xs[1..] + ys;
      WithKeyAppend(xs[1..], ys, key, k);
      calc {
        WithKey(zs, key, k);
        head + WithKey(xs[1..] + ys, key, k);
        head + (WithKey(xs[1..], key, k) + WithKey(ys, key, k));
        { SeqAssoc(head, WithKey(xs[1..], key, k), WithKey(ys, key, k)); }
        (head + WithKey(xs[1..], key, k)) + WithKey(ys, key, k);
      }
    }
  }

  lemma SeqAssoc<T>(a: seq<T>, b: seq<T>, c: seq<T>)
    ensures a + (b + c) == (a + b) + c
  {
  }

  lemma {:induction false} WithKeyAbsent<T>(xs: seq<T>, key: T -> int, k: int)
    requires forall i :: 0 <= i < |xs| ==> key(xs[i]) != k
    ensures WithKey(xs, key, k) == []
    decreases |xs|
  {
    if xs != [] {
      WithKeyAbsent(xs[1..], key, k);
    }
  }

  /** Insert x into the sorted xs after every element whose key is <= key(x). */
  function Insert<T>(x: T, xs: seq<T>, key: T -> int): (r: seq<T>)
    ensures |r| == |xs| + 1
    decreases |xs|
  {
    if xs == [] then [x]
    else if key(x) < key(xs[0]) then [x] + xs
    else [xs[0]] + Insert(x, xs[1..], key)
  }

  lemma {:induction false} InsertPermutes<T>(x: T, xs: seq<T>, key: T -> int)
    ensures multiset(Insert(x, xs, key)) == multiset(xs) + multiset{x}
    decreases |xs|
  {
    if xs != [] && key(x) >= key(xs[0]) {
      InsertPermutes(x, xs[1..], key);
      assert xs == [xs[0]] + xs[1..];
    }
  }

  /** Insert keeps a lower bound that x and every element of xs respect. */
  lemma {:induction false} InsertAbove<T>(x: T, xs: seq<T>, key: T -> int, b: int)
    requires b <= key(x) && forall i :: 0 <= i < |xs| ==> b <= key(xs[i])
    ensures forall i :: 0 <= i < |Insert(x, xs, key)| ==> b <= key(Insert(x, xs, key)[i])
    decreases |xs|
  {
    if xs != [] && key(x) >= key(xs[0]) {
      InsertAbove(x, xs[1..], key, b);
      var r := Insert(x, xs, key);
      var rest := Insert(x, xs[1..], key);
      assert r == [xs[0]] + rest;
      forall i | 0 <= i < |r| ensures b <= key(r[i]) {
        if i > 0 { assert r[i] == rest[i - 1]; }
      }
    }
  }

  lemma {:induction false} InsertSorted<T>(x: T, xs: seq<T>, key: T -> int)
    requires SortedBy(xs, key)
    ensures SortedBy(Insert(x, xs, key), key)
    decreases |xs|
  {
    if xs != [] && key(x) >= key(xs[0]) {
      var rest := Insert(x, xs[1..], key);
      SortedTail(xs, key);
      InsertSorted(x, xs[1..], key);
      forall i | 0 <= i < |xs[1..]| ensures key(xs[0]) <= key(xs[1..][i]) {
        assert xs[1..][i] == xs[i + 1];
      }
      InsertAbove(x, xs[1..], key, key(xs[0]));
      var r := [xs[0]] + rest;
      assert Insert(x, xs, key) == r;
      forall i, j | 0 <= i < j < |r| ensures key(r[i]) <= key(r[j]) {
        assert r[j] == rest[j - 1];
        if i > 0 {
          assert r[i] == rest[i - 1];
        }
      }
    }
  }

  lemma {:induction false} WithKeyInsert<T>(x: T, xs: seq<T>, key: T -> int, k: int)
    requires SortedBy(xs, key)
    ensures WithKey(Insert(x, xs, key), key, k) == WithKey(xs, key, k) + WithKey([x], key, k)
    decreases |xs|
  {
    if xs == [] {
      assert Insert(x, xs, key) == [x];
    } else if key(x) < key(xs[0]) {
      WithKeyInsertFront(x, xs, key, k);
    } else {
      var rest := Insert(x, xs[1..], key);
      assert Insert(x, xs, key) == [xs[0]] + rest;
      SortedTail(xs, key);
      WithKeyInsert(x, xs[1..], key, k);
      var head := if key(xs[0]) == k then [xs[0]] else [];
      assert ([xs[0]] + rest)[0] == xs[0] && ([xs[0]] + rest)[1..] == rest;
      calc {
        WithKey([xs[0]] + rest, key, k);
        head + WithKey(rest, key, k);
        head + (WithKey(xs[1..], key, k) + WithKey([x], key, k));
        { SeqAssoc(head, WithKey(xs[1..], key, k), WithKey([x], key, k)); }
        (head + WithKey(xs[1..], key, k)) + WithKey([x], key, k);
      }
    }
  }

  lemma SortedTail<T>(xs: seq<T>, key: T -> int)
    requires xs != [] && SortedBy(xs, key)
    ensures SortedBy(xs[1..], key)
  {
    forall i, j | 0 <= i < j < |xs[1..]| ensures key(xs[1..][i]) <= key(xs[1..][j]) {
      assert xs[1..][i] == xs[i + 1] && xs[1..][j] == xs[j + 1];
    }
  }

  /** Inserting before the first element: x's key is below every key of xs. */
  lemma WithKeyInsertFront<T>(x: T, xs: seq<T>, key: T -> int, k: int)
    requires SortedBy(xs, key) && xs != [] && key(x) < key(xs[0])
    ensures WithKey(Insert(x, xs, key), key, k) == WithKey(xs, key, k) + WithKey([x], key, k)
  {
    assert Insert(x, xs, key) == [x] + xs;
    WithKeyAppend([x], xs, key, k);
    if key(x) == k {
      forall i | 0 <= i < |xs| ensures key(xs[i]) != k {
        if i > 0 { assert key(xs[0]) <= key(xs[i]); }
      }
      WithKeyAbsent(xs, key, k);
    } else {
      assert WithKey([x], key, k) == [];
    }
  }

  /** One step of the sort keeps, for every key, the input order of that key's elements. */
  lemma SortStepStable<T>(init: seq<T>, last: T, sortedInit: seq<T>, key: T -> int)
    requires SortedBy(sortedInit, key)
    requires forall k :: WithKey(sortedInit, key, k) == WithKey(init, key, k)
    ensures forall k :: WithKey(Insert(last, sortedInit, key), key, k) == WithKey(init + [last], key, k)
  {
    forall k ensures WithKey(Insert(last, sortedInit, key), key, k) == WithKey(init + [last], key, k) {
      WithKeyInsert(last, sortedInit, key, k);
      WithKeyAppend(init, [last], key, k);
    }
  }

  /**
   * Stable insertion sort: each element, from left to right, goes after every
   * element already placed whose key is not larger.
   */
  function SortBy<T>(xs: seq<T>, key: T -> int): (r: seq<T>)
    ensures |r| == |xs|
    decreases |xs|
  {
    if xs == [] then [] else Insert(xs[|xs| - 1], SortBy(xs[..|xs| - 1], key), key)
  }

  /**
   * The sort is a permutation of its input, is ordered by the key, and keeps
   * the input order among elements with equal keys.
   */
  lemma {:induction false} SortByCorrect<T>(xs: seq<T>, key: T -> int)
    ensures multiset(SortBy(xs, key)) == multiset(xs)
    ensures SortedBy(SortBy(xs, key), key)
    ensures forall k :: WithKey(SortBy(xs, key), key, k) == WithKey(xs, key, k)
    decreases |xs|
  {
    if xs != [] {
      var init := xs[..|xs| - 1];
      var last := xs[|xs| - 1];
      SortByCorrect(init, key);
      var sortedInit := SortBy(init, key);
      InsertPermutes(last, sortedInit, key);
      InsertSorted(last, sortedInit, key);
      assert xs == init + [last];
      SortStepStable(init, last, sortedInit, key);
    }
  }

  /** Sorting what is already sorted changes nothing. */
  lemma {:induction false} SortBySorted<T>(xs: seq<T>, key: T -> int)
    requires SortedBy(xs, key)
    ensures SortBy(xs, key) == xs
    decreases |xs|
  {
    if xs != [] {
      var init := xs[..|xs| - 1];
      SortBySorted(init, key);
      InsertLast(xs[|xs| - 1], init, key);
    }
  }

  lemma {:induction false} InsertLast<T>(x: T, xs: seq<T>, key: T -> int)
    requires SortedBy(xs + [x], key)
    ensures SortedBy(xs, key) && Insert(x, xs, key) == xs + [x]
    decreases |xs|
  {
    assert SortedBy(xs, key) by {
      forall i, j | 0 <= i < j < |xs| ensures key(xs[i]) <= key(xs[j]) {
        assert (xs + [x])[i] == xs[i] && (xs + [x])[j] == xs[j];
      }
    }
    if xs != [] {
      assert (xs + [x])[0] == xs[0] && (xs + [x])[|xs|] == x;
      assert xs[1..] + [x] == (xs + [x])[1..];
      InsertLast(x, xs[1..], key);
      assert xs == [xs[0]] + xs[1..];
    }
  }
}
