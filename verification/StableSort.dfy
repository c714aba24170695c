/** A stable sort, the library operation both stores use to order rows. */
module StableSort {
  function Insert<T>(key: T -> int, sorted: seq<T>, x: T): seq<T> {
    if sorted == [] then [x]
    else if key(sorted[|sorted| - 1]) <= key(x) then sorted + [x]
    else Insert(key, sorted[..|sorted| - 1], x) + [sorted[|sorted| - 1]]
  }

  function SortBy<T>(key: T -> int, xs: seq<T>): seq<T> {
    if xs == [] then [] else Insert(key, SortBy(key, xs[..|xs| - 1]), xs[|xs| - 1])
  }

  predicate SortedBy<T>(key: T -> int, xs: seq<T>) {
    forall i, j :: 0 <= i <= j < |xs| ==> key(xs[i]) <= key(xs[j])
  }

  /** The elements with a given key, in order: two stably sorted lists agree on all of these. */
  function WithKey<T>(key: T -> int, xs: seq<T>, k: int): seq<T> {
    if xs == [] then []
    else WithKey(key, xs[..|xs| - 1], k) + (if key(xs[|xs| - 1]) == k then [xs[|xs| - 1]] else [])
  }

  lemma {:induction false} InsertKeepsElements<T>(key: T -> int, sorted: seq<T>, x: T)
    ensures multiset(Insert(key, sorted, x)) == multiset(sorted) + multiset{x}
  {
    if sorted != [] && key(sorted[|sorted| - 1]) > key(x) {
      InsertKeepsElements(key, sorted[..|sorted| - 1], x);
      assert sorted == sorted[..|sorted| - 1] + [sorted[|sorted| - 1]];
    }
  }

  lemma {:induction false} InsertKeepsOrder<T>(key: T -> int, sorted: seq<T>, x: T)
    requires SortedBy(key, sorted)
    ensures SortedBy(key, Insert(key, sorted, x))
  {
    if sorted != [] && key(sorted[|sorted| - 1]) > key(x) {
      var init, last := sorted[..|sorted| - 1], sorted[|sorted| - 1];
      InsertKeepsOrder(key, init, x);
      InsertKeepsElements(key, init, x);
      var r := Insert(key, init, x);
      forall i | 0 <= i < |r| ensures key(r[i]) <= key(last) {
        assert r[i] in multiset(r);
        assert r[i] in init || r[i] == x;
      }
    }
  }

  lemma {:induction false} InsertIsStable<T>(key: T -> int, sorted: seq<T>, x: T, k: int)
    requires SortedBy(key, sorted)
    ensures WithKey(key, Insert(key, sorted, x), k) == WithKey(key, sorted, k) + (if key(x) == k then [x] else [])
  {
    if sorted == [] {
      assert [x][..0] == [];
    } else if key(sorted[|sorted| - 1]) <= key(x) {
      assert (sorted + [x])[..|sorted|] == sorted;
    } else {
      var init, last := sorted[..|sorted| - 1], sorted[|sorted| - 1];
      InsertIsStable(key, init, x, k);
      var r := Insert(key, init, x);
      assert (r + [last])[..|r|] == r;
      if key(x) == k {
        assert key(last) != k;
        assert WithKey(key, sorted, k) == WithKey(key, init, k) + [];
      }
    }
  }

  lemma {:induction false} SortByOrders<T>(key: T -> int, xs: seq<T>)
    ensures SortedBy(key, SortBy(key, xs))
  {
    if xs != [] {
      SortByOrders(key, xs[..|xs| - 1]);
      InsertKeepsOrder(key, SortBy(key, xs[..|xs| - 1]), xs[|xs| - 1]);
    }
  }

  lemma {:induction false} SortByKeepsElements<T>(key: T -> int, xs: seq<T>)
    ensures multiset(SortBy(key, xs)) == multiset(xs)
  {
    if xs != [] {
      var init, last := xs[..|xs| - 1], xs[|xs| - 1];
      SortByKeepsElements(key, init);
      InsertKeepsElements(key, SortBy(key, init), last);
      assert xs == init + [last];
    }
  }

  /** Elements with equal keys keep their order. */
  lemma {:induction false} SortByIsStable<T>(key: T -> int, xs: seq<T>, k: int)
    ensures WithKey(key, SortBy(key, xs), k) == WithKey(key, xs, k)
  {
    if xs != [] {
      var init, last := xs[..|xs| - 1], xs[|xs| - 1];
      SortByIsStable(key, init, k);
      SortByOrders(key, init);
      InsertIsStable(key, SortBy(key, init), last, k);
    }
  }

  lemma SortByKeepsMembers<T>(key: T -> int, xs: seq<T>)
    ensures |SortBy(key, xs)| == |xs|
    ensures forall x :: x in SortBy(key, xs) <==> x in xs
  {
    SortByKeepsElements(key, xs);
    assert |SortBy(key, xs)| == |multiset(SortBy(key, xs))| == |xs|;
    forall x ensures x in SortBy(key, xs) <==> x in xs {
      assert x in multiset(SortBy(key, xs)) <==> x in multiset(xs);
    }
  }

  /** Sorting distinct elements leaves them distinct. */
  lemma SortByKeepsDistinct<T>(key: T -> int, xs: seq<T>)
    requires forall i, j :: 0 <= i < j < |xs| ==> xs[i] != xs[j]
    ensures forall i, j :: 0 <= i < j < |xs| ==> |SortBy(key, xs)| == |xs| && SortBy(key, xs)[i] != SortBy(key, xs)[j]
  {
    var ys := SortBy(key, xs);
    SortByKeepsMembers(key, xs);
    SortByKeepsElements(key, xs);
    forall i, j | 0 <= i < j < |ys| ensures ys[i] != ys[j] {
      if ys[i] == ys[j] {
        TwiceInMultiset(ys, i, j);
        OnceInMultiset(xs, ys[i]);
      }
    }
  }

  lemma TwiceInMultiset<T>(ys: seq<T>, i: nat, j: nat)
    requires i < j < |ys| && ys[i] == ys[j]
    ensures multiset(ys)[ys[i]] >= 2
  {
    assert ys == ys[..j] + [ys[j]] + ys[j + 1..];
    assert ys[i] in ys[..j];
    assert multiset(ys) == multiset(ys[..j]) + multiset{ys[j]} + multiset(ys[j + 1..]);
  }

  lemma {:induction false} OnceInMultiset<T>(xs: seq<T>, x: T)
    requires forall i, j :: 0 <= i < j < |xs| ==> xs[i] != xs[j]
    ensures multiset(xs)[x] <= 1
  {
    if xs != [] {
      var init := xs[..|xs| - 1];
      OnceInMultiset(init, x);
      assert xs == init + [xs[|xs| - 1]];
      if xs[|xs| - 1] == x {
        assert x !in init;
      }
    }
  }

  // ----- the first few of a sorted list

  function Take<T>(xs: seq<T>, limit: nat): seq<T> {
    if |xs| <= limit then xs else xs[..limit]
  }

  lemma {:induction false} WithKeyOfPrefix<T>(key: T -> int, xs: seq<T>, n: nat, k: int)
    requires n <= |xs|
    ensures WithKey(key, xs[..n], k) <= WithKey(key, xs, k)
  {
    if n < |xs| {
      var init := xs[..|xs| - 1];
      WithKeyOfPrefix(key, init, n, k);
      assert init[..n] == xs[..n];
    } else {
      assert xs[..n] == xs;
    }
  }

  /** Sorting and cutting at a limit takes exactly as many elements as there are, up to the limit; the least ones,
      in order; and among equals those that come first. */
  lemma {:induction false} FirstAreLeast<T>(key: T -> int, xs: seq<T>, limit: nat, x: T, other: T, k: int)
    ensures
      var first := Take(SortBy(key, xs), limit);
      && |first| == (if |xs| <= limit then |xs| else limit) && SortedBy(key, first)
      && (x in first ==> x in xs)
      && (x in first && other in xs && other !in first ==> key(x) <= key(other))
      && WithKey(key, first, k) <= WithKey(key, xs, k)
  {
    var sorted := SortBy(key, xs);
    var first := Take(sorted, limit);
    SortByKeepsMembers(key, xs);
    SortByIsStable(key, xs, k);
    SortByOrders(key, xs);
    hide SortBy, WithKey;
    assert first == sorted[..|first|];
    WithKeyOfPrefix(key, sorted, |first|, k);
    if x in first && other in xs && other !in first {
    }
  }
}
