/** The library's stable sort by a key, as an insertion sort, with what its callers rely on. */
module StableSort {

  ghost predicate SortedBy<T>(s: seq<T>, key: T -> real) {
    forall i, j :: 0 <= i < j < |s| ==> key(s[i]) <= key(s[j])
  }

  /** Put x before the first element whose key is not smaller. */
  function InsertBy<T>(x: T, s: seq<T>, key: T -> real): (r: seq<T>)
    ensures |r| == |s| + 1
  {
    if s == [] || key(x) <= key(s[0]) then [x] + s else [s[0]] + InsertBy(x, s[1..], key)
  }

  function SortBy<T>(s: seq<T>, key: T -> real): (r: seq<T>)
    ensures |r| == |s|
  {
    if s == [] then [] else InsertBy(s[0], SortBy(s[1..], key), key)
  }

  // ---------- Sorted ----------

  lemma {:induction false} InsertKeepsLowerBound<T>(x: T, s: seq<T>, key: T -> real, low: real)
    requires low <= key(x) && forall i :: 0 <= i < |s| ==> low <= key(s[i])
    ensures forall i :: 0 <= i < |InsertBy(x, s, key)| ==> low <= key(InsertBy(x, s, key)[i])
  {
    if s != [] && key(x) > key(s[0]) {
      InsertKeepsLowerBound(x, s[1..], key, low);
    }
  }

  lemma {:induction false} InsertSorts<T>(x: T, s: seq<T>, key: T -> real)
    requires SortedBy(s, key)
    ensures SortedBy(InsertBy(x, s, key), key)
  {
    if s != [] && key(x) > key(s[0]) {
      InsertSorts(x, s[1..], key);
      InsertKeepsLowerBound(x, s[1..], key, key(s[0]));
    }
  }

  lemma {:induction false} SortSorts<T>(s: seq<T>, key: T -> real)
    ensures SortedBy(SortBy(s, key), key)
  {
    if s != [] {
      SortSorts(s[1..], key);
      InsertSorts(s[0], SortBy(s[1..], key), key);
    }
  }

  // ---------- A permutation ----------

  lemma {:induction false} InsertPermutes<T>(x: T, s: seq<T>, key: T -> real)
    ensures multiset(InsertBy(x, s, key)) == multiset{x} + multiset(s)
  {
    if s != [] && key(x) > key(s[0]) {
      InsertPermutes(x, s[1..], key);
      assert s == [s[0]] + s[1..];
    }
  }

  lemma {:induction false} SortPermutes<T>(s: seq<T>, key: T -> real)
    ensures multiset(SortBy(s, key)) == multiset(s)
  {
    if s != [] {
      SortPermutes(s[1..], key);
      InsertPermutes(s[0], SortBy(s[1..], key), key);
      assert s == [s[0]] + s[1..];
    }
  }

  // ---------- Stable ----------

  /** The elements with a given key, in order. */
  function WithKey<T>(s: seq<T>, key: T -> real, k: real): seq<T> {
    if s == [] then []
    else (if key(s[0]) == k then [s[0]] else []) + WithKey(s[1..], key, k)
  }

  lemma {:induction false} NoneBelow<T>(s: seq<T>, key: T -> real, k: real)
    requires forall i :: 0 <= i < |s| ==> k < key(s[i])
    ensures WithKey(s, key, k) == []
  {
    if s != [] {
      NoneBelow(s[1..], key, k);
    }
  }

  lemma WithKeyCons<T>(x: T, s: seq<T>, key: T -> real, k: real)
    ensures WithKey([x] + s, key, k) == (if key(x) == k then [x] else []) + WithKey(s, key, k)
  {
    assert ([x] + s)[1..] == s;
  }

  lemma {:induction false} InsertIsStable<T>(x: T, s: seq<T>, key: T -> real, k: real)
    ensures WithKey(InsertBy(x, s, key), key, k) == (if key(x) == k then [x] else []) + WithKey(s, key, k)
  {
    hide WithKey;
    if s == [] || key(x) <= key(s[0]) {
      WithKeyCons(x, s, key, k);
    } else {
      InsertIsStable(x, s[1..], key, k);
      WithKeyCons(s[0], InsertBy(x, s[1..], key), key, k);
      WithKeyCons(s[0], s[1..], key, k);
      assert s == [s[0]] + s[1..];
    }
  }

  lemma {:induction false} SortIsStable<T>(s: seq<T>, key: T -> real, k: real)
    ensures WithKey(SortBy(s, key), key, k) == WithKey(s, key, k)
  {
    hide WithKey, InsertBy;
    if s != [] {
      SortIsStable(s[1..], key, k);
      InsertIsStable(s[0], SortBy(s[1..], key), key, k);
      WithKeyCons(s[0], s[1..], key, k);
      assert s == [s[0]] + s[1..];
    }
  }

  /** Sorting what is sorted changes nothing. */
  lemma {:induction false} SortOfSorted<T>(s: seq<T>, key: T -> real)
    requires SortedBy(s, key)
    ensures SortBy(s, key) == s
  {
    if s != [] {
      SortOfSorted(s[1..], key);
      if |s| > 1 {
        assert key(s[0]) <= key(s[1]);
      }
    }
  }

  // ---------- Order statistics ----------

  /** How many elements have a key of at most x. */
  function CountUpTo<T>(s: seq<T>, key: T -> real, x: real): nat {
    if s == [] then 0 else (if key(s[0]) <= x then 1 else 0) + CountUpTo(s[1..], key, x)
  }

  lemma {:induction false} InsertCounts<T>(y: T, s: seq<T>, key: T -> real, x: real)
    ensures CountUpTo(InsertBy(y, s, key), key, x) == (if key(y) <= x then 1 else 0) + CountUpTo(s, key, x)
  {
    if s == [] || key(y) <= key(s[0]) {
      assert ([y] + s)[1..] == s;
    } else {
      InsertCounts(y, s[1..], key, x);
      assert ([s[0]] + InsertBy(y, s[1..], key))[1..] == InsertBy(y, s[1..], key);
    }
  }

  lemma {:induction false} SortCounts<T>(s: seq<T>, key: T -> real, x: real)
    ensures CountUpTo(SortBy(s, key), key, x) == CountUpTo(s, key, x)
  {
    if s != [] {
      SortCounts(s[1..], key, x);
      InsertCounts(s[0], SortBy(s[1..], key), key, x);
    }
  }

  /** In a sorted list, the k-th element is at most x exactly when more than k elements are. */
  lemma {:induction false} KthUpTo<T>(s: seq<T>, key: T -> real, x: real, k: nat)
    requires SortedBy(s, key) && k < |s|
    ensures key(s[k]) <= x <==> CountUpTo(s, key, x) > k
  {
    if key(s[0]) > x {
      NoneUpTo(s, key, x);
      assert key(s[0]) <= key(s[k]);
    } else if k > 0 {
      KthUpTo(s[1..], key, x, k - 1);
    }
  }

  lemma {:induction false} NoneUpTo<T>(s: seq<T>, key: T -> real, x: real)
    requires forall i :: 0 <= i < |s| ==> x < key(s[i])
    ensures CountUpTo(s, key, x) == 0
  {
    if s != [] {
      NoneUpTo(s[1..], key, x);
    }
  }

  lemma {:induction false} SmallerCountsMore<T>(a: seq<T>, b: seq<T>, key: T -> real, x: real)
    requires |a| == |b| && forall i :: 0 <= i < |a| ==> key(a[i]) <= key(b[i])
    ensures CountUpTo(a, key, x) >= CountUpTo(b, key, x)
  {
    if a != [] {
      SmallerCountsMore(a[1..], b[1..], key, x);
    }
  }

  /** Pointwise order survives sorting the two lists separately. */
  lemma SortKeepsPointwiseOrder<T>(a: seq<T>, b: seq<T>, key: T -> real, k: nat)
    requires |a| == |b| && k < |a|
    requires forall i :: 0 <= i < |a| ==> key(a[i]) <= key(b[i])
    ensures key(SortBy(a, key)[k]) <= key(SortBy(b, key)[k])
  {
    var x := key(SortBy(b, key)[k]);
    SortSorts(a, key);
    SortSorts(b, key);
    KthUpTo(SortBy(b, key), key, x, k);
    SortCounts(b, key, x);
    SmallerCountsMore(a, b, key, x);
    SortCounts(a, key, x);
    KthUpTo(SortBy(a, key), key, x, k);
  }

  // ---------- Lists of numbers ----------

  const ID: real -> real := (x: real) => x

  /** A sorted list of numbers is determined by its multiset. */
  lemma {:induction false} SortedIsUnique(a: seq<real>, b: seq<real>)
    requires SortedBy(a, ID) && SortedBy(b, ID) && multiset(a) == multiset(b)
    ensures a == b
  {
    hide SortedBy;
    if a == [] {
      assert |multiset(b)| == 0;
    } else {
      assert |a| == |multiset(b)| == |b|;
      LeastFirst(a, b);
      LeastFirst(b, a);
      Tail(a);
      Tail(b);
      SortedIsUnique(a[1..], b[1..]);
    }
  }

  lemma Tail(a: seq<real>)
    requires a != [] && SortedBy(a, ID)
    ensures SortedBy(a[1..], ID) && multiset(a[1..]) == multiset(a) - multiset{a[0]} && a == [a[0]] + a[1..]
  {
    assert a == [a[0]] + a[1..];
  }

  lemma LeastFirst(a: seq<real>, b: seq<real>)
    requires a != [] && b != [] && SortedBy(a, ID) && multiset(a) == multiset(b)
    ensures a[0] <= b[0]
  {
    assert b[0] in multiset(a);
    var i :| 0 <= i < |a| && a[i] == b[0];
    assert i == 0 || ID(a[0]) <= ID(a[i]);
  }

  function Reverse<T>(s: seq<T>): (r: seq<T>)
    ensures |r| == |s| && forall i :: 0 <= i < |s| ==> r[i] == s[|s| - 1 - i]
  {
    if s == [] then [] else Reverse(s[1..]) + [s[0]]
  }

  lemma {:induction false} ReversePermutes<T>(s: seq<T>)
    ensures multiset(Reverse(s)) == multiset(s)
  {
    if s != [] {
      ReversePermutes(s[1..]);
      assert s == [s[0]] + s[1..];
    }
  }

  lemma SortOfReverse(s: seq<real>)
    ensures SortBy(Reverse(s), ID) == SortBy(s, ID)
  {
    ReversePermutes(s);
    SortPermutes(s, ID);
    SortPermutes(Reverse(s), ID);
    SortSorts(s, ID);
    SortSorts(Reverse(s), ID);
    SortedIsUnique(SortBy(Reverse(s), ID), SortBy(s, ID));
  }
}
