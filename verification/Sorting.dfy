/** Stable sorting by an integer key, as the standard library's `sort_by_key` does it. */
module Sorting {

  function Insert<T>(x: T, xs: seq<T>, key: T -> int): (r: seq<T>) {
    if xs == [] || key(x) <= key(xs[0]) then [x] + xs else [xs[0]] + Insert(x, xs[1..], key)
  }

  function SortBy<T>(xs: seq<T>, key: T -> int): seq<T> {
    if xs == [] then [] else Insert(xs[0], SortBy(xs[1..], key), key)
  }

  ghost predicate Sorted<T>(xs: seq<T>, key: T -> int) {
    forall i, j :: 0 <= i < j < |xs| ==> key(xs[i]) <= key(xs[j])
  }

  ghost predicate StrictlySorted<T>(xs: seq<T>, key: T -> int) {
    forall i, j :: 0 <= i < j < |xs| ==> key(xs[i]) < key(xs[j])
  }

  /** No two elements share a key. */
  ghost predicate DistinctKeys<T>(xs: seq<T>, key: T -> int) {
    forall i, j :: 0 <= i < j < |xs| ==> key(xs[i]) != key(xs[j])
  }

  lemma {:induction false} InsertElements<T>(x: T, xs: seq<T>, key: T -> int)
    ensures multiset(Insert(x, xs, key)) == multiset(xs) + multiset{x}
  {
    if xs == [] || key(x) <= key(xs[0]) {
    } else {
      InsertElements(x, xs[1..], key);
      assert xs == [xs[0]] + xs[1..];
    }
  }

  lemma {:induction false} InsertKeeps<T>(x: T, xs: seq<T>, key: T -> int)
    requires Sorted(xs, key)
    ensures Sorted(Insert(x, xs, key), key)
    ensures xs != [] ==> key(Insert(x, xs, key)[0]) == if key(x) <= key(xs[0]) then key(x) else key(xs[0])
    ensures xs == [] ==> Insert(x, xs, key) == [x]
  {
    if xs == [] || key(x) <= key(xs[0]) {
    } else {
      InsertKeeps(x, xs[1..], key);
      PrependSorted(xs[0], Insert(x, xs[1..], key), key);
    }
  }

  lemma {:induction false} PrependSorted<T>(x: T, xs: seq<T>, key: T -> int)
    requires Sorted(xs, key) && (xs != [] ==> key(x) <= key(xs[0]))
    ensures Sorted([x] + xs, key)
  {
    var r := [x] + xs;
    forall i, j | 0 <= i < j < |r| ensures key(r[i]) <= key(r[j]) {
      if i == 0 {
        assert r[j] == xs[j - 1];
      } else {
        assert r[i] == xs[i - 1] && r[j] == xs[j - 1];
      }
    }
  }

  /** The result is sorted and a permutation of the input. */
  lemma {:induction false} SortSorts<T>(xs: seq<T>, key: T -> int)
    ensures Sorted(SortBy(xs, key), key)
    ensures multiset(SortBy(xs, key)) == multiset(xs)
  {
    if xs != [] {
      var rest := SortBy(xs[1..], key);
      assert SortBy(xs, key) == Insert(xs[0], rest, key);
      hide Sorted, Insert, SortBy;
      SortSorts(xs[1..], key);
      InsertKeeps(xs[0], rest, key);
      InsertElements(xs[0], rest, key);
      HeadAndTail(xs);
    }
  }

  lemma {:induction false} HeadAndTail<T>(a: seq<T>)
    requires a != []
    ensures multiset(a) == multiset(a[1..]) + multiset{a[0]}
  {
    assert a == [a[0]] + a[1..];
  }

  /** A permutation has the same length and elements. */
  lemma {:induction false} Permuted<T>(a: seq<T>, b: seq<T>)
    requires multiset(a) == multiset(b)
    ensures |a| == |b| && forall x :: x in a <==> x in b
  {
    assert |multiset(a)| == |a| && |multiset(b)| == |b|;
    forall x ensures x in a <==> x in b {
      assert x in a <==> x in multiset(a);
      assert x in b <==> x in multiset(b);
    }
  }

  /** With distinct keys there is only one sorted permutation. */
  lemma {:induction false} SortedUnique<T>(a: seq<T>, b: seq<T>, key: T -> int)
    requires StrictlySorted(a, key) && StrictlySorted(b, key) && multiset(a) == multiset(b)
    ensures a == b
  {
    Permuted(a, b);
    if a != [] {
      SameHead(a, b, key);
      SortedTail(a, key);
      SortedTail(b, key);
      hide StrictlySorted;
      SameTails(a, b);
      SortedUnique(a[1..], b[1..], key);
      SameParts(a, b);
    }
  }

  lemma {:induction false} SameTails<T>(a: seq<T>, b: seq<T>)
    requires a != [] && b != [] && a[0] == b[0] && multiset(a) == multiset(b)
    ensures multiset(a[1..]) == multiset(b[1..])
  {
    HeadAndTail(a);
    HeadAndTail(b);
    assert multiset(a[1..]) == multiset(a) - multiset{a[0]};
  }

  lemma {:induction false} SameParts<T>(a: seq<T>, b: seq<T>)
    requires a != [] && b != [] && a[0] == b[0] && a[1..] == b[1..]
    ensures a == b
  {
    assert a == [a[0]] + a[1..] && b == [b[0]] + b[1..];
  }

  lemma {:induction false} SortedTail<T>(a: seq<T>, key: T -> int)
    requires StrictlySorted(a, key) && a != []
    ensures StrictlySorted(a[1..], key)
  {
  }

  lemma {:induction false} SameHead<T>(a: seq<T>, b: seq<T>, key: T -> int)
    requires StrictlySorted(a, key) && StrictlySorted(b, key) && a != [] && b != []
    requires forall x :: x in a <==> x in b
    ensures a[0] == b[0]
  {
    HeadIsLeast(a, b[0], key);
    HeadIsLeast(b, a[0], key);
    assert a[0] in b && b[0] in a;
  }

  lemma {:induction false} HeadIsLeast<T>(a: seq<T>, x: T, key: T -> int)
    requires StrictlySorted(a, key) && a != []
    ensures x in a ==> x == a[0] || key(a[0]) < key(x)
  {
  }

  /** Sorting a list with distinct keys gives a strictly sorted one. */
  lemma {:induction false} SortStrict<T>(xs: seq<T>, key: T -> int)
    requires DistinctKeys(xs, key)
    ensures StrictlySorted(SortBy(xs, key), key)
  {
    SortSorts(xs, key);
    var r := SortBy(xs, key);
    DistinctPermuted(xs, r, key);
  }

  /** Distinctness of keys survives permutation. */
  lemma {:induction false} DistinctPermuted<T>(xs: seq<T>, r: seq<T>, key: T -> int)
    requires multiset(xs) == multiset(r) && DistinctKeys(xs, key)
    ensures DistinctKeys(r, key)
  {
    Permuted(xs, r);
    forall i, j | 0 <= i < j < |r| ensures key(r[i]) != key(r[j]) {
      if key(r[i]) == key(r[j]) {
        SameKeySameElement(xs, r[i], r[j], key);
        TwiceInMultiset(r, i, j);
        TwiceInSeq(xs, r[i], key);
        assert false;
      }
    }
  }

  lemma {:induction false} SameKeySameElement<T>(xs: seq<T>, x: T, y: T, key: T -> int)
    requires DistinctKeys(xs, key) && x in xs && y in xs && key(x) == key(y)
    ensures x == y
  {
    var i :| 0 <= i < |xs| && xs[i] == x;
    var j :| 0 <= j < |xs| && xs[j] == y;
  }

  lemma {:induction false} TwiceInMultiset<T>(r: seq<T>, i: nat, j: nat)
    requires i < j < |r| && r[i] == r[j]
    ensures multiset(r)[r[i]] >= 2
  {
    assert r == r[..i] + [r[i]] + r[i + 1..j] + [r[j]] + r[j + 1..];
  }

  lemma {:induction false} TwiceInSeq<T>(xs: seq<T>, x: T, key: T -> int)
    requires DistinctKeys(xs, key)
    ensures multiset(xs)[x] <= 1
  {
    if xs != [] {
      TwiceInSeq(xs[1..], x, key);
      assert xs == [xs[0]] + xs[1..];
      forall j | 0 <= j < |xs[1..]| ensures xs[1..][j] != xs[0] {
        assert key(xs[0]) != key(xs[j + 1]);
      }
    }
  }
}
