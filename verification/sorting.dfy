/** A stable sort by an integer key, the way Python's `sorted(xs, key=k)`
    orders a list, and what stability buys: a sorted sequence is fixed by
    what it holds for each key. */
module Sorting {

  predicate SortedBy<T>(s: seq<T>, key: T -> int) {
    forall i, j :: 0 <= i < j < |s| ==> key(s[i]) <= key(s[j])
  }

  /** The elements with key `k`, in the order `s` holds them. */
  function WithKey<T>(s: seq<T>, key: T -> int, k: int): (r: seq<T>)
    ensures forall x <- r :: x in s && key(x) == k
    decreases |s|
  {
    if |s| == 0 then []
    else (if key(s[0]) == k then [s[0]] else []) + WithKey(s[1..], key, k)
  }

  /** Places `x` before the first element whose key is not smaller, so `x`
      stays ahead of later elements with the same key. */
  function Insert<T>(x: T, s: seq<T>, key: T -> int): (r: seq<T>)
    ensures multiset(r) == multiset(s) + multiset{x}
    ensures forall y <- r :: y == x || y in s
    decreases |s|
  {
    if |s| == 0 || key(x) <= key(s[0]) then [x] + s
    else
      assert s == [s[0]] + s[1..];
      [s[0]] + Insert(x, s[1..], key)
  }

  /** A sorted sequence stays sorted under a smaller-or-equal head. */
  lemma SortedCons<T>(h: T, t: seq<T>, key: T -> int)
    requires SortedBy(t, key)
    requires forall y <- t :: key(h) <= key(y)
    ensures SortedBy([h] + t, key)
  {
    var r := [h] + t;
    forall i, j | 0 <= i < j < |r| ensures key(r[i]) <= key(r[j]) {
      assert r[j] == t[j - 1] && t[j - 1] in t;
      if i > 0 {
        assert r[i] == t[i - 1];
      }
    }
  }

  lemma {:induction false} InsertKeepsSorted<T>(x: T, s: seq<T>, key: T -> int)
    requires SortedBy(s, key)
    ensures SortedBy(Insert(x, s, key), key)
    decreases |s|
  {
    if |s| == 0 || key(x) <= key(s[0]) {
      forall y | y in s ensures key(x) <= key(y) {
        var j :| 0 <= j < |s| && s[j] == y;
        assert key(s[0]) <= key(s[j]) || j == 0;
      }
      SortedCons(x, s, key);
    } else {
      SortedTail(s, key);
      InsertKeepsSorted(x, s[1..], key);
      var rest := Insert(x, s[1..], key);
      forall y | y in rest ensures key(s[0]) <= key(y) {
        if y != x {
          var j :| 0 <= j < |s[1..]| && s[1..][j] == y;
          assert s[1..][j] == s[j + 1];
        }
      }
      SortedCons(s[0], rest, key);
    }
  }

  /** Insertion sort: a permutation of `s`, ordered by key. */
  function SortBy<T>(s: seq<T>, key: T -> int): (r: seq<T>)
    ensures multiset(r) == multiset(s)
    ensures SortedBy(r, key)
    decreases |s|
  {
    if |s| == 0 then []
    else
      assert s == [s[0]] + s[1..];
      var rest := SortBy(s[1..], key);
      InsertKeepsSorted(s[0], rest, key);
      Insert(s[0], rest, key)
  }

  lemma {:induction false} InsertWithKey<T>(x: T, s: seq<T>, key: T -> int, k: int)
    ensures WithKey(Insert(x, s, key), key, k) == (if key(x) == k then [x] else []) + WithKey(s, key, k)
    decreases |s|
  {
    if |s| == 0 || key(x) <= key(s[0]) {
      assert ([x] + s)[1..] == s;
    } else {
      var rest := Insert(x, s[1..], key);
      assert ([s[0]] + rest)[1..] == rest;
      InsertWithKey(x, s[1..], key, k);
    }
  }

  /** The sort is stable: elements sharing a key keep their order. */
  lemma {:induction false} SortIsStable<T>(s: seq<T>, key: T -> int, k: int)
    ensures WithKey(SortBy(s, key), key, k) == WithKey(s, key, k)
    decreases |s|
  {
    if |s| > 0 {
      SortIsStable(s[1..], key, k);
      InsertWithKey(s[0], SortBy(s[1..], key), key, k);
    }
  }

  lemma WithKeyOfHead<T>(s: seq<T>, key: T -> int)
    requires |s| > 0
    ensures WithKey(s, key, key(s[0])) != [] && WithKey(s, key, key(s[0]))[0] == s[0]
  {
  }

  lemma NoGroupsNoElements<T>(s: seq<T>, key: T -> int)
    requires forall k :: WithKey(s, key, k) == []
    ensures s == []
  {
    if |s| > 0 {
      WithKeyOfHead(s, key);
      assert false;
    }
  }

  /** Two sequences sorted by key that agree key by key are equal. */
  lemma {:induction false} SortedDeterminedByGroups<T>(x: seq<T>, y: seq<T>, key: T -> int)
    requires SortedBy(x, key) && SortedBy(y, key)
    requires forall k :: WithKey(x, key, k) == WithKey(y, key, k)
    ensures x == y
    decreases |x| + |y|
  {
    if |x| == 0 {
      NoGroupsNoElements(y, key);
    } else if |y| == 0 {
      NoGroupsNoElements(x, key);
    } else {
      SortedHeadsAgree(x, y, key);
      TailGroupsAgree(x, y, key);
      SortedTail(x, key);
      SortedTail(y, key);
      SortedDeterminedByGroups(x[1..], y[1..], key);
      SameHeadSameTail(x, y);
    }
  }

  lemma SortedTail<T>(s: seq<T>, key: T -> int)
    requires |s| > 0 && SortedBy(s, key)
    ensures SortedBy(s[1..], key)
  {
    var t := s[1..];
    forall i, j | 0 <= i < j < |t| ensures key(t[i]) <= key(t[j]) {
      assert t[i] == s[i + 1] && t[j] == s[j + 1];
    }
  }

  lemma SameHeadSameTail<T>(x: seq<T>, y: seq<T>)
    requires |x| > 0 && |y| > 0 && x[0] == y[0] && x[1..] == y[1..]
    ensures x == y
  {
    assert x == [x[0]] + x[1..] && y == [y[0]] + y[1..];
  }

  /** The head of a sorted sequence has the least key, so it heads its own
      group; two sorted sequences with the same groups share their head. */
  lemma SortedHeadsAgree<T>(x: seq<T>, y: seq<T>, key: T -> int)
    requires |x| > 0 && |y| > 0
    requires SortedBy(x, key) && SortedBy(y, key)
    requires forall k :: WithKey(x, key, k) == WithKey(y, key, k)
    ensures x[0] == y[0]
  {
    var kx, ky := key(x[0]), key(y[0]);
    WithKeyOfHead(x, key);
    WithKeyOfHead(y, key);
    var g := WithKey(y, key, kx)[0];
    assert g in y && key(g) == kx;
    assert ky <= kx;
    var h := WithKey(x, key, ky)[0];
    assert h in x && key(h) == ky;
    assert kx <= ky;
  }

  lemma TailGroupsAgree<T>(x: seq<T>, y: seq<T>, key: T -> int)
    requires |x| > 0 && |y| > 0 && x[0] == y[0]
    requires forall k :: WithKey(x, key, k) == WithKey(y, key, k)
    ensures forall k :: WithKey(x[1..], key, k) == WithKey(y[1..], key, k)
  {
    forall k
      ensures WithKey(x[1..], key, k) == WithKey(y[1..], key, k)
    {
      var p := if key(x[0]) == k then [x[0]] else [];
      assert WithKey(x, key, k) == p + WithKey(x[1..], key, k);
      assert WithKey(y, key, k) == p + WithKey(y[1..], key, k);
      assert WithKey(x[1..], key, k) == WithKey(x, key, k)[|p|..];
      assert WithKey(y[1..], key, k) == WithKey(y, key, k)[|p|..];
    }
  }

  /** No two elements share a key. */
  predicate UniqueKeys<T>(s: seq<T>, key: T -> int) {
    forall i, j :: 0 <= i < |s| && 0 <= j < |s| && key(s[i]) == key(s[j]) ==> i == j
  }

  lemma {:induction false} WithKeyAbsent<T>(s: seq<T>, key: T -> int, k: int)
    requires forall i :: 0 <= i < |s| ==> key(s[i]) != k
    ensures WithKey(s, key, k) == []
    decreases |s|
  {
    if |s| > 0 {
      WithKeyAbsent(s[1..], key, k);
    }
  }

  lemma {:induction false} WithKeySingle<T>(s: seq<T>, key: T -> int, i: nat)
    requires UniqueKeys(s, key) && i < |s|
    ensures WithKey(s, key, key(s[i])) == [s[i]]
    decreases |s|
  {
    var k := key(s[i]);
    if i == 0 {
      assert forall j :: 0 <= j < |s| - 1 ==> s[1..][j] == s[j + 1];
      WithKeyAbsent(s[1..], key, k);
    } else {
      assert key(s[0]) != k;
      assert s[1..][i - 1] == s[i];
      WithKeySingle(s[1..], key, i - 1);
    }
  }

  /** With unique keys, what a sequence holds for each key depends only on
      which elements it holds, not on their order. */
  lemma GroupsOfUniqueKeys<T>(a: seq<T>, b: seq<T>, key: T -> int, k: int)
    requires UniqueKeys(a, key) && UniqueKeys(b, key)
    requires forall x :: x in a <==> x in b
    ensures WithKey(a, key, k) == WithKey(b, key, k)
  {
    if i :| 0 <= i < |a| && key(a[i]) == k {
      assert a[i] in b;
      var j :| 0 <= j < |b| && b[j] == a[i];
      WithKeySingle(a, key, i);
      WithKeySingle(b, key, j);
    } else {
      forall j | 0 <= j < |b| ensures key(b[j]) != k {
        assert b[j] in a;
      }
      WithKeyAbsent(a, key, k);
      WithKeyAbsent(b, key, k);
    }
  }

  /** Sorting by unique keys forgets the input order entirely. */
  lemma SortForgetsOrder<T>(a: seq<T>, b: seq<T>, key: T -> int)
    requires UniqueKeys(a, key) && UniqueKeys(b, key)
    requires forall x :: x in a <==> x in b
    ensures SortBy(a, key) == SortBy(b, key)
  {
    forall k ensures WithKey(SortBy(a, key), key, k) == WithKey(SortBy(b, key), key, k) {
      SortIsStable(a, key, k);
      SortIsStable(b, key, k);
      GroupsOfUniqueKeys(a, b, key, k);
    }
    SortedDeterminedByGroups(SortBy(a, key), SortBy(b, key), key);
  }

  /** Two elements out of order are swapped. */
  lemma SortPair<T>(a: T, b: T, key: T -> int)
    requires key(b) < key(a)
    ensures SortBy([a, b], key) == [b, a]
  {
    assert [a, b][1..] == [b] && [b][1..] == [];
    assert SortBy([b], key) == [b];
    assert Insert(a, [b], key) == [b] + Insert(a, [], key);
  }

  /** Sorting an already sorted sequence changes nothing. */
  lemma {:induction false} SortOfSorted<T>(s: seq<T>, key: T -> int)
    requires SortedBy(s, key)
    ensures SortBy(s, key) == s
    decreases |s|
  {
    if |s| > 0 {
      SortOfSorted(s[1..], key);
      var t := s[1..];
      assert |t| == 0 || key(s[0]) <= key(t[0]);
      assert [s[0]] + t == s;
    }
  }
}
