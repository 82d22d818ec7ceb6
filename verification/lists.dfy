/** List operations shared by the handlers and the pages: `Array.prototype.filter`,
    index removal, the stable `Array.prototype.sort` with a numeric comparator
    (section 23.1.3.30 of ECMA-262 requires it to be stable), and the database's
    "find, then sort by -createdAt" over a collection. */
module Lists {

  // ---------------------------------------------------------------------------
  // Order-preserving sub-lists

  /** `a` is obtained from `b` by deleting elements, keeping the order. */
  predicate IsSubsequence<T(==)>(a: seq<T>, b: seq<T>)
    decreases |b|
  {
    if a == [] then true
    else if b == [] then false
    else if a[0] == b[0] then IsSubsequence(a[1..], b[1..])
    else IsSubsequence(a, b[1..])
  }

  /** Dropping the head of a sub-list keeps it a sub-list. */
  lemma {:induction false} SubsequenceTail<T>(a: seq<T>, b: seq<T>)
    requires a != [] && IsSubsequence(a, b)
    ensures IsSubsequence(a[1..], b)
    decreases |b|, 0
  {
    if b != [] && a[0] != b[0] {
      SubsequenceTail(a, b[1..]);
      SubsequenceCons(a[1..], b[1..], b[0]);
      assert [b[0]] + b[1..] == b;
    } else if b != [] {
      SubsequenceCons(a[1..], b[1..], b[0]);
      assert [b[0]] + b[1..] == b;
    }
  }

  /** A sub-list of `t` is a sub-list of `[x] + t`. */
  lemma {:induction false} SubsequenceCons<T>(a: seq<T>, t: seq<T>, x: T)
    requires IsSubsequence(a, t)
    ensures IsSubsequence(a, [x] + t)
    decreases |t|, 1
  {
    assert ([x] + t)[1..] == t;
    if a != [] && a[0] == x {
      SubsequenceTail(a, t);
    }
  }

  /** Every element of a sub-list is an element of the list. */
  lemma {:induction false} SubsequenceMembers<T>(a: seq<T>, b: seq<T>)
    requires IsSubsequence(a, b)
    ensures forall x :: x in a ==> x in b
    decreases |b|
  {
    if a != [] {
      if a[0] == b[0] {
        SubsequenceMembers(a[1..], b[1..]);
        assert forall x :: x in a ==> x == a[0] || x in a[1..];
      } else {
        SubsequenceMembers(a, b[1..]);
      }
    }
  }

  /** Every sequence is a sub-list of itself. */
  lemma {:induction false} SubsequenceRefl<T>(a: seq<T>)
    ensures IsSubsequence(a, a)
  {
    if a != [] {
      SubsequenceRefl(a[1..]);
    }
  }

  // ---------------------------------------------------------------------------
  // Filtering

  /** `s.filter(p)`. */
  function Filter<T(!new)>(s: seq<T>, p: T -> bool): (r: seq<T>)
    ensures |r| <= |s|
    ensures forall i :: 0 <= i < |r| ==> p(r[i]) && r[i] in s
    ensures forall i :: 0 <= i < |s| && p(s[i]) ==> s[i] in r
    ensures forall x :: multiset(r)[x] == if p(x) then multiset(s)[x] else 0
  {
    if s == [] then []
    else
      assert s == [s[0]] + s[1..];
      if p(s[0]) then [s[0]] + Filter(s[1..], p)
      else Filter(s[1..], p)
  }

  /** The filtered list is an order-preserving sub-list of the input. */
  lemma {:induction false} FilterIsSubsequence<T(!new)>(s: seq<T>, p: T -> bool)
    ensures IsSubsequence(Filter(s, p), s)
  {
    if s != [] {
      FilterIsSubsequence(s[1..], p);
      if p(s[0]) {
        assert Filter(s, p)[1..] == Filter(s[1..], p);
      } else {
        SubsequenceCons(Filter(s[1..], p), s[1..], s[0]);
        assert [s[0]] + s[1..] == s;
      }
    }
  }

  /** A filter whose predicate holds everywhere keeps the whole list. */
  lemma {:induction false} FilterAll<T(!new)>(s: seq<T>, p: T -> bool)
    requires forall i :: 0 <= i < |s| ==> p(s[i])
    ensures Filter(s, p) == s
  {
    if s != [] {
      FilterAll(s[1..], p);
      assert [s[0]] + s[1..] == s;
    }
  }

  /** Filters that agree on every element give the same list. */
  lemma {:induction false} FilterCongruent<T(!new)>(s: seq<T>, p: T -> bool, q: T -> bool)
    requires forall i :: 0 <= i < |s| ==> p(s[i]) == q(s[i])
    ensures Filter(s, p) == Filter(s, q)
  {
    if s != [] {
      FilterCongruent(s[1..], p, q);
    }
  }

  // ---------------------------------------------------------------------------
  // Removing one index

  /** `s.filter((_, i) => i !== index)`: drops position `index` when it exists. */
  function RemoveAt<T>(s: seq<T>, index: int): (r: seq<T>)
    ensures 0 <= index < |s| ==> |r| == |s| - 1
    ensures 0 <= index < |s| ==> forall i :: 0 <= i < index ==> r[i] == s[i]
    ensures 0 <= index < |s| ==> forall i :: index <= i < |r| ==> r[i] == s[i + 1]
    ensures !(0 <= index < |s|) ==> r == s
  {
    if 0 <= index < |s| then s[..index] + s[index + 1..] else s
  }

  // ---------------------------------------------------------------------------
  // Duplicates

  predicate NoDuplicates<T(==)>(s: seq<T>) {
    forall i, j :: 0 <= i < j < |s| ==> s[i] != s[j]
  }

  /** A duplicate-free list holds each of its elements exactly once. */
  lemma {:induction false} NoDuplicatesCount<T>(s: seq<T>)
    ensures NoDuplicates(s) <==> forall x :: multiset(s)[x] <= 1
  {
    if s != [] {
      NoDuplicatesCount(s[1..]);
      assert s == [s[0]] + s[1..];
      assert multiset(s) == multiset{s[0]} + multiset(s[1..]);
      if NoDuplicates(s) {
        assert s[0] !in s[1..];
        assert NoDuplicates(s[1..]) by {
          forall i, j | 0 <= i < j < |s[1..]| ensures s[1..][i] != s[1..][j] {
            assert s[i + 1] != s[j + 1];
          }
        }
      }
      if forall x :: multiset(s)[x] <= 1 {
        assert multiset(s)[s[0]] == 1 + multiset(s[1..])[s[0]];
        assert s[0] !in s[1..];
        forall x ensures multiset(s[1..])[x] <= 1 {
          assert multiset(s)[x] >= multiset(s[1..])[x];
        }
        forall i, j | 0 <= i < j < |s| ensures s[i] != s[j] {
          if i == 0 {
            assert s[j] == s[1..][j - 1];
          } else {
            assert s[i] == s[1..][i - 1] && s[j] == s[1..][j - 1];
          }
        }
      }
    }
  }

  // ---------------------------------------------------------------------------
  // Stable sort by a numeric key

  /** Ascending by `key`. */
  predicate SortedBy<T>(s: seq<T>, key: T -> real) {
    forall i, j :: 0 <= i < j < |s| ==> key(s[i]) <= key(s[j])
  }

  /** The negated key: sorting ascending by it sorts descending by `key`. */
  function Negate<T>(key: T -> real): T -> real {
    x => -key(x)
  }

  /** Puts `x`, which comes before every element of `s` in the input, in front of
      the first element whose key is not smaller. */
  function Insert<T>(x: T, s: seq<T>, key: T -> real): (r: seq<T>)
    ensures multiset(r) == multiset(s) + multiset{x}
    ensures |r| == |s| + 1
    ensures r[0] == x || (s != [] && r[0] == s[0])
  {
    if s == [] then [x]
    else if key(x) <= key(s[0]) then [x] + s
    else
      assert s == [s[0]] + s[1..];
      [s[0]] + Insert(x, s[1..], key)
  }

  /** The stable insertion sort that `s.sort((a, b) => key(a) - key(b))` computes. */
  function SortAscending<T>(s: seq<T>, key: T -> real): (r: seq<T>)
    ensures multiset(r) == multiset(s)
    ensures |r| == |s|
  {
    if s == [] then []
    else
      assert s == [s[0]] + s[1..];
      Insert(s[0], SortAscending(s[1..], key), key)
  }

  /** `s.sort((a, b) => key(b) - key(a))`. */
  function SortDescending<T>(s: seq<T>, key: T -> real): seq<T> {
    SortAscending(s, Negate(key))
  }

  lemma {:induction false} InsertSorted<T>(x: T, s: seq<T>, key: T -> real)
    requires SortedBy(s, key)
    ensures SortedBy(Insert(x, s, key), key)
  {
    if s != [] && key(x) > key(s[0]) {
      TailSorted(s, key);
      var t := Insert(x, s[1..], key);
      InsertSorted(x, s[1..], key);
      assert key(s[0]) <= key(t[0]) by {
        if t[0] != x {
          assert t[0] == s[1];
        }
      }
      ConsSorted(s[0], t, key);
    }
  }

  lemma TailSorted<T>(s: seq<T>, key: T -> real)
    requires s != [] && SortedBy(s, key)
    ensures SortedBy(s[1..], key)
  {
    forall i, j | 0 <= i < j < |s| - 1 ensures key(s[1..][i]) <= key(s[1..][j]) {
      assert s[1..][i] == s[i + 1] && s[1..][j] == s[j + 1];
    }
  }

  /** An element no larger than the head of a sorted list can go in front of it. */
  lemma ConsSorted<T>(a: T, t: seq<T>, key: T -> real)
    requires SortedBy(t, key) && (t != [] ==> key(a) <= key(t[0]))
    ensures SortedBy([a] + t, key)
  {
    var r := [a] + t;
    forall i, j | 0 <= i < j < |r| ensures key(r[i]) <= key(r[j]) {
      if i == 0 {
        if j > 1 {
          assert key(t[0]) <= key(t[j - 1]);
        }
      } else {
        assert r[i] == t[i - 1] && r[j] == t[j - 1];
      }
    }
  }

  /** The sorted list is ordered by the key. */
  lemma {:induction false} SortAscendingSorted<T>(s: seq<T>, key: T -> real)
    ensures SortedBy(SortAscending(s, key), key)
  {
    if s != [] {
      SortAscendingSorted(s[1..], key);
      InsertSorted(s[0], SortAscending(s[1..], key), key);
    }
  }

  /** The sorted list is ordered from the largest key to the smallest. */
  lemma SortDescendingSorted<T>(s: seq<T>, key: T -> real)
    ensures forall i, j :: 0 <= i < j < |SortDescending(s, key)| ==>
      key(SortDescending(s, key)[i]) >= key(SortDescending(s, key)[j])
  {
    var r := SortDescending(s, key);
    SortAscendingSorted(s, Negate(key));
    forall i, j | 0 <= i < j < |r| ensures key(r[i]) >= key(r[j]) {
      assert Negate(key)(r[i]) <= Negate(key)(r[j]);
    }
  }

  /** The elements of `s` whose key is `k`, in order. */
  function WithKey<T>(s: seq<T>, key: T -> real, k: real): seq<T> {
    if s == [] then []
    else if key(s[0]) == k then [s[0]] + WithKey(s[1..], key, k)
    else WithKey(s[1..], key, k)
  }

  lemma {:induction false} InsertWithKey<T>(x: T, s: seq<T>, key: T -> real, k: real)
    ensures WithKey(Insert(x, s, key), key, k) ==
      (if key(x) == k then [x] else []) + WithKey(s, key, k)
  {
    var front := if key(x) == k then [x] else [];
    if s == [] {
      assert Insert(x, s, key) == [x];
      assert WithKey([x], key, k) == front + WithKey([x][1..], key, k);
    } else if key(x) <= key(s[0]) {
      assert Insert(x, s, key) == [x] + s;
      assert ([x] + s)[1..] == s;
    } else {
      var t := Insert(x, s[1..], key);
      InsertWithKey(x, s[1..], key, k);
      assert Insert(x, s, key) == [s[0]] + t;
      assert ([s[0]] + t)[1..] == t;
      var head := if key(s[0]) == k then [s[0]] else [];
      assert WithKey([s[0]] + t, key, k) == head + WithKey(t, key, k);
      assert WithKey(s, key, k) == head + WithKey(s[1..], key, k);
      assert key(x) == k ==> head == [];
    }
  }

  /** Stability: among elements with equal keys the sorted list keeps the input order. */
  lemma {:induction false} SortAscendingStable<T>(s: seq<T>, key: T -> real, k: real)
    ensures WithKey(SortAscending(s, key), key, k) == WithKey(s, key, k)
  {
    if s != [] {
      SortAscendingStable(s[1..], key, k);
      InsertWithKey(s[0], SortAscending(s[1..], key), key, k);
    }
  }

  /** The elements whose negated key is `-k` are those whose key is `k`. */
  lemma {:induction false} WithKeyNegate<T>(s: seq<T>, key: T -> real, k: real)
    ensures WithKey(s, Negate(key), -k) == WithKey(s, key, k)
  {
    if s != [] {
      WithKeyNegate(s[1..], key, k);
      assert Negate(key)(s[0]) == -k <==> key(s[0]) == k;
    }
  }

  /** The descending sort is stable too. */
  lemma SortDescendingStable<T>(s: seq<T>, key: T -> real, k: real)
    ensures WithKey(SortDescending(s, key), key, k) == WithKey(s, key, k)
  {
    SortAscendingStable(s, Negate(key), -k);
    WithKeyNegate(SortDescending(s, key), key, k);
    WithKeyNegate(s, key, k);
  }

  /** Sorting a list whose keys are all equal changes nothing. */
  lemma {:induction false} SortAscendingConstantKey<T>(s: seq<T>, key: T -> real, k: real)
    requires forall i :: 0 <= i < |s| ==> key(s[i]) == k
    ensures SortAscending(s, key) == s
  {
    if s != [] {
      SortAscendingConstantKey(s[1..], key, k);
      var t := s[1..];
      if t != [] {
        assert key(t[0]) == k;
      }
      assert s == [s[0]] + s[1..];
    }
  }

  // ---------------------------------------------------------------------------
  // A query over a collection: `find(filter).sort('-createdAt')`

  /** The result lists every stored record the filter keeps, once each, newest first. */
  method SelectNewestFirst<K, T(==)>(m: map<K, T>, keep: T -> bool, createdAt: T -> real)
    returns (r: seq<T>)
    ensures forall x :: x in r <==> x in m.Values && keep(x)
    ensures NoDuplicates(r)
    ensures forall i, j :: 0 <= i < j < |r| ==> createdAt(r[i]) >= createdAt(r[j])
  {
    var rest := m.Values;
    var found: seq<T> := [];
    while rest != {}
      invariant rest <= m.Values
      invariant forall x :: x in found <==> x in m.Values - rest && keep(x)
      invariant NoDuplicates(found)
      decreases |rest|
    {
      var x :| x in rest;
      rest := rest - {x};
      if keep(x) {
        found := found + [x];
      }
    }
    r := SortDescending(found, createdAt);
    SortDescendingSorted(found, createdAt);
    assert multiset(r) == multiset(found);
    forall x ensures x in r <==> x in found {
      assert x in r <==> x in multiset(r);
      assert x in found <==> x in multiset(found);
    }
    NoDuplicatesCount(found);
    NoDuplicatesCount(r);
  }
}
