/**
 * Python's stable sort by an integer key (`list.sort(key=...)` and
 * `sorted(..., key=...)`), as an insertion sort, together with the
 * property that characterises it: the result is ordered by the key and
 * keeps, for every key value, the elements carrying that value in their
 * original order.
 */
module StableSort {

  /** Ascending by `key`. */
  predicate SortedBy<T>(s: seq<T>, key: T -> int) {
    forall i, j :: 0 <= i < j < |s| ==> key(s[i]) <= key(s[j])
  }

  /** Every key in `s` is at least `b`. */
  predicate KeysAtLeast<T>(s: seq<T>, key: T -> int, b: int) {
    forall i :: 0 <= i < |s| ==> b <= key(s[i])
  }

  /** The elements of `s` whose key is `k`, in their order in `s`. */
  function WithKey<T>(s: seq<T>, key: T -> int, k: int): seq<T> {
    if s == [] then [] else (if key(s[0]) == k then [s[0]] else []) + WithKey(s[1..], key, k)
  }

  /** Python's stable-sort specification: ordered, and the same elements of every key in the same order. */
  ghost predicate IsStableSortOf<T>(r: seq<T>, s: seq<T>, key: T -> int) {
    SortedBy(r, key) && forall k :: WithKey(r, key, k) == WithKey(s, key, k)
  }

  /** Insert `x` before the first element whose key is not smaller than its own. */
  function Insert<T>(x: T, s: seq<T>, key: T -> int): seq<T> {
    if s == [] then [x]
    else if key(x) <= key(s[0]) then [x] + s
    else [s[0]] + Insert(x, s[1..], key)
  }

  /** Insertion sort; `x` is inserted in front of the equal keys of the later elements, so the sort is stable. */
  function SortBy<T>(s: seq<T>, key: T -> int): seq<T> {
    if s == [] then [] else Insert(s[0], SortBy(s[1..], key), key)
  }

  // ---------------------------------------------------------------------
  // Small facts about a sequence and its first element
  // ---------------------------------------------------------------------

  lemma WithKeyCons<T>(x: T, s: seq<T>, key: T -> int, k: int)
    ensures WithKey([x] + s, key, k) == (if key(x) == k then [x] else []) + WithKey(s, key, k)
  {
    assert ([x] + s)[1..] == s;
  }

  lemma SortedCons<T>(x: T, s: seq<T>, key: T -> int)
    ensures SortedBy([x] + s, key) <==> KeysAtLeast(s, key, key(x)) && SortedBy(s, key)
  {
    if KeysAtLeast(s, key, key(x)) && SortedBy(s, key) {
      SortedConsBuild(x, s, key);
    }
    if SortedBy([x] + s, key) {
      SortedConsSplit(x, s, key);
    }
  }

  lemma SortedConsBuild<T>(x: T, s: seq<T>, key: T -> int)
    requires KeysAtLeast(s, key, key(x)) && SortedBy(s, key)
    ensures SortedBy([x] + s, key)
  {
    var r := [x] + s;
    forall i, j | 0 <= i < j < |r| ensures key(r[i]) <= key(r[j]) {
      assert r[j] == s[j - 1];
      if i > 0 {
        assert r[i] == s[i - 1];
      }
    }
  }

  lemma SortedConsSplit<T>(x: T, s: seq<T>, key: T -> int)
    requires SortedBy([x] + s, key)
    ensures KeysAtLeast(s, key, key(x)) && SortedBy(s, key)
  {
    var r := [x] + s;
    forall i | 0 <= i < |s| ensures key(x) <= key(s[i]) {
      assert r[0] == x && r[i + 1] == s[i];
    }
    forall i, j | 0 <= i < j < |s| ensures key(s[i]) <= key(s[j]) {
      assert r[i + 1] == s[i] && r[j + 1] == s[j];
    }
  }

  lemma KeysAtLeastCons<T>(x: T, s: seq<T>, key: T -> int, b: int)
    ensures KeysAtLeast([x] + s, key, b) <==> b <= key(x) && KeysAtLeast(s, key, b)
  {
    var r := [x] + s;
    assert r[0] == x;
    assert forall i :: 0 <= i < |s| ==> r[i + 1] == s[i];
    if b <= key(x) && KeysAtLeast(s, key, b) {
      forall i | 0 <= i < |r| ensures b <= key(r[i]) {
        if i > 0 {
          assert r[i] == s[i - 1];
        }
      }
    }
  }

  lemma Uncons<T>(s: seq<T>)
    requires s != []
    ensures s == [s[0]] + s[1..]
  {
  }

  // ---------------------------------------------------------------------
  // Insertion
  // ---------------------------------------------------------------------

  /** Inserting an element no smaller than a bound keeps every key above the bound. */
  lemma {:induction false} InsertKeysAtLeast<T>(x: T, s: seq<T>, key: T -> int, b: int)
    requires KeysAtLeast(s, key, b) && b <= key(x)
    ensures KeysAtLeast(Insert(x, s, key), key, b)
    decreases |s|
  {
    if s == [] {
      KeysAtLeastCons(x, [], key, b);
    } else {
      Uncons(s);
      KeysAtLeastCons(s[0], s[1..], key, b);
      if key(x) <= key(s[0]) {
        KeysAtLeastCons(x, s, key, b);
      } else {
        InsertKeysAtLeast(x, s[1..], key, b);
        KeysAtLeastCons(s[0], Insert(x, s[1..], key), key, b);
      }
    }
  }

  /** Inserting into a sorted sequence keeps it sorted. */
  lemma {:induction false} InsertSorted<T>(x: T, s: seq<T>, key: T -> int)
    requires SortedBy(s, key)
    ensures SortedBy(Insert(x, s, key), key)
    decreases |s|
  {
    if s == [] {
      SortedCons(x, [], key);
    } else {
      Uncons(s);
      SortedCons(s[0], s[1..], key);
      if key(x) <= key(s[0]) {
        assert KeysAtLeast(s, key, key(x)) by {
          forall i | 0 <= i < |s| ensures key(x) <= key(s[i]) {
            if i > 0 {
              assert key(s[0]) <= key(s[i]);
            }
          }
        }
        SortedCons(x, s, key);
      } else {
        InsertSorted(x, s[1..], key);
        InsertKeysAtLeast(x, s[1..], key, key(s[0]));
        SortedCons(s[0], Insert(x, s[1..], key), key);
      }
    }
  }

  /** Insertion adds exactly one element. */
  lemma {:induction false} InsertMultiset<T>(x: T, s: seq<T>, key: T -> int)
    ensures multiset(Insert(x, s, key)) == multiset(s) + multiset{x}
    ensures |Insert(x, s, key)| == |s| + 1
    decreases |s|
  {
    if s != [] && key(x) > key(s[0]) {
      InsertMultiset(x, s[1..], key);
      Uncons(s);
      assert multiset(s) == multiset{s[0]} + multiset(s[1..]);
    }
  }

  /** Inserting `x` adds it to the elements of its own key, in front; the other keys are unaffected. */
  lemma {:induction false} InsertWithKey<T>(x: T, s: seq<T>, key: T -> int, k: int)
    ensures WithKey(Insert(x, s, key), key, k) == (if key(x) == k then [x] else []) + WithKey(s, key, k)
    decreases |s|
  {
    if s == [] {
      WithKeyCons(x, [], key, k);
    } else if key(x) <= key(s[0]) {
      WithKeyCons(x, s, key, k);
    } else {
      var t := Insert(x, s[1..], key);
      assert Insert(x, s, key) == [s[0]] + t;
      InsertWithKey(x, s[1..], key, k);
      WithKeyCons(s[0], t, key, k);
      WithKeyCons(s[0], s[1..], key, k);
      Uncons(s);
      if key(x) == k {
        assert WithKey([s[0]] + t, key, k) == WithKey(t, key, k);
        assert WithKey(s, key, k) == WithKey(s[1..], key, k);
      } else {
        assert WithKey(t, key, k) == WithKey(s[1..], key, k);
      }
    }
  }

  // ---------------------------------------------------------------------
  // The sort and its specification
  // ---------------------------------------------------------------------

  /** `SortBy` meets the stable-sort specification and permutes its input. */
  lemma {:induction false} SortByIsStableSort<T>(s: seq<T>, key: T -> int)
    ensures IsStableSortOf(SortBy(s, key), s, key)
    ensures multiset(SortBy(s, key)) == multiset(s)
    ensures |SortBy(s, key)| == |s|
    decreases |s|
  {
    if s != [] {
      var t := SortBy(s[1..], key);
      SortByIsStableSort(s[1..], key);
      InsertSorted(s[0], t, key);
      InsertMultiset(s[0], t, key);
      Uncons(s);
      forall k ensures WithKey(SortBy(s, key), key, k) == WithKey(s, key, k) {
        InsertWithKey(s[0], t, key, k);
        WithKeyCons(s[0], s[1..], key, k);
      }
      assert multiset(s) == multiset{s[0]} + multiset(s[1..]);
    }
  }

  /** In a sorted sequence the first key is the smallest key present. */
  lemma {:induction false} FirstKeyIsLeast<T>(r: seq<T>, key: T -> int, k: int)
    requires SortedBy(r, key) && WithKey(r, key, k) != []
    ensures r != [] && key(r[0]) <= k
    decreases |r|
  {
    if r != [] && key(r[0]) != k {
      Uncons(r);
      SortedCons(r[0], r[1..], key);
      WithKeyCons(r[0], r[1..], key, k);
      FirstKeyIsLeast(r[1..], key, k);
      assert key(r[0]) <= key(r[1..][0]);
    }
  }

  /** The stable-sort specification determines the result: two such sorts of the same elements are equal. */
  lemma {:induction false} StableSortUnique<T>(r1: seq<T>, r2: seq<T>, key: T -> int)
    requires SortedBy(r1, key) && SortedBy(r2, key)
    requires forall k :: WithKey(r1, key, k) == WithKey(r2, key, k)
    ensures r1 == r2
    decreases |r1|
  {
    if r1 == [] || r2 == [] {
      if r1 != [] {
        Uncons(r1);
        WithKeyCons(r1[0], r1[1..], key, key(r1[0]));
      } else if r2 != [] {
        Uncons(r2);
        WithKeyCons(r2[0], r2[1..], key, key(r2[0]));
      }
    } else {
      var x1, t1, x2, t2 := r1[0], r1[1..], r2[0], r2[1..];
      Uncons(r1);
      Uncons(r2);
      var m1, m2 := key(x1), key(x2);
      WithKeyCons(x1, t1, key, m1);
      WithKeyCons(x2, t2, key, m2);
      FirstKeyIsLeast(r2, key, m1);
      FirstKeyIsLeast(r1, key, m2);
      assert m1 == m2;
      WithKeyCons(x2, t2, key, m1);
      var w1, w2 := WithKey(r1, key, m1), WithKey(r2, key, m1);
      assert w1 == [x1] + WithKey(t1, key, m1);
      assert w2 == [x2] + WithKey(t2, key, m1);
      assert x1 == x2 && WithKey(t1, key, m1) == WithKey(t2, key, m1) by {
        assert w1[0] == x1 && w2[0] == x2;
        assert w1[1..] == WithKey(t1, key, m1);
        assert w2[1..] == WithKey(t2, key, m1);
      }
      SortedCons(x1, t1, key);
      SortedCons(x2, t2, key);
      forall k ensures WithKey(t1, key, k) == WithKey(t2, key, k) {
        assert WithKey(r1, key, k) == WithKey(r2, key, k);
        if k != m1 {
          WithKeyCons(x1, t1, key, k);
          WithKeyCons(x2, t2, key, k);
          assert WithKey(r1, key, k) == WithKey(t1, key, k);
          assert WithKey(r2, key, k) == WithKey(t2, key, k);
        } else {
          assert WithKey(t1, key, k) == WithKey(t2, key, k);
        }
      }
      StableSortUnique(t1, t2, key);
    }
  }

  /** A sequence is the stable sort of `s` exactly when it is `SortBy(s)`. */
  lemma StableSortCharacterized<T>(r: seq<T>, s: seq<T>, key: T -> int)
    ensures IsStableSortOf(r, s, key) <==> r == SortBy(s, key)
  {
    SortByIsStableSort(s, key);
    if IsStableSortOf(r, s, key) {
      StableSortUnique(r, SortBy(s, key), key);
    }
  }

  /** Sorting an already sorted sequence leaves it as it is, so re-sorting is idempotent. */
  lemma SortBySorted<T>(s: seq<T>, key: T -> int)
    requires SortedBy(s, key)
    ensures SortBy(s, key) == s
    ensures SortBy(SortBy(s, key), key) == SortBy(s, key)
  {
    StableSortCharacterized(s, s, key);
  }
}
