/**
 * Sorting as the components use it: Python's `sorted(xs, key=...)`, NumPy's
 * `np.sort` and `np.unique`. The sort is an insertion sort that puts each
 * element before the first one whose key is not smaller, so equal keys keep
 * their input order.
 */
module Sorting {
  import opened PyStrings

  predicate SortedBy<T>(s: seq<T>, key: T -> int) {
    forall i, j :: 0 <= i < j < |s| ==> key(s[i]) <= key(s[j])
  }

  /** The key of a plain integer sort. */
  function IntKey(x: int): int {
    x
  }

  /** Ascending integers (`np.sort` order). */
  predicate Ascending(s: seq<int>) {
    forall i, j :: 0 <= i < j < |s| ==> s[i] <= s[j]
  }

  lemma SortedByIntKey(s: seq<int>)
    ensures SortedBy(s, IntKey) <==> Ascending(s)
  {
  }

  predicate StrictlyAscending(s: seq<int>) {
    forall i, j :: 0 <= i < j < |s| ==> s[i] < s[j]
  }

  function Insert<T>(x: T, s: seq<T>, key: T -> int): seq<T> {
    if s == [] || key(x) <= key(s[0]) then [x] + s
    else [s[0]] + Insert(x, s[1..], key)
  }

  lemma {:induction false} InsertPermutes<T>(x: T, s: seq<T>, key: T -> int)
    ensures multiset(Insert(x, s, key)) == multiset(s) + multiset{x}
  {
    if s != [] && key(x) > key(s[0]) {
      InsertPermutes(x, s[1..], key);
      assert s == [s[0]] + s[1..];
    }
  }

  /** Inserting an element no smaller than a bound into elements no smaller than it keeps them all above the bound. */
  lemma {:induction false} InsertAbove<T>(x: T, s: seq<T>, key: T -> int, bound: int)
    requires bound <= key(x) && forall i :: 0 <= i < |s| ==> bound <= key(s[i])
    ensures forall i :: 0 <= i < |Insert(x, s, key)| ==> bound <= key(Insert(x, s, key)[i])
  {
    if s != [] && key(x) > key(s[0]) {
      InsertAbove(x, s[1..], key, bound);
    }
  }

  lemma {:induction false} InsertSorted<T>(x: T, s: seq<T>, key: T -> int)
    requires SortedBy(s, key)
    ensures SortedBy(Insert(x, s, key), key)
  {
    if s != [] && key(x) > key(s[0]) {
      var t := Insert(x, s[1..], key);
      InsertSorted(x, s[1..], key);
      InsertAbove(x, s[1..], key, key(s[0]));
      assert Insert(x, s, key) == [s[0]] + t;
    }
  }

  /** Whether an element's key is `k`. */
  function KeyIs<T>(key: T -> int, k: int): T -> bool {
    (y: T) => key(y) == k
  }

  /**
   * Inserting `x` puts it after nothing of its own key: the elements with
   * key `k` afterwards are `x` (when its key is `k`) followed by those of `s`.
   */
  lemma {:induction false} InsertKeyRun<T>(x: T, s: seq<T>, key: T -> int, k: int)
    ensures Filter(Insert(x, s, key), KeyIs(key, k)) == (if key(x) == k then [x] else []) + Filter(s, KeyIs(key, k))
  {
    var p := KeyIs(key, k);
    var own := if key(x) == k then [x] else [];
    if s != [] && key(x) > key(s[0]) {
      var t := Insert(x, s[1..], key);
      var head := if key(s[0]) == k then [s[0]] else [];
      assert Filter(Insert(x, s, key), p) == head + Filter(t, p) by {
        assert Insert(x, s, key) == [s[0]] + t;
        FilterAppend([s[0]], t, p);
        FilterOne(s[0], p);
      }
      assert Filter(t, p) == own + Filter(s[1..], p) by {
        InsertKeyRun(x, s[1..], key, k);
      }
      assert Filter(s, p) == head + Filter(s[1..], p) by {
        assert s == [s[0]] + s[1..];
        FilterAppend([s[0]], s[1..], p);
        FilterOne(s[0], p);
      }
      assert head == [] || own == [];
    } else {
      FilterAppend([x], s, p);
      FilterOne(x, p);
    }
  }

  /**
   * `sorted(s, key=key)`: sorted by key, a permutation of `s`, and stable:
   * the elements of any one key keep their order in `s`.
   */
  function SortBy<T(==)>(s: seq<T>, key: T -> int): (r: seq<T>)
    ensures SortedBy(r, key)
    ensures multiset(r) == multiset(s)
    ensures forall k :: Filter(r, KeyIs(key, k)) == Filter(s, KeyIs(key, k))
  {
    if s == [] then [] else
      assert s == [s[0]] + s[1..];
      var t := SortBy(s[1..], key);
      InsertSorted(s[0], t, key);
      InsertPermutes(s[0], t, key);
      assert forall k :: Filter(Insert(s[0], t, key), KeyIs(key, k)) == Filter(s, KeyIs(key, k)) by {
        forall k ensures Filter(Insert(s[0], t, key), KeyIs(key, k)) == Filter(s, KeyIs(key, k)) {
          InsertKeyRun(s[0], t, key, k);
          FilterAppend([s[0]], s[1..], KeyIs(key, k));
          FilterOne(s[0], KeyIs(key, k));
        }
      }
      Insert(s[0], t, key)
  }

  /** Drops repeated neighbours of an ascending sequence. */
  function Dedup(s: seq<int>): (r: seq<int>)
    requires Ascending(s)
    ensures StrictlyAscending(r)
    ensures forall x :: x in r <==> x in s
    ensures s != [] ==> r != [] && r[0] == s[0]
  {
    if |s| <= 1 then s
    else
      var t := Dedup(s[1..]);
      if s[0] == s[1] then t else [s[0]] + t
  }

  /** `np.unique(s)`: the distinct values of `s` in ascending order. */
  function Unique(s: seq<int>): (r: seq<int>)
    ensures StrictlyAscending(r)
    ensures forall x :: x in r <==> x in s
  {
    var sorted := SortBy(s, IntKey);
    SortedByIntKey(sorted);
    assert forall x :: x in sorted <==> x in s by {
      forall x ensures x in sorted <==> x in s {
        assert x in sorted <==> x in multiset(sorted);
      }
    }
    Dedup(sorted)
  }
}
