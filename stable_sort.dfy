/** `Array.prototype.sort` with a comparator, as a stable sort: ECMA-262
    (section 23.1.3.30) requires the sort to be stable, and an element `x`
    is placed before `y` only when the coerced comparator result for
    `(x, y)` is negative. Insertion sort is the stable sort used here. */
module StableSort {

  /** Inserts `x` before the first element of `s` that `x` compares strictly
      below; elements that compare equal to `x` stay in front of it. */
  function Insert<T>(cmp: (T, T) -> int, x: T, s: seq<T>): (r: seq<T>)
    ensures |r| == |s| + 1
    ensures multiset(r) == multiset(s) + multiset{x}
  {
    if s == [] then [x]
    else if cmp(x, s[0]) < 0 then [x] + s
    else
      assert s == [s[0]] + s[1..];
      [s[0]] + Insert(cmp, x, s[1..])
  }

  /** Sorts `s` by inserting its elements, in order, into the sorted prefix. */
  function Sort<T>(cmp: (T, T) -> int, s: seq<T>): (r: seq<T>)
    ensures |r| == |s|
    ensures multiset(r) == multiset(s)
    decreases |s|
  {
    if s == [] then []
    else
      assert s == s[..|s| - 1] + [s[|s| - 1]];
      Insert(cmp, s[|s| - 1], Sort(cmp, s[..|s| - 1]))
  }

  /** A comparator that reports every pair as equal. */
  ghost predicate Indifferent<T(!new)>(cmp: (T, T) -> int) {
    forall a: T, b: T :: cmp(a, b) == 0
  }

  lemma {:induction false} InsertIndifferent<T(!new)>(cmp: (T, T) -> int, x: T, s: seq<T>)
    requires Indifferent(cmp)
    ensures Insert(cmp, x, s) == s + [x]
  {
    if s != [] {
      assert cmp(x, s[0]) == 0;
      InsertIndifferent(cmp, x, s[1..]);
      assert s == [s[0]] + s[1..];
    }
  }

  /** A stable sort under a comparator that finds every pair equal returns
      its input unchanged. */
  lemma {:induction false} SortIndifferentIsIdentity<T(!new)>(cmp: (T, T) -> int, s: seq<T>)
    requires Indifferent(cmp)
    ensures Sort(cmp, s) == s
    decreases |s|
  {
    if s != [] {
      SortIndifferentIsIdentity(cmp, s[..|s| - 1]);
      InsertIndifferent(cmp, s[|s| - 1], s[..|s| - 1]);
      assert s == s[..|s| - 1] + [s[|s| - 1]];
    }
  }

  /** `cmp` orders by `key`, largest first: `cmp(a, b)` is `key(b) - key(a)`. */
  ghost predicate KeyedDescending<T(!new)>(cmp: (T, T) -> int, key: T -> int) {
    forall a: T, b: T :: cmp(a, b) == key(b) - key(a)
  }

  ghost predicate Descending<T>(key: T -> int, s: seq<T>) {
    forall i, j :: 0 <= i < j < |s| ==> key(s[i]) >= key(s[j])
  }

  /** The elements of `s` whose key is `k`, in their order in `s`. */
  function WithKey<T>(key: T -> int, k: int, s: seq<T>): (r: seq<T>)
    ensures forall i :: 0 <= i < |r| ==> key(r[i]) == k
    ensures |r| <= |s|
  {
    if s == [] then []
    else (if key(s[0]) == k then [s[0]] else []) + WithKey(key, k, s[1..])
  }

  lemma {:induction false} WithKeyAppend<T>(key: T -> int, k: int, a: seq<T>, b: seq<T>)
    ensures WithKey(key, k, a + b) == WithKey(key, k, a) + WithKey(key, k, b)
  {
    if a == [] {
      assert a + b == b;
    } else {
      assert (a + b)[0] == a[0];
      assert (a + b)[1..] == a[1..] + b;
      WithKeyAppend(key, k, a[1..], b);
    }
  }

  lemma {:induction false} WithKeyNone<T>(key: T -> int, k: int, s: seq<T>)
    requires forall i :: 0 <= i < |s| ==> key(s[i]) < k
    ensures WithKey(key, k, s) == []
  {
    if s != [] {
      WithKeyNone(key, k, s[1..]);
    }
  }

  /** Every element `Insert` returns is `x` or an element of `s`. */
  lemma ElementsOfInsert<T>(cmp: (T, T) -> int, x: T, s: seq<T>, j: int)
    requires 0 <= j < |s| + 1
    ensures Insert(cmp, x, s)[j] == x || Insert(cmp, x, s)[j] in s
  {
    var r := Insert(cmp, x, s);
    assert r[j] in multiset(r);
  }

  lemma {:induction false} InsertDescending<T(!new)>(cmp: (T, T) -> int, key: T -> int, x: T, s: seq<T>)
    requires KeyedDescending(cmp, key)
    requires Descending(key, s)
    ensures Descending(key, Insert(cmp, x, s))
  {
    if s != [] {
      assert cmp(x, s[0]) == key(s[0]) - key(x);
      if cmp(x, s[0]) >= 0 {
        var t := Insert(cmp, x, s[1..]);
        InsertDescending(cmp, key, x, s[1..]);
        forall j | 0 <= j < |t|
          ensures key(s[0]) >= key(t[j])
        {
          ElementsOfInsert(cmp, x, s[1..], j);
        }
      }
    }
  }

  /** When `x` goes in front, every element of `s` has a smaller key. */
  lemma InsertStableInFront<T>(key: T -> int, k: int, x: T, s: seq<T>)
    requires Descending(key, s)
    requires s != [] && key(s[0]) < key(x)
    ensures WithKey(key, k, [x] + s) == WithKey(key, k, s) + WithKey(key, k, [x])
  {
    WithKeyAppend(key, k, [x], s);
    if key(x) == k {
      WithKeyNone(key, k, s);
    }
  }

  /** Insertion keeps the relative order of equal keys and puts `x` after
      every element of `s` with the same key. */
  lemma {:induction false} InsertStable<T(!new)>(cmp: (T, T) -> int, key: T -> int, k: int, x: T, s: seq<T>)
    requires KeyedDescending(cmp, key)
    requires Descending(key, s)
    ensures WithKey(key, k, Insert(cmp, x, s)) == WithKey(key, k, s) + WithKey(key, k, [x])
  {
    if s != [] {
      assert cmp(x, s[0]) == key(s[0]) - key(x);
      if cmp(x, s[0]) < 0 {
        InsertStableInFront(key, k, x, s);
      } else {
        var t := Insert(cmp, x, s[1..]);
        assert Insert(cmp, x, s) == [s[0]] + t;
        InsertStable(cmp, key, k, x, s[1..]);
        WithKeyAppend(key, k, [s[0]], t);
        WithKeyAppend(key, k, [s[0]], s[1..]);
        assert s == [s[0]] + s[1..];
      }
    }
  }

  /** Sorted by a key comparator, the output runs from the largest key down. */
  lemma {:induction false} SortDescending<T(!new)>(cmp: (T, T) -> int, key: T -> int, s: seq<T>)
    requires KeyedDescending(cmp, key)
    ensures Descending(key, Sort(cmp, s))
    decreases |s|
  {
    if s != [] {
      SortDescending(cmp, key, s[..|s| - 1]);
      InsertDescending(cmp, key, s[|s| - 1], Sort(cmp, s[..|s| - 1]));
    }
  }

  /** Stability: for each key, the elements carrying it leave the sort in
      the order they entered it. */
  lemma {:induction false} SortStable<T(!new)>(cmp: (T, T) -> int, key: T -> int, k: int, s: seq<T>)
    requires KeyedDescending(cmp, key)
    ensures WithKey(key, k, Sort(cmp, s)) == WithKey(key, k, s)
    decreases |s|
  {
    if s != [] {
      var init, last := s[..|s| - 1], s[|s| - 1];
      SortStable(cmp, key, k, init);
      SortDescending(cmp, key, init);
      InsertStable(cmp, key, k, last, Sort(cmp, init));
      assert s == init + [last];
      WithKeyAppend(key, k, init, [last]);
    }
  }
}
