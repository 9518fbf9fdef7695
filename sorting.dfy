/** `Array.prototype.sort` with a comparator, as the scripts call it: a
    stable sort by a two-part key.  Row-bucket sorts use the key
    (floor(y / 50), x); the "largest first" sorts use (-area, 0). */
module Sorting {
  import opened Selector

  datatype Key = Key(major: int, minor: int)

  /** The comparator's order: by `major`, then by `minor`. */
  predicate KeyLe(a: Key, b: Key)
  {
    a.major < b.major || (a.major == b.major && a.minor <= b.minor)
  }

  predicate SortedBy<T>(s: seq<T>, key: T -> Key)
  {
    forall i, j :: 0 <= i < j < |s| ==> KeyLe(key(s[i]), key(s[j]))
  }

  /** Insert `x` into sorted `s` after every element whose key is not above its own. */
  function Insert<T>(s: seq<T>, x: T, key: T -> Key): (r: seq<T>)
    ensures |r| == |s| + 1
    ensures multiset(r) == multiset(s) + multiset{x}
  {
    if s == [] then [x]
    else
      var init := s[..|s| - 1];
      var last := s[|s| - 1];
      assert s == init + [last];
      if KeyLe(key(last), key(x)) then s + [x] else Insert(init, x, key) + [last]
  }

  /** The comparator sort: insertion sort, which keeps equal keys in input order. */
  function SortByKey<T>(s: seq<T>, key: T -> Key): (r: seq<T>)
    ensures |r| == |s|
    ensures multiset(r) == multiset(s)
  {
    if s == [] then []
    else
      var init := s[..|s| - 1];
      assert s == init + [s[|s| - 1]];
      Insert(SortByKey(init, key), s[|s| - 1], key)
  }

  lemma {:induction false} InsertSorted<T>(s: seq<T>, x: T, key: T -> Key)
    requires SortedBy(s, key)
    ensures SortedBy(Insert(s, x, key), key)
  {
    if s != [] {
      var init := s[..|s| - 1];
      var last := s[|s| - 1];
      if !KeyLe(key(last), key(x)) {
        InsertSorted(init, x, key);
        var r0 := Insert(init, x, key);
        var r := r0 + [last];
        assert multiset(r0) == multiset(init) + multiset{x};
        forall i | 0 <= i < |r0|
          ensures KeyLe(key(r0[i]), key(last))
        {
          assert r0[i] in multiset(r0);
          if r0[i] != x {
            assert r0[i] in multiset(init);
            var k :| 0 <= k < |init| && init[k] == r0[i];
            assert s[k] == init[k];
          }
        }
      }
    }
  }

  /** The result is ordered by the key. */
  lemma {:induction false} SortByKeySorted<T>(s: seq<T>, key: T -> Key)
    ensures SortedBy(SortByKey(s, key), key)
  {
    if s != [] {
      SortByKeySorted(s[..|s| - 1], key);
      InsertSorted(SortByKey(s[..|s| - 1], key), s[|s| - 1], key);
    }
  }

  /** `x` has key `k`. */
  function HasKey<T>(key: T -> Key, k: Key): T -> bool
  {
    x => key(x) == k
  }

  /** Inserting `x` puts it after every item of its own key. */
  lemma {:induction false} InsertStable<T>(s: seq<T>, x: T, key: T -> Key, k: Key)
    ensures Filter(Insert(s, x, key), HasKey(key, k)) == Filter(s, HasKey(key, k)) + (if key(x) == k then [x] else [])
  {
    var p := HasKey(key, k);
    if s == [] {
      assert Insert(s, x, key) == [] + [x];
      FilterAppend([], x, p);
    } else {
      var init := s[..|s| - 1];
      var last := s[|s| - 1];
      assert s == init + [last];
      FilterAppend(init, last, p);
      if KeyLe(key(last), key(x)) {
        assert Insert(s, x, key) == s + [x];
        FilterAppend(s, x, p);
      } else {
        var f0 := Filter(init, p);
        assert Insert(s, x, key) == Insert(init, x, key) + [last];
        InsertStable(init, x, key, k);
        FilterAppend(Insert(init, x, key), last, p);
        assert key(last) != key(x);
        if p(x) {
          assert !p(last);
          assert Filter(Insert(s, x, key), p) == f0 + [x];
          assert Filter(s, p) == f0;
        } else {
          assert Filter(Insert(s, x, key), p) == Filter(s, p);
        }
      }
    }
  }

  /** Stability: the items of any one key come out in their input order. */
  lemma {:induction false} SortByKeyStable<T>(s: seq<T>, key: T -> Key, k: Key)
    ensures Filter(SortByKey(s, key), HasKey(key, k)) == Filter(s, HasKey(key, k))
  {
    if s != [] {
      var init := s[..|s| - 1];
      assert s == init + [s[|s| - 1]];
      SortByKeyStable(init, key, k);
      InsertStable(SortByKey(init, key), s[|s| - 1], key, k);
      FilterAppend(init, s[|s| - 1], HasKey(key, k));
    }
  }
}
