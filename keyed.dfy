/** First occurrence per string key: the `if (!seen.has(key)) { seen.add(key);
    list.push(x) }` pattern of the scripts that group items by a derived text
    key (a type-scale key, a colour, an SVG fingerprint), and the multiset
    facts needed to carry distinct keys through a sort. */
module Keyed {

  /** The keys occurring in `s`. */
  function KeySet<E>(s: seq<E>, key: E -> string): set<string>
  {
    set i | 0 <= i < |s| :: key(s[i])
  }

  lemma KeySetAppend<E>(s: seq<E>, x: E, key: E -> string)
    ensures KeySet(s + [x], key) == KeySet(s, key) + {key(x)}
  {
    assert forall k :: 0 <= k < |s| ==> (s + [x])[k] == s[k];
    assert (s + [x])[|s|] == x;
  }

  /** `s` with every item dropped whose key occurred earlier. */
  function FirstPerKey<E>(s: seq<E>, key: E -> string): seq<E>
  {
    if s == [] then []
    else
      var init := s[..|s| - 1];
      var x := s[|s| - 1];
      if key(x) in KeySet(init, key) then FirstPerKey(init, key) else FirstPerKey(init, key) + [x]
  }

  /** One more item seen by a loop that keeps the first of each key. */
  lemma FirstPerKeyStep<E>(s: seq<E>, x: E, key: E -> string)
    ensures FirstPerKey(s + [x], key)
            == (if key(x) in KeySet(s, key) then FirstPerKey(s, key) else FirstPerKey(s, key) + [x])
    ensures KeySet(s + [x], key) == KeySet(s, key) + {key(x)}
  {
    assert (s + [x])[..|s|] == s;
    KeySetAppend(s, x, key);
  }

  /** `k` is the first position of its key in `s`. */
  predicate FirstOfKey<E>(s: seq<E>, key: E -> string, k: nat)
    requires k < |s|
  {
    key(s[k]) !in KeySet(s[..k], key)
  }

  /** What `FirstPerKey` keeps, exactly: the first item of every key, in the
      order of `s`, and every key of `s`. */
  lemma {:induction false} FirstPerKeyPositions<E>(s: seq<E>, key: E -> string) returns (pos: seq<nat>)
    ensures var r := FirstPerKey(s, key);
      && |pos| == |r|
      && (forall j :: 0 <= j < |pos| ==> pos[j] < |s| && r[j] == s[pos[j]] && FirstOfKey(s, key, pos[j]))
      && (forall j, k :: 0 <= j < k < |pos| ==> pos[j] < pos[k])
      && KeySet(r, key) == KeySet(s, key)
  {
    if s == [] {
      pos := [];
    } else {
      var init := s[..|s| - 1];
      var x := s[|s| - 1];
      var p0 := FirstPerKeyPositions(init, key);
      forall k | 0 <= k < |init|
        ensures init[..k] == s[..k] && init[k] == s[k]
      {
      }
      assert s[..|init|] == init;
      assert s == init + [x];
      KeySetAppend(init, x, key);
      if key(x) in KeySet(init, key) {
        pos := p0;
      } else {
        KeySetAppend(FirstPerKey(init, key), x, key);
        pos := p0 + [|init|];
      }
    }
  }

  /** Distinct keys, so each item occurs at most once. */
  predicate KeysDistinct<E>(s: seq<E>, key: E -> string)
  {
    forall i, j :: 0 <= i < j < |s| ==> key(s[i]) != key(s[j])
  }

  /** Every key of `s` is kept. */
  lemma FirstPerKeyKeys<E>(s: seq<E>, key: E -> string)
    ensures KeySet(FirstPerKey(s, key), key) == KeySet(s, key)
  {
    var pos := FirstPerKeyPositions(s, key);
  }

  /** No key is kept twice. */
  lemma FirstPerKeyDistinct<E>(s: seq<E>, key: E -> string)
    ensures KeysDistinct(FirstPerKey(s, key), key)
  {
    var r := FirstPerKey(s, key);
    var pos := FirstPerKeyPositions(s, key);
    forall i, j | 0 <= i < j < |r|
      ensures key(r[i]) != key(r[j])
    {
      assert pos[i] < pos[j];
      assert s[..pos[j]][pos[i]] == s[pos[i]];
    }
  }

  /** Distinct keys carry over to a list whose keys are those of `s`, item by item. */
  lemma KeysDistinctCarry<E, F>(s: seq<E>, key: E -> string, t: seq<F>, key': F -> string)
    requires KeysDistinct(s, key) && |t| == |s|
    requires forall i :: 0 <= i < |s| ==> key'(t[i]) == key(s[i])
    ensures KeysDistinct(t, key')
  {
  }

  /** The same keys, item by item, give the same key set. */
  lemma KeySetCarry<E, F>(s: seq<E>, key: E -> string, t: seq<F>, key': F -> string)
    requires |t| == |s|
    requires forall i :: 0 <= i < |s| ==> key'(t[i]) == key(s[i])
    ensures KeySet(t, key') == KeySet(s, key)
  {
  }

  /** With distinct keys no item occurs twice. */
  lemma {:induction false} DistinctKeysOnce<E>(s: seq<E>, key: E -> string, x: E)
    requires KeysDistinct(s, key)
    ensures multiset(s)[x] <= 1
  {
    if s != [] {
      var init := s[..|s| - 1];
      assert s == init + [s[|s| - 1]];
      DistinctKeysOnce(init, key, x);
      if x == s[|s| - 1] {
        forall k | 0 <= k < |init| ensures init[k] != x {
          assert key(s[k]) != key(s[|s| - 1]);
        }
      }
    }
  }

  /** An item at two positions occurs at least twice. */
  lemma TwiceAtTwoPositions<E>(s: seq<E>, i: nat, j: nat)
    requires i < j < |s| && s[i] == s[j]
    ensures multiset(s)[s[i]] >= 2
  {
    assert s == s[..j] + s[j..];
    assert s[i] == s[..j][i];
    assert s[j] == s[j..][0];
  }

  /** A reordering keeps keys distinct. */
  lemma ReorderKeepsKeysDistinct<E>(a: seq<E>, b: seq<E>, key: E -> string)
    requires multiset(a) == multiset(b) && KeysDistinct(a, key)
    ensures KeysDistinct(b, key)
  {
    forall i, j | 0 <= i < j < |b| ensures key(b[i]) != key(b[j]) {
      if key(b[i]) == key(b[j]) {
        assert b[i] in multiset(a) && b[j] in multiset(a);
        var p :| 0 <= p < |a| && a[p] == b[i];
        var q :| 0 <= q < |a| && a[q] == b[j];
        if p == q {
          TwiceAtTwoPositions(b, i, j);
          DistinctKeysOnce(a, key, b[i]);
        }
      }
    }
  }
}
