/** A `filter` then a `map` whose callback may throw, as several scripts
    write it. */
module Throwing {
  import opened Common
  import opened Selector

  /** A `filter` then a `map` whose callback throws on some items: the map
      throws exactly when it meets a kept item it throws on; otherwise each
      record comes from a kept item and each kept item gives a record. */
  lemma MapAllFilter<T, U>(xs: seq<T>, keep: T -> bool, f: T -> Option<U>)
    ensures var r := MapAll(Filter(xs, keep), f);
      && (r.None? <==> exists x :: x in xs && keep(x) && f(x).None?)
      && (r.Some? ==> forall y :: y in r.value ==> exists x :: x in xs && keep(x) && f(x) == Some(y))
      && (r.Some? ==> forall x :: x in xs && keep(x) ==> f(x).Some? && f(x).value in r.value)
  {
    var kept := Filter(xs, keep);
    assert forall i :: 0 <= i < |kept| ==> kept[i] in kept;
    var r := MapAll(kept, f);
    if r.Some? {
      forall y | y in r.value ensures exists x :: x in xs && keep(x) && f(x) == Some(y) {
        var k :| 0 <= k < |r.value| && r.value[k] == y;
        assert f(kept[k]) == Some(y);
      }
      forall x | x in xs && keep(x) ensures f(x).Some? && f(x).value in r.value {
        var k :| 0 <= k < |kept| && kept[k] == x;
        assert f(kept[k]) == Some(r.value[k]);
      }
    } else {
      var k :| 0 <= k < |kept| && f(kept[k]).None?;
      assert kept[k] in xs && keep(kept[k]);
    }
  }
}
