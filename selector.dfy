/** The candidate selector that several scripts share: run a list of query
    patterns in order, keep the hits that pass a filter, and keep each element
    only the first time it is seen (a `Set` of element references).  Elements
    are identified by an opaque handle, never by a derived selector string. */
module Selector {

  /** Identity of a DOM element for the length of one script run. */
  type Handle = nat

  /** The hits of all queries, pattern by pattern, each in document order. */
  function Flatten<E>(groups: seq<seq<E>>): (r: seq<E>)
  {
    if groups == [] then [] else Flatten(groups[..|groups| - 1]) + groups[|groups| - 1]
  }

  /** The hits that pass `keep`, in their original order. */
  function Filter<E>(s: seq<E>, keep: E -> bool): (r: seq<E>)
    ensures |r| <= |s|
    ensures forall x :: x in r ==> x in s && keep(x)
    ensures forall x :: x in s && keep(x) ==> x in r
  {
    if s == [] then []
    else
      var init := s[..|s| - 1];
      var x := s[|s| - 1];
      assert s == init + [x];
      Filter(init, keep) + (if keep(x) then [x] else [])
  }

  lemma FilterAppend<E>(s: seq<E>, x: E, keep: E -> bool)
    ensures Filter(s + [x], keep) == Filter(s, keep) + (if keep(x) then [x] else [])
  {
    assert (s + [x])[..|s|] == s;
  }

  /** The positions of `s` whose item is kept. */
  function Positions<E>(s: seq<E>, keep: E -> bool): set<nat>
  {
    set i: nat | i < |s| && keep(s[i])
  }

  /** The length of a filtered list is the number of positions whose item
      is kept. */
  lemma {:induction false} FilterCount<E>(s: seq<E>, keep: E -> bool)
    ensures |Filter(s, keep)| == |Positions(s, keep)|
  {
    if s != [] {
      var init, x := s[..|s| - 1], s[|s| - 1];
      assert s == init + [x];
      FilterCount(init, keep);
      FilterAppend(init, x, keep);
      PositionsSnoc(init, x, keep);
      assert |init| !in Positions(init, keep);
    }
  }

  /** One more item adds its position when it is kept. */
  lemma PositionsSnoc<E>(init: seq<E>, x: E, keep: E -> bool)
    ensures Positions(init + [x], keep) == Positions(init, keep) + (if keep(x) then {|init|} else {})
  {
    var s := init + [x];
    forall i: nat
      ensures i in Positions(s, keep) <==> i in Positions(init, keep) + (if keep(x) then {|init|} else {})
    {
      if i < |init| {
        assert s[i] == init[i];
      }
    }
  }

  /** Filtering two lists one after the other filters their concatenation. */
  lemma {:induction false} FilterConcat<E>(a: seq<E>, b: seq<E>, keep: E -> bool)
    ensures Filter(a + b, keep) == Filter(a, keep) + Filter(b, keep)
  {
    if b == [] {
      assert a + b == a;
    } else {
      var init := b[..|b| - 1];
      var x := b[|b| - 1];
      var tail := if keep(x) then [x] else [];
      assert b == init + [x];
      assert a + b == (a + init) + [x];
      calc {
        Filter(a + b, keep);
        Filter((a + init) + [x], keep);
        { FilterAppend(a + init, x, keep); }
        Filter(a + init, keep) + tail;
        { FilterConcat(a, init, keep); }
        (Filter(a, keep) + Filter(init, keep)) + tail;
        Filter(a, keep) + (Filter(init, keep) + tail);
        { FilterAppend(init, x, keep); }
        Filter(a, keep) + Filter(b, keep);
      }
    }
  }

  /** The first item kept is the first item that passes. */
  lemma FilterHead<E>(s: seq<E>, keep: E -> bool, k: nat)
    requires k < |s| && keep(s[k])
    requires forall j :: 0 <= j < k ==> !keep(s[j])
    ensures Filter(s, keep) != [] && Filter(s, keep)[0] == s[k]
  {
    var pos := FilterPositions(s, keep);
    assert k in pos;
    var m :| 0 <= m < |pos| && pos[m] == k;
    assert keep(s[pos[0]]) by { assert Filter(s, keep)[0] in Filter(s, keep); }
  }

  /** Nothing passes, nothing is kept. */
  lemma FilterNone<E>(s: seq<E>, keep: E -> bool)
    requires forall k :: 0 <= k < |s| ==> !keep(s[k])
    ensures Filter(s, keep) == []
  {
  }

  /** The positions in `s` of the items that pass `keep`. */
  function FilterPos<E>(s: seq<E>, keep: E -> bool): seq<nat>
  {
    if s == [] then []
    else
      var p0 := FilterPos(s[..|s| - 1], keep);
      if keep(s[|s| - 1]) then p0 + [|s| - 1] else p0
  }

  /** Each kept item sits at its position. */
  lemma {:induction false} FilterPosMatch<E>(s: seq<E>, keep: E -> bool)
    ensures var r := Filter(s, keep); var pos := FilterPos(s, keep);
      |pos| == |r| && forall j :: 0 <= j < |pos| ==> pos[j] < |s| && r[j] == s[pos[j]]
  {
    if s != [] {
      var init := s[..|s| - 1];
      FilterPosMatch(init, keep);
      assert s == init + [s[|s| - 1]];
      FilterAppend(init, s[|s| - 1], keep);
    }
  }

  /** The positions increase. */
  lemma {:induction false} FilterPosIncreasing<E>(s: seq<E>, keep: E -> bool)
    ensures forall j :: 0 <= j < |FilterPos(s, keep)| ==> FilterPos(s, keep)[j] < |s|
    ensures forall j, k :: 0 <= j < k < |FilterPos(s, keep)| ==> FilterPos(s, keep)[j] < FilterPos(s, keep)[k]
  {
    if s != [] {
      var init := s[..|s| - 1];
      var p0 := FilterPos(init, keep);
      FilterPosIncreasing(init, keep);
      var pos := FilterPos(s, keep);
      assert pos == p0 || pos == p0 + [|s| - 1];
      forall j | 0 <= j < |pos| ensures pos[j] < |s| && (j < |p0| ==> pos[j] == p0[j] < |s| - 1) {}
      forall j, k | 0 <= j < k < |pos| ensures pos[j] < pos[k] {}
    }
  }

  /** Every item that passes has its position. */
  lemma {:induction false} FilterPosCovers<E>(s: seq<E>, keep: E -> bool)
    ensures forall k :: 0 <= k < |s| && keep(s[k]) ==> k in FilterPos(s, keep)
  {
    if s != [] {
      var init := s[..|s| - 1];
      FilterPosCovers(init, keep);
      forall k | 0 <= k < |init| ensures init[k] == s[k] {}
    }
  }

  /** Where the kept items sit in `s`: in order, and every item that passes is kept. */
  lemma FilterPositions<E>(s: seq<E>, keep: E -> bool) returns (pos: seq<nat>)
    ensures var r := Filter(s, keep);
      && |pos| == |r|
      && (forall j :: 0 <= j < |pos| ==> pos[j] < |s| && r[j] == s[pos[j]])
      && (forall j, k :: 0 <= j < k < |pos| ==> pos[j] < pos[k])
      && (forall k :: 0 <= k < |s| && keep(s[k]) ==> k in pos)
  {
    pos := FilterPos(s, keep);
    FilterPosMatch(s, keep);
    FilterPosIncreasing(s, keep);
    FilterPosCovers(s, keep);
  }



  /** The handles occurring in `s`. */
  function Ids<E>(s: seq<E>, id: E -> Handle): set<Handle>
  {
    set i | 0 <= i < |s| :: id(s[i])
  }

  lemma IdsAppend<E>(s: seq<E>, x: E, id: E -> Handle)
    ensures Ids(s + [x], id) == Ids(s, id) + {id(x)}
  {
    assert forall k :: 0 <= k < |s| ==> (s + [x])[k] == s[k];
    assert (s + [x])[|s|] == x;
  }

  /** First occurrence wins: `s` with every element dropped whose handle
      occurred earlier (`if (!seen.has(el)) { seen.add(el); keep.push(el) }`). */
  function Dedup<E>(s: seq<E>, id: E -> Handle): seq<E>
  {
    if s == [] then []
    else
      var init := s[..|s| - 1];
      var x := s[|s| - 1];
      if id(x) in Ids(init, id) then Dedup(init, id) else Dedup(init, id) + [x]
  }

  /** Dedup only drops elements. */
  lemma {:induction false} DedupSubset<E>(s: seq<E>, id: E -> Handle)
    ensures forall x :: x in Dedup(s, id) ==> x in s
  {
    if s != [] {
      var init := s[..|s| - 1];
      DedupSubset(init, id);
      assert forall x :: x in init ==> x in s;
    }
  }

  /** `k` is the first position of its element's handle in `s`. */
  predicate FirstAt<E>(s: seq<E>, id: E -> Handle, k: nat)
    requires k < |s|
  {
    id(s[k]) !in Ids(s[..k], id)
  }

  /** A first occurrence comes no later than any occurrence of the same handle. */
  lemma FirstAtBefore<E>(s: seq<E>, id: E -> Handle, p: nat, k: nat)
    requires p < |s| && k < |s| && FirstAt(s, id, p) && id(s[k]) == id(s[p])
    ensures p <= k
  {
  }

  /** An element kept from `a + b` whose handle already occurs in `a` comes from `a`. */
  lemma DedupFromPrefix<E>(a: seq<E>, b: seq<E>, id: E -> Handle, u: E)
    requires u in Dedup(a + b, id) && id(u) in Ids(a, id)
    ensures u in a
  {
    var s := a + b;
    var r := Dedup(s, id);
    var pos := DedupPositions(s, id);
    var j :| 0 <= j < |r| && r[j] == u;
    var k :| 0 <= k < |a| && id(a[k]) == id(u);
    assert s[k] == a[k];
    FirstAtBefore(s, id, pos[j], k);
    assert s[pos[j]] == a[pos[j]];
  }

  /** The positions in `s` of the first occurrence of each handle. */
  function DedupPos<E>(s: seq<E>, id: E -> Handle): seq<nat>
  {
    if s == [] then []
    else
      var init := s[..|s| - 1];
      var p0 := DedupPos(init, id);
      if id(s[|s| - 1]) in Ids(init, id) then p0 else p0 + [|s| - 1]
  }

  /** A position before the last is first in `s` exactly when it is first in
      `s` without its last item. */
  lemma FirstAtInit<E>(s: seq<E>, id: E -> Handle, k: nat)
    requires k < |s| - 1
    ensures FirstAt(s, id, k) <==> FirstAt(s[..|s| - 1], id, k)
  {
    assert s[..|s| - 1][..k] == s[..k];
  }

  /** Each kept item sits at its position, which is a first occurrence. */
  lemma {:induction false} DedupPosMatch<E>(s: seq<E>, id: E -> Handle)
    ensures var r := Dedup(s, id); var pos := DedupPos(s, id);
      |pos| == |r| && forall j :: 0 <= j < |pos| ==> pos[j] < |s| && r[j] == s[pos[j]] && FirstAt(s, id, pos[j])
  {
    if s != [] {
      var init := s[..|s| - 1];
      DedupPosMatch(init, id);
      var r := Dedup(s, id);
      var pos := DedupPos(s, id);
      var p0 := DedupPos(init, id);
      assert s[..|init|] == init;
      forall j | 0 <= j < |pos| ensures pos[j] < |s| && r[j] == s[pos[j]] && FirstAt(s, id, pos[j]) {
        if j < |p0| {
          FirstAtInit(s, id, p0[j]);
        }
      }
    }
  }

  /** The positions increase. */
  lemma {:induction false} DedupPosIncreasing<E>(s: seq<E>, id: E -> Handle)
    ensures forall j :: 0 <= j < |DedupPos(s, id)| ==> DedupPos(s, id)[j] < |s|
    ensures forall j, k :: 0 <= j < k < |DedupPos(s, id)| ==> DedupPos(s, id)[j] < DedupPos(s, id)[k]
  {
    if s != [] {
      var p0 := DedupPos(s[..|s| - 1], id);
      DedupPosIncreasing(s[..|s| - 1], id);
      var pos := DedupPos(s, id);
      assert pos == p0 || pos == p0 + [|s| - 1];
      forall j | 0 <= j < |pos| ensures pos[j] < |s| && (j < |p0| ==> pos[j] == p0[j] < |s| - 1) {}
      forall j, k | 0 <= j < k < |pos| ensures pos[j] < pos[k] {}
    }
  }

  /** Every first occurrence has its position. */
  lemma {:induction false} DedupPosCovers<E>(s: seq<E>, id: E -> Handle)
    ensures forall k :: 0 <= k < |s| && FirstAt(s, id, k) ==> k in DedupPos(s, id)
  {
    if s != [] {
      var init := s[..|s| - 1];
      DedupPosCovers(init, id);
      assert s[..|init|] == init;
      forall k | 0 <= k < |init| && FirstAt(s, id, k) ensures k in DedupPos(init, id) {
        FirstAtInit(s, id, k);
      }
    }
  }

  /** What `Dedup` keeps, exactly: the first occurrence of every handle, in
      the order of `s` (so the role or selector of the first match is kept). */
  lemma DedupPositions<E>(s: seq<E>, id: E -> Handle) returns (pos: seq<nat>)
    ensures var r := Dedup(s, id);
      && |pos| == |r|
      && (forall j :: 0 <= j < |pos| ==> pos[j] < |s| && r[j] == s[pos[j]] && FirstAt(s, id, pos[j]))
      && (forall j, k :: 0 <= j < k < |pos| ==> pos[j] < pos[k])
      && (forall k :: 0 <= k < |s| && FirstAt(s, id, k) ==> k in pos)
  {
    pos := DedupPos(s, id);
    DedupPosMatch(s, id);
    DedupPosIncreasing(s, id);
    DedupPosCovers(s, id);
  }



  /** No handle is kept twice. */
  lemma DedupDistinct<E>(s: seq<E>, id: E -> Handle)
    ensures var r := Dedup(s, id);
      forall i, j :: 0 <= i < j < |r| ==> id(r[i]) != id(r[j])
  {
    var r := Dedup(s, id);
    var pos := DedupPositions(s, id);
    forall i, j | 0 <= i < j < |r|
      ensures id(r[i]) != id(r[j])
    {
      assert pos[i] < pos[j];
      assert s[..pos[j]][pos[i]] == s[pos[i]];
    }
  }

  /** Every handle of `s` is kept. */
  lemma {:induction false} DedupKeepsAll<E>(s: seq<E>, id: E -> Handle)
    ensures Ids(Dedup(s, id), id) == Ids(s, id)
  {
    if s != [] {
      var init, x := s[..|s| - 1], s[|s| - 1];
      DedupKeepsAll(init, id);
      assert s == init + [x];
      IdsAppend(init, x, id);
      IdsAppend(Dedup(init, id), x, id);
    }
  }

  /** One more hit seen by the collection loop. */
  lemma CollectStep<E>(done: seq<E>, e: E, id: E -> Handle, accept: E -> bool)
    ensures var kept := Filter(done, accept);
      var kept' := Filter(done + [e], accept);
      && Dedup(kept', id)
         == (if id(e) in Ids(kept, id) || !accept(e) then Dedup(kept, id) else Dedup(kept, id) + [e])
      && Ids(kept', id) == (if accept(e) then Ids(kept, id) + {id(e)} else Ids(kept, id))
  {
    var kept := Filter(done, accept);
    FilterAppend(done, e, accept);
    if accept(e) {
      assert (kept + [e])[..|kept|] == kept;
      IdsAppend(kept, e, id);
    } else {
      assert kept + [] == kept;
    }
  }

  lemma FlattenStep<E>(groups: seq<seq<E>>, g: nat)
    requires g < |groups|
    ensures Flatten(groups[..g + 1]) == Flatten(groups[..g]) + groups[g]
  {
    assert groups[..g + 1][..g] == groups[..g];
  }

  /** The loop state after the hits `done`: what is kept and what is seen. */
  ghost predicate Collected<E>(r: seq<E>, seen: set<Handle>, done: seq<E>, id: E -> Handle, accept: E -> bool)
  {
    r == Dedup(Filter(done, accept), id) && seen == Ids(Filter(done, accept), id)
  }

  /** The loop state after one more hit: unchanged when the hit was seen or
      fails the filter, otherwise the hit is kept and marked seen. */
  lemma CollectedStep<E>(r: seq<E>, seen: set<Handle>, done: seq<E>, e: E, id: E -> Handle, accept: E -> bool)
    requires Collected(r, seen, done, id, accept)
    ensures id(e) in seen || !accept(e) ==> Collected(r, seen, done + [e], id, accept)
    ensures !(id(e) in seen || !accept(e)) ==> Collected(r + [e], seen + {id(e)}, done + [e], id, accept)
  {
    CollectStep(done, e, id, accept);
  }

  /** One turn of the inner loop of `Collect`, stated on the prefixes of the group. */
  lemma CollectGroupStep<E>(r: seq<E>, seen: set<Handle>, before: seq<E>, group: seq<E>, i: nat,
                            id: E -> Handle, accept: E -> bool)
    requires i < |group| && Collected(r, seen, before + group[..i], id, accept)
    ensures id(group[i]) in seen || !accept(group[i]) ==> Collected(r, seen, before + group[..i + 1], id, accept)
    ensures !(id(group[i]) in seen || !accept(group[i])) ==>
      Collected(r + [group[i]], seen + {id(group[i])}, before + group[..i + 1], id, accept)
  {
    assert group[..i + 1] == group[..i] + [group[i]];
    assert before + group[..i + 1] == (before + group[..i]) + [group[i]];
    CollectedStep(r, seen, before + group[..i], group[i], id, accept);
  }

  /** The inner loop of `Collect`: the hits of one pattern, in document order. */
  method CollectGroup<E>(ghost before: seq<E>, group: seq<E>, id: E -> Handle, accept: E -> bool,
                         r0: seq<E>, seen0: set<Handle>)
    returns (r: seq<E>, seen: set<Handle>)
    requires Collected(r0, seen0, before, id, accept)
    ensures Collected(r, seen, before + group, id, accept)
  {
    r, seen := r0, seen0;
    assert before + group[..0] == before;
    for i := 0 to |group|
      invariant Collected(r, seen, before + group[..i], id, accept)
    {
      var e := group[i];
      CollectGroupStep(r, seen, before, group, i, id, accept);
      if id(e) in seen {
        continue;
      }
      if !accept(e) {
        continue;
      }
      seen := seen + {id(e)};
      r := r + [e];
    }
    assert group[..|group|] == group;
  }

  /** The shared collection loop: run the patterns in order; skip an element
      already seen; skip one that fails the script's filter; otherwise mark it
      seen and keep it.  An element that fails the filter is not marked seen. */
  method Collect<E>(groups: seq<seq<E>>, id: E -> Handle, accept: E -> bool) returns (r: seq<E>)
    ensures r == Dedup(Filter(Flatten(groups), accept), id)
  {
    var seen: set<Handle> := {};
    r := [];
    for g := 0 to |groups|
      invariant Collected(r, seen, Flatten(groups[..g]), id, accept)
    {
      r, seen := CollectGroup(Flatten(groups[..g]), groups[g], id, accept, r, seen);
      FlattenStep(groups, g);
    }
    assert groups[..|groups|] == groups;
  }
}
