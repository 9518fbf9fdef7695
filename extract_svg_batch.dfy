/** The fallback that returns the full markup of the SVGs whose markup the
    visual extraction cut short: rebuild the drawn SVG list, keep the first SVG
    of each fingerprint (the markup's length, a bar, and its first 200
    characters), and answer each requested position in that list with the
    full markup. */
module SvgBatch {
  import opened Common
  import opened Selector
  import opened Keyed
  import VisualExtraction

  type SvgEl = VisualExtraction.SvgEl

  /** `html.length + '|' + html.slice(0, 200)` */
  function Fingerprint(html: string): string
  {
    NatToString(|html|) + "|" + Take(html, 200)
  }

  function Hash(e: SvgEl): string { Fingerprint(e.outerHTML) }

  function Drawn(e: SvgEl): bool { VisualExtraction.Drawn(e) }

  /** The first drawn SVG of each fingerprint, in document order. */
  function Firsts(svgs: seq<SvgEl>): seq<SvgEl>
  {
    FirstPerKey(Filter(svgs, Drawn), Hash)
  }

  /** `svgOrder`: the fingerprints in first-seen order. */
  function SvgOrder(svgs: seq<SvgEl>): seq<string>
  {
    Project(Firsts(svgs), Hash)
  }

  /** `svgMap` after storing each of `firsts` under its fingerprint. */
  function SvgMapOf(firsts: seq<SvgEl>): map<string, string>
  {
    if firsts == [] then map[]
    else
      var e := firsts[|firsts| - 1];
      SvgMapOf(firsts[..|firsts| - 1])[Hash(e) := e.outerHTML]
  }

  /** `result`: `None` stands for `svgMap[svgOrder[i]]` at a negative index,
      which is `undefined`. */
  function Answers(order: seq<string>, svgMap: map<string, string>, indices: seq<int>): map<int, Option<string>>
  {
    if indices == [] then map[]
    else
      var r := Answers(order, svgMap, indices[..|indices| - 1]);
      var i := indices[|indices| - 1];
      if i < |order| then
        r[i := if 0 <= i && order[i] in svgMap then Some(svgMap[order[i]]) else None]
      else r
  }

  // ---------------------------------------------------------------------
  // Fingerprints
  // ---------------------------------------------------------------------

  /** Two markups share a fingerprint exactly when they have the same length
      and the same first 200 characters: the decimal length holds no bar, so
      the first bar ends it. */
  lemma FingerprintEqual(a: string, b: string)
    ensures Fingerprint(a) == Fingerprint(b) <==> |a| == |b| && Take(a, 200) == Take(b, 200)
  {
    if Fingerprint(a) == Fingerprint(b) {
      var s, t := NatToString(|a|), NatToString(|b|);
      var x, y := Fingerprint(a), Fingerprint(b);
      assert x[|s|] == '|' && y[|t|] == '|';
      if |s| < |t| {
        assert false;
      } else if |t| < |s| {
        assert false;
      }
      assert s == x[..|s|] == y[..|t|] == t;
      NatToStringInjective(|a|, |b|);
      assert Take(a, 200) == x[|s| + 1..] == y[|t| + 1..] == Take(b, 200);
    }
  }

  /** Different markups collapse into one entry when they differ only after
      the 200th character, for instance `<svg>` plus 300 `a`s and `<svg>` plus
      300 `b`s. */
  lemma FingerprintCollapse(a: string, b: string)
    requires |a| == |b| && a != b && Take(a, 200) == Take(b, 200)
    ensures Fingerprint(a) == Fingerprint(b) && a != b
  {
    FingerprintEqual(a, b);
  }

  // ---------------------------------------------------------------------
  // The map and the order
  // ---------------------------------------------------------------------

  /** The map's keys are the fingerprints stored. */
  lemma {:induction false} SvgMapKeys(firsts: seq<SvgEl>)
    ensures SvgMapOf(firsts).Keys == KeySet(firsts, Hash)
  {
    if firsts != [] {
      var init := firsts[..|firsts| - 1];
      SvgMapKeys(init);
      assert firsts == init + [firsts[|firsts| - 1]];
      KeySetAppend(init, firsts[|firsts| - 1], Hash);
    }
  }

  /** With distinct fingerprints nothing is overwritten: each fingerprint maps
      to the markup stored under it. */
  lemma {:induction false} SvgMapStored(firsts: seq<SvgEl>)
    requires KeysDistinct(firsts, Hash)
    ensures forall j :: 0 <= j < |firsts| ==>
      Hash(firsts[j]) in SvgMapOf(firsts) && SvgMapOf(firsts)[Hash(firsts[j])] == firsts[j].outerHTML
  {
    if firsts != [] {
      var init := firsts[..|firsts| - 1];
      var e := firsts[|firsts| - 1];
      assert KeysDistinct(init, Hash) by {
        forall i, j | 0 <= i < j < |init| ensures Hash(init[i]) != Hash(init[j]) {
          assert init[i] == firsts[i] && init[j] == firsts[j];
        }
      }
      SvgMapStored(init);
      forall j | 0 <= j < |firsts|
        ensures Hash(firsts[j]) in SvgMapOf(firsts) && SvgMapOf(firsts)[Hash(firsts[j])] == firsts[j].outerHTML
      {
        if j < |init| {
          assert firsts[j] == init[j];
          assert Hash(firsts[j]) != Hash(e);
        }
      }
    }
  }

  /** `fp` is a key of `m`, mapped to the markup of the first drawn SVG with
      that fingerprint. */
  predicate StoredFirst(drawn: seq<SvgEl>, m: map<string, string>, fp: string)
  {
    fp in m && exists p :: 0 <= p < |drawn| && FirstOfKey(drawn, Hash, p) && fp == Hash(drawn[p]) && m[fp] == drawn[p].outerHTML
  }

  /** The map after the loop, and its order: no fingerprint twice; every
      drawn SVG's fingerprint is a key; and the key at each position maps to
      the markup of the first drawn SVG with that fingerprint. */
  lemma BatchListing(svgs: seq<SvgEl>)
    ensures var order := SvgOrder(svgs);
      var m := SvgMapOf(Firsts(svgs));
      var drawn := Filter(svgs, Drawn);
      && (forall i, j :: 0 <= i < j < |order| ==> order[i] != order[j])
      && m.Keys == KeySet(drawn, Hash)
      && (forall j :: 0 <= j < |order| ==> StoredFirst(drawn, m, order[j]))
  {
    var drawn := Filter(svgs, Drawn);
    var firsts := Firsts(svgs);
    var order := SvgOrder(svgs);
    var m := SvgMapOf(firsts);
    FirstPerKeyDistinct(drawn, Hash);
    FirstPerKeyKeys(drawn, Hash);
    SvgMapKeys(firsts);
    SvgMapStored(firsts);
    var pos := FirstPerKeyPositions(drawn, Hash);
    forall j | 0 <= j < |order| ensures StoredFirst(drawn, m, order[j]) {
      assert order[j] == Hash(firsts[j]) && firsts[j] == drawn[pos[j]];
    }
  }

  /** An answer for each requested position inside the order, and no other:
      the stored markup at positions from zero, `undefined` below zero. */
  lemma {:induction false} AnswersExact(order: seq<string>, svgMap: map<string, string>, indices: seq<int>)
    ensures var r := Answers(order, svgMap, indices);
      && (forall i :: i in r <==> i in indices && i < |order|)
      && (forall i :: i in r && i < 0 ==> r[i] == None)
      && (forall i :: i in r && 0 <= i && order[i] in svgMap ==> r[i] == Some(svgMap[order[i]]))
  {
    if indices != [] {
      var init := indices[..|indices| - 1];
      AnswersExact(order, svgMap, init);
      assert indices == init + [indices[|indices| - 1]];
      assert forall i :: i in indices <==> i in init || i == indices[|indices| - 1];
    }
  }

  // ---------------------------------------------------------------------
  // The script
  // ---------------------------------------------------------------------

  /** The map and the order after the drawn SVGs `done`. */
  ghost predicate Rebuilt(svgMap: map<string, string>, svgOrder: seq<string>, done: seq<SvgEl>)
  {
    && svgMap == SvgMapOf(FirstPerKey(done, Hash)) && svgOrder == Project(FirstPerKey(done, Hash), Hash)
    && svgMap.Keys == KeySet(done, Hash)
  }

  /** One drawn SVG: stored and listed when its fingerprint is new. */
  lemma RebuildStep(svgMap: map<string, string>, svgOrder: seq<string>, done: seq<SvgEl>, e: SvgEl)
    requires Rebuilt(svgMap, svgOrder, done)
    ensures Hash(e) !in svgMap ==> Rebuilt(svgMap[Hash(e) := e.outerHTML], svgOrder + [Hash(e)], done + [e])
    ensures Hash(e) in svgMap ==> Rebuilt(svgMap, svgOrder, done + [e])
  {
    var firsts := FirstPerKey(done, Hash);
    FirstPerKeyStep(done, e, Hash);
    if Hash(e) !in svgMap {
      assert (firsts + [e])[..|firsts|] == firsts;
      ProjectAppend(firsts, e, Hash);
    }
  }

  /** The `forEach` over the drawn SVGs: store and list each new fingerprint. */
  method RebuildMap(svgs: seq<SvgEl>) returns (svgMap: map<string, string>, svgOrder: seq<string>)
    ensures svgMap == SvgMapOf(Firsts(svgs)) && svgOrder == SvgOrder(svgs)
  {
    var drawn := Filter(svgs, Drawn);
    svgMap, svgOrder := map[], [];
    for i := 0 to |drawn|
      invariant Rebuilt(svgMap, svgOrder, drawn[..i])
    {
      var html := drawn[i].outerHTML;
      var hash := NatToString(|html|) + "|" + Take(html, 200);
      assert drawn[..i + 1] == drawn[..i] + [drawn[i]];
      RebuildStep(svgMap, svgOrder, drawn[..i], drawn[i]);
      if hash !in svgMap {
        svgMap := svgMap[hash := html];
        svgOrder := svgOrder + [hash];
      }
    }
    assert drawn[..|drawn|] == drawn;
  }

  /** The `forEach` over the requested positions. */
  method SelectTargets(svgOrder: seq<string>, svgMap: map<string, string>, targetIndices: seq<int>)
    returns (result: map<int, Option<string>>)
    ensures result == Answers(svgOrder, svgMap, targetIndices)
  {
    result := map[];
    for k := 0 to |targetIndices|
      invariant result == Answers(svgOrder, svgMap, targetIndices[..k])
    {
      var i := targetIndices[k];
      assert targetIndices[..k + 1][..k] == targetIndices[..k];
      if i < |svgOrder| {
        result := result[i := if 0 <= i && svgOrder[i] in svgMap then Some(svgMap[svgOrder[i]]) else None];
      }
    }
    assert targetIndices[..|targetIndices|] == targetIndices;
  }

  /** The whole script. */
  method ExtractSvgBatch(svgs: seq<SvgEl>, targetIndices: seq<int>) returns (result: map<int, Option<string>>)
    ensures result == Answers(SvgOrder(svgs), SvgMapOf(Firsts(svgs)), targetIndices)
  {
    var svgMap, svgOrder := RebuildMap(svgs);
    result := SelectTargets(svgOrder, svgMap, targetIndices);
  }
}
