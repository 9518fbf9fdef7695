/** The visual fingerprint: a 16 x 12 grid of background colours sampled at
    cell centres, the position of seven semantic landmarks, and the twenty
    largest visible elements, with a size guard.  The page is given as
    oracles: `at(x, y)` is the element `elementFromPoint` returns, and
    `backgrounds(h)` the computed background colours of `h`, its parent and
    so on up to, and not including, the root element. */
module VisualFingerprint {
  import opened Common
  import opened Selector
  import opened Sorting

  const GridCols: nat := 16
  const GridRows: nat := 12

  const TransparentBlack: string := "rgba(0, 0, 0, 0)"
  const White: string := "rgb(255, 255, 255)"

  // ---------------------------------------------------------------------
  // 1. Colour grid
  // ---------------------------------------------------------------------

  /** `Math.round(cellW * col + cellW / 2)` with `cellW = viewW / 16`, that is
      the floor of `viewW * (2 col + 1) / 32 + 1/2`, computed exactly. */
  function SampleX(viewW: nat, col: nat): int
  {
    (viewW * (2 * col + 1) + 16) / 32
  }

  /** The same for rows, with `cellH = viewH / 12`. */
  function SampleY(viewH: nat, row: nat): int
  {
    (viewH * (2 * row + 1) + 12) / 24
  }

  /** A centre `(v * (2 k + 1) + n) / (2 n)` with `k < n` stays within `0..v`. */
  lemma CentreInRange(v: nat, k: nat, n: nat)
    requires 0 < n && k < n
    ensures 0 <= (v * (2 * k + 1) + n) / (2 * n) <= v
  {
    var d := 2 * n;
    var t := v * (2 * k + 1);
    MulLe(v, 2 * k + 1, d - 1);
    MulSucc(v, d - 1);
    MulSucc(d, v);
    assert t + n < (v + 1) * d;
    DivBelow(t + n, d, v + 1);
  }

  /** `a * (b + 1) == a * b + a` and `(b + 1) * a == b * a + a`. */
  lemma MulSucc(a: nat, b: nat)
    ensures a * (b + 1) == a * b + a && (b + 1) * a == a * (b + 1)
  {
  }

  /** `x / d < q` when `x < q * d`. */
  lemma DivBelow(x: nat, d: nat, q: nat)
    requires 0 < d && x < q * d
    ensures x / d < q
  {
    if x / d >= q {
      MulLe(d, q, x / d);
    }
  }

  lemma MulLe(a: nat, b: nat, c: nat)
    requires b <= c
    ensures a * b <= a * c
  {
  }

  /** Every sample point lies inside the viewport, edges included. */
  lemma SamplesInViewport(viewW: nat, viewH: nat, row: nat, col: nat)
    requires row < GridRows && col < GridCols
    ensures 0 <= SampleX(viewW, col) <= viewW
    ensures 0 <= SampleY(viewH, row) <= viewH
  {
    CentreInRange(viewW, col, 16);
    CentreInRange(viewH, row, 12);
  }

  /** A background that shows: not empty, not transparent black, not `transparent`. */
  predicate Opaque(bg: string)
  {
    bg != "" && bg != TransparentBlack && bg != "transparent"
  }

  /** The body's background, or white when it has none. */
  function Fallback(bodyBg: string): (r: string)
    ensures r != ""
  {
    if bodyBg != "" then bodyBg else White
  }

  /** The colour of a cell whose element has the ancestor backgrounds `bgs`. */
  function CellColor(bgs: seq<string>, bodyBg: string): (r: string)
    ensures r != ""
  {
    if bgs == [] then Fallback(bodyBg)
    else if Opaque(bgs[0]) then bgs[0]
    else CellColor(bgs[1..], bodyBg)
  }

  /** The first opaque background of the chain wins; with none, the body's. */
  lemma {:induction false} CellColorFirstOpaque(bgs: seq<string>, bodyBg: string)
    ensures (forall k :: 0 <= k < |bgs| ==> !Opaque(bgs[k])) ==> CellColor(bgs, bodyBg) == Fallback(bodyBg)
    ensures forall k :: 0 <= k < |bgs| && Opaque(bgs[k]) && (forall j :: 0 <= j < k ==> !Opaque(bgs[j]))
              ==> CellColor(bgs, bodyBg) == bgs[k]
  {
    if bgs != [] {
      CellColorFirstOpaque(bgs[1..], bodyBg);
      if !Opaque(bgs[0]) {
        forall k | 0 <= k < |bgs| && Opaque(bgs[k]) && (forall j :: 0 <= j < k ==> !Opaque(bgs[j]))
          ensures CellColor(bgs, bodyBg) == bgs[k]
        {
          assert k >= 1;
          assert bgs[1..][k - 1] == bgs[k];
          forall j | 0 <= j < k - 1 ensures !Opaque(bgs[1..][j]) {
            assert bgs[1..][j] == bgs[j + 1];
          }
        }
        forall k | 0 <= k < |bgs| - 1 ensures bgs[1..][k] == bgs[k + 1] {}
      }
    }
  }

  /** The walk up the ancestors for one sampled element. */
  method ResolveColor(bgs: seq<string>, bodyBg: string) returns (color: string)
    ensures color == CellColor(bgs, bodyBg)
  {
    color := "transparent";
    var i := 0;
    while i < |bgs|
      invariant 0 <= i <= |bgs|
      invariant CellColor(bgs[i..], bodyBg) == CellColor(bgs, bodyBg)
      invariant color == "transparent"
    {
      if Opaque(bgs[i]) {
        color := bgs[i];
        break;
      }
      assert bgs[i..][1..] == bgs[i + 1..];
      i := i + 1;
    }
    if color == "transparent" {
      color := Fallback(bodyBg);
    }
  }

  /** The colour of the cell at `(row, col)`: `transparent` when no element is
      at its centre. */
  function Cell(viewW: nat, viewH: nat, at: (int, int) -> Option<Handle>, backgrounds: Handle -> seq<string>,
                bodyBg: string, row: nat, col: nat): string
  {
    match at(SampleX(viewW, col), SampleY(viewH, row))
    case None => "transparent"
    case Some(h) => CellColor(backgrounds(h), bodyBg)
  }

  function GridRow(viewW: nat, viewH: nat, at: (int, int) -> Option<Handle>, backgrounds: Handle -> seq<string>,
                   bodyBg: string, row: nat): (r: seq<string>)
    ensures |r| == GridCols
  {
    seq(GridCols, col requires 0 <= col < GridCols => Cell(viewW, viewH, at, backgrounds, bodyBg, row, col))
  }

  function Grid(viewW: nat, viewH: nat, at: (int, int) -> Option<Handle>, backgrounds: Handle -> seq<string>,
                bodyBg: string): (r: seq<seq<string>>)
    ensures |r| == GridRows
  {
    seq(GridRows, row requires 0 <= row < GridRows => GridRow(viewW, viewH, at, backgrounds, bodyBg, row))
  }

  /** The two nested sampling loops. */
  method SampleGrid(viewW: nat, viewH: nat, at: (int, int) -> Option<Handle>, backgrounds: Handle -> seq<string>,
                    bodyBg: string) returns (grid: seq<seq<string>>)
    ensures grid == Grid(viewW, viewH, at, backgrounds, bodyBg)
  {
    grid := [];
    for row := 0 to GridRows
      invariant |grid| == row
      invariant forall r :: 0 <= r < row ==> grid[r] == GridRow(viewW, viewH, at, backgrounds, bodyBg, r)
    {
      var gridRow := [];
      for col := 0 to GridCols
        invariant |gridRow| == col
        invariant forall c :: 0 <= c < col ==> gridRow[c] == Cell(viewW, viewH, at, backgrounds, bodyBg, row, c)
      {
        var color := "transparent";
        var el := at(SampleX(viewW, col), SampleY(viewH, row));
        if el.Some? {
          color := ResolveColor(backgrounds(el.value), bodyBg);
        }
        gridRow := gridRow + [color];
      }
      grid := grid + [gridRow];
    }
  }

  /** A cell reads `transparent` exactly when no element is at its centre, or
      no ancestor shows a background and the body's is `transparent`; a cell is
      never empty. */
  lemma CellTransparent(viewW: nat, viewH: nat, at: (int, int) -> Option<Handle>,
                        backgrounds: Handle -> seq<string>, bodyBg: string, row: nat, col: nat)
    ensures var c := Cell(viewW, viewH, at, backgrounds, bodyBg, row, col);
      var el := at(SampleX(viewW, col), SampleY(viewH, row));
      && c != ""
      && (c == "transparent" <==>
            el.None? || ((forall k :: 0 <= k < |backgrounds(el.value)| ==> !Opaque(backgrounds(el.value)[k]))
                         && bodyBg == "transparent"))
  {
    var el := at(SampleX(viewW, col), SampleY(viewH, row));
    if el.Some? {
      CellOpaqueOrFallback(backgrounds(el.value), bodyBg);
      CellColorFirstOpaque(backgrounds(el.value), bodyBg);
    }
  }

  /** The colour of a cell is one of the chain's opaque backgrounds or the fallback. */
  lemma {:induction false} CellOpaqueOrFallback(bgs: seq<string>, bodyBg: string)
    ensures var c := CellColor(bgs, bodyBg);
      (c in bgs && Opaque(c)) || ((forall k :: 0 <= k < |bgs| ==> !Opaque(bgs[k])) && c == Fallback(bodyBg))
  {
    if bgs != [] && !Opaque(bgs[0]) {
      CellOpaqueOrFallback(bgs[1..], bodyBg);
      forall k | 1 <= k < |bgs| ensures bgs[k] == bgs[1..][k - 1] {}
    }
  }

  // ---------------------------------------------------------------------
  // 2. Landmarks
  // ---------------------------------------------------------------------

  /** The computed style read for a landmark or a large element. */
  datatype LandmarkEl = LandmarkEl(rect: Rect, backgroundColor: string, borderBottom: string,
    position: string, zIndex: string)

  datatype Landmark = Landmark(name: string, rect: Rect, backgroundColor: Option<string>,
    borderBottom: Option<string>, position: string, zIndex: Option<string>)

  /** The seven landmarks, each with the selector list `querySelector` is given. */
  const LandmarkSelectors: seq<(string, string)> := [
    ("header", "header, [role=\"banner\"]"),
    ("nav", "nav, [role=\"navigation\"]"),
    ("main", "main, [role=\"main\"]"),
    ("footer", "footer, [role=\"contentinfo\"]"),
    ("sidebar", "aside, [role=\"complementary\"], [class*=\"sidebar\"], [class*=\"Sidebar\"]"),
    ("hero", "[class*=\"hero\"], [class*=\"Hero\"], [class*=\"banner\"], [class*=\"Banner\"]"),
    ("search", "[role=\"search\"], [class*=\"search\"], [class*=\"Search\"]")]

  function LandmarkOf(name: string, e: LandmarkEl): Landmark
  {
    Landmark(name, e.rect, Unless(e.backgroundColor, TransparentBlack),
      if e.borderBottom != "none" && e.borderBottom != "0px none rgb(0, 0, 0)" then Some(e.borderBottom) else None,
      e.position, Unless(e.zIndex, "auto"))
  }

  /** The landmark for one entry: only the first match is looked at, and it is
      dropped when its box has no area, even if a later match would show. */
  function LandmarkFor(entry: (string, string), query: string -> Option<LandmarkEl>): Option<Landmark>
  {
    match query(entry.1)
    case None => None
    case Some(e) => if e.rect.ZeroArea() then None else Some(LandmarkOf(entry.0, e))
  }

  function LandmarkIn(query: string -> Option<LandmarkEl>): ((string, string)) -> Option<Landmark>
  {
    entry => LandmarkFor(entry, query)
  }

  /** The landmarks of `entries`, in their order. */
  function LandmarksFrom(entries: seq<(string, string)>, query: string -> Option<LandmarkEl>): seq<Landmark>
  {
    Present(entries, LandmarkIn(query))
  }

  function Landmarks(query: string -> Option<LandmarkEl>): seq<Landmark>
  {
    LandmarksFrom(LandmarkSelectors, query)
  }

  /** The `forEach` over the landmark entries, pushing each landmark found. */
  method CollectLandmarks(query: string -> Option<LandmarkEl>) returns (landmarks: seq<Landmark>)
    ensures landmarks == Landmarks(query)
  {
    landmarks := PushLandmarks(LandmarkSelectors, query);
  }

  /** The loop body for any entry list: push the landmark of each entry that has one. */
  method PushLandmarks(entries: seq<(string, string)>, query: string -> Option<LandmarkEl>)
    returns (landmarks: seq<Landmark>)
    ensures landmarks == LandmarksFrom(entries, query)
  {
    landmarks := [];
    for i := 0 to |entries|
      invariant landmarks + LandmarksFrom(entries[i..], query) == LandmarksFrom(entries, query)
    {
      assert entries[i..][1..] == entries[i + 1..];
      match LandmarkFor(entries[i], query)
      case None =>
      case Some(l) =>
        landmarks := landmarks + [l];
    }
    assert entries[|entries|..] == [];
  }

  /** The landmarks come in the order of the entries, each name at most once
      when the names are distinct, each with a box of non-zero area; an entry's
      landmark is present exactly when its first match has area. */
  lemma {:induction false} LandmarksFromProperties(entries: seq<(string, string)>, query: string -> Option<LandmarkEl>)
    ensures var ls := LandmarksFrom(entries, query);
      && |ls| <= |entries|
      && (forall l :: l in ls ==> !l.rect.ZeroArea())
      && (forall i :: 0 <= i < |entries| && LandmarkFor(entries[i], query).Some? ==>
            LandmarkFor(entries[i], query).value in ls)
      && (forall l :: l in ls ==> exists i :: 0 <= i < |entries| && LandmarkFor(entries[i], query) == Some(l))
  {
    if entries != [] {
      LandmarksFromProperties(entries[1..], query);
      var ls := LandmarksFrom(entries, query);
      forall i | 0 <= i < |entries| && LandmarkFor(entries[i], query).Some?
        ensures LandmarkFor(entries[i], query).value in ls
      {
        if i > 0 { assert entries[i] == entries[1..][i - 1]; }
      }
      forall l | l in ls ensures exists i :: 0 <= i < |entries| && LandmarkFor(entries[i], query) == Some(l) {
        if l !in LandmarksFrom(entries[1..], query) {
          assert LandmarkFor(entries[0], query) == Some(l);
        } else {
          var i :| 0 <= i < |entries[1..]| && LandmarkFor(entries[1..][i], query) == Some(l);
          assert entries[1..][i] == entries[i + 1];
        }
      }
    }
  }

  /** The landmarks are those of a strictly increasing run of entry
      positions, each named by its entry. */
  lemma LandmarkPositions(entries: seq<(string, string)>, query: string -> Option<LandmarkEl>)
    returns (pos: seq<nat>)
    ensures |pos| == |LandmarksFrom(entries, query)|
    ensures forall j :: 0 <= j < |pos| ==>
      && pos[j] < |entries|
      && LandmarkFor(entries[pos[j]], query) == Some(LandmarksFrom(entries, query)[j])
      && LandmarksFrom(entries, query)[j].name == entries[pos[j]].0
    ensures forall j, k :: 0 <= j < k < |pos| ==> pos[j] < pos[k]
  {
    pos := PresentPos(entries, LandmarkIn(query));
    PresentPosMatch(entries, LandmarkIn(query));
    PresentPosIncreasing(entries, LandmarkIn(query));
  }

  /** The rank of a landmark name in the fixed order, 7 for any other name. */
  function NameRank(name: string): nat
  {
    if name == "header" then 0
    else if name == "nav" then 1
    else if name == "main" then 2
    else if name == "footer" then 3
    else if name == "sidebar" then 4
    else if name == "hero" then 5
    else if name == "search" then 6
    else 7
  }

  /** Each fixed entry's name has its own position as rank. */
  lemma NameRanks()
    ensures |LandmarkSelectors| == 7
    ensures forall p :: 0 <= p < 7 ==> NameRank(LandmarkSelectors[p].0) == p
  {
  }

  /** When every entry's name is ranked by its position, the landmarks' names
      rise strictly in rank. */
  lemma RankedNames(entries: seq<(string, string)>, query: string -> Option<LandmarkEl>)
    requires forall p :: 0 <= p < |entries| ==> NameRank(entries[p].0) == p
    ensures var ls := LandmarksFrom(entries, query);
      && (forall l :: l in ls ==> NameRank(l.name) < |entries|)
      && (forall i, j :: 0 <= i < j < |ls| ==> NameRank(ls[i].name) < NameRank(ls[j].name))
  {
    var pos := LandmarkPositions(entries, query);
    var ls := LandmarksFrom(entries, query);
    forall l | l in ls ensures NameRank(l.name) < |entries| {
      var j :| 0 <= j < |ls| && ls[j] == l;
    }
  }

  /** At most seven landmarks, each with area; every entry whose first match
      has area is present. */
  lemma LandmarkNamesOrdered(query: string -> Option<LandmarkEl>)
    ensures var ls := Landmarks(query);
      && |ls| <= 7
      && (forall l :: l in ls ==> !l.rect.ZeroArea())
      && (forall i :: 0 <= i < 7 && LandmarkFor(LandmarkSelectors[i], query).Some? ==>
            LandmarkFor(LandmarkSelectors[i], query).value in ls)
  {
    LandmarksFromProperties(LandmarkSelectors, query);
  }

  /** The names are the fixed ones, in the fixed order, so no name appears twice. */
  lemma LandmarkNamesDistinct(query: string -> Option<LandmarkEl>)
    ensures var ls := Landmarks(query);
      && (forall l :: l in ls ==> NameRank(l.name) < 7)
      && (forall i, j :: 0 <= i < j < |ls| ==> NameRank(ls[i].name) < NameRank(ls[j].name))
      && (forall i, j :: 0 <= i < j < |ls| ==> ls[i].name != ls[j].name)
  {
    NameRanks();
    RankedNames(LandmarkSelectors, query);
  }

  // ---------------------------------------------------------------------
  // 3. The largest elements
  // ---------------------------------------------------------------------

  datatype BoxEl = BoxEl(tag: string, className: Option<string>, rect: Rect,
    backgroundColor: string, color: string)

  datatype LargeElement = LargeElement(tag: string, classes: string, area: int, rect: Rect,
    backgroundColor: Option<string>, color: string)

  /** Larger than 20 x 20 and overlapping the first viewport vertically. */
  predicate Large(viewH: int, e: BoxEl)
  {
    e.rect.w > 20 && e.rect.h > 20 && e.rect.y < viewH && e.rect.Bottom() > 0
  }

  function LargeIn(viewH: int): BoxEl -> bool
  {
    e => Large(viewH, e)
  }

  /** The first three words of the class name, joined with single spaces. */
  function ClassList(className: Option<string>): string
  {
    if Truthy(className) then Join(Take(Words(className.value), 3), " ") else ""
  }

  function LargeOf(e: BoxEl): LargeElement
  {
    LargeElement(e.tag, ClassList(e.className), e.rect.w * e.rect.h, e.rect,
      Unless(e.backgroundColor, TransparentBlack), e.color)
  }

  function Described(els: seq<BoxEl>): (r: seq<LargeElement>)
    ensures |r| == |els|
  {
    seq(|els|, i requires 0 <= i < |els| => LargeOf(els[i]))
  }

  /** `b.area - a.area`: a larger area sorts first. */
  function AreaKey(x: LargeElement): Key
  {
    Key(-x.area, 0)
  }

  /** All the large elements, largest first. */
  function ByArea(viewH: int, els: seq<BoxEl>): seq<LargeElement>
  {
    SortByKey(Described(Filter(els, LargeIn(viewH))), AreaKey)
  }

  function Largest(viewH: int, els: seq<BoxEl>): seq<LargeElement>
  {
    Take(ByArea(viewH, els), 20)
  }

  /** The list is the first twenty of an ordering of all large elements by
      non-increasing area, so no element left out is larger than one kept. */
  lemma LargestIsTopTwenty(viewH: int, els: seq<BoxEl>)
    ensures var all := ByArea(viewH, els);
      var top := Largest(viewH, els);
      && top <= all
      && |top| == (if |all| < 20 then |all| else 20)
      && multiset(all) == multiset(Described(Filter(els, LargeIn(viewH))))
      && (forall i, j :: 0 <= i < j < |all| ==> all[i].area >= all[j].area)
      && (forall i, j :: 0 <= i < |top| <= j < |all| ==> top[i].area >= all[j].area)
  {
    var all := ByArea(viewH, els);
    SortByKeySorted(Described(Filter(els, LargeIn(viewH))), AreaKey);
    assert forall i, j :: 0 <= i < j < |all| ==> KeyLe(AreaKey(all[i]), AreaKey(all[j]));
  }

  /** Every described large element passes the size and viewport filter and
      is at least 441 square pixels. */
  lemma DescribedLarge(viewH: int, els: seq<BoxEl>)
    ensures forall x :: x in Described(Filter(els, LargeIn(viewH))) ==>
      x.rect.w > 20 && x.rect.h > 20 && x.rect.y < viewH && x.rect.Bottom() > 0 && x.area >= 441
  {
    var kept := Filter(els, LargeIn(viewH));
    var d := Described(kept);
    forall x | x in d
      ensures x.rect.w > 20 && x.rect.h > 20 && x.rect.y < viewH && x.rect.Bottom() > 0 && x.area >= 441
    {
      var k :| 0 <= k < |d| && d[k] == x;
      assert kept[k] in kept;
      assert LargeIn(viewH)(kept[k]);
      MulLe(x.rect.h, 21, x.rect.w);
      MulLe(21, 21, x.rect.h);
    }
  }

  /** Every listed element passes the size and viewport filter and is at least 441 square pixels. */
  lemma LargestAreLarge(viewH: int, els: seq<BoxEl>)
    ensures forall x :: x in Largest(viewH, els) ==>
      x.rect.w > 20 && x.rect.h > 20 && x.rect.y < viewH && x.rect.Bottom() > 0 && x.area >= 441
  {
    var d := Described(Filter(els, LargeIn(viewH)));
    var all := ByArea(viewH, els);
    DescribedLarge(viewH, els);
    forall x | x in Largest(viewH, els) ensures x in d {
      assert x in multiset(all);
    }
  }

  // ---------------------------------------------------------------------
  // Result and size guard
  // ---------------------------------------------------------------------

  datatype VisualResult = VisualResult(colorGrid: seq<seq<string>>, landmarks: seq<Landmark>,
    largestElements: seq<LargeElement>, viewportWidth: nat, viewportHeight: nat, truncated: bool)

  /** Over budget: only the ten largest elements are kept and the result is
      flagged; the grid, the landmarks and the viewport stay.  No count of the
      dropped elements is recorded. */
  function Guard(result: VisualResult, size: nat): (r: VisualResult)
    ensures size <= Budget ==> r == result
    ensures r.colorGrid == result.colorGrid && r.landmarks == result.landmarks
    ensures r.viewportWidth == result.viewportWidth && r.viewportHeight == result.viewportHeight
    ensures size > Budget ==>
      && r.largestElements <= result.largestElements
      && |r.largestElements| == (if |result.largestElements| < 10 then |result.largestElements| else 10)
      && r.truncated
  {
    if size > Budget then result.(largestElements := Take(result.largestElements, 10), truncated := true)
    else result
  }

  function Unguarded(viewW: nat, viewH: nat, at: (int, int) -> Option<Handle>, backgrounds: Handle -> seq<string>,
                     bodyBg: string, query: string -> Option<LandmarkEl>, els: seq<BoxEl>): VisualResult
  {
    VisualResult(Grid(viewW, viewH, at, backgrounds, bodyBg), Landmarks(query), Largest(viewH, els),
      viewW, viewH, false)
  }

  /** The whole script.  `measure` gives the length of the serialized result. */
  method VerifyVisual(viewW: nat, viewH: nat, at: (int, int) -> Option<Handle>, backgrounds: Handle -> seq<string>,
                      bodyBg: string, query: string -> Option<LandmarkEl>, els: seq<BoxEl>,
                      measure: VisualResult -> nat)
    returns (result: VisualResult)
    ensures var u := Unguarded(viewW, viewH, at, backgrounds, bodyBg, query, els); result == Guard(u, measure(u))
  {
    var grid := SampleGrid(viewW, viewH, at, backgrounds, bodyBg);
    var landmarks := CollectLandmarks(query);
    result := VisualResult(grid, landmarks, Largest(viewH, els), viewW, viewH, false);
    result := Guard(result, measure(result));
  }
}
