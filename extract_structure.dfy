/** The layout map: a tree of boxes three levels below the body, with the
    layout styles of each box, a small inventory of page content, the visible
    text nodes with their typography, and a size guard on the text nodes. */
module PageStructure {
  import opened Common
  import opened Selector

  // ---------------------------------------------------------------------
  // 1. Structure tree
  // ---------------------------------------------------------------------

  /** The deepest level reported: the body is level 0. */
  const MaxDepth: nat := 3

  /** The computed styles read for a box. */
  datatype BoxStyle = BoxStyle(display: string, position: string, margin: string, padding: string,
    gap: string, rowGap: string, columnGap: string, transition: string, backgroundColor: string,
    borderRight: string, borderBottom: string, zIndex: string, boxShadow: string)

  /** An element of the document with its box, styles and element children. */
  datatype DomNode = DomNode(tag: string, id: string, className: Option<string>, rect: Rect,
    style: BoxStyle, children: seq<DomNode>)

  datatype StructNode = StructNode(
    tag: string, id: Option<string>, classes: seq<string>, rect: Rect,
    display: string, position: string, margin: string, padding: string,
    gap: string, rowGap: string, columnGap: string,
    transition: Option<string>, backgroundColor: Option<string>,
    borderRight: Option<string>, borderBottom: Option<string>,
    zIndex: Option<string>, boxShadow: Option<string>,
    childCount: nat, children: seq<StructNode>)

  /** A border reported only when it is neither `none` nor `0px none rgb(0, 0, 0)`. */
  function BorderUnless(v: string): (o: Option<string>)
    ensures o == None <==> (v == "none" || v == "0px none rgb(0, 0, 0)")
    ensures o.Some? ==> o.value == v
  {
    if v != "none" && v != "0px none rgb(0, 0, 0)" then Some(v) else None
  }

  /** `.filter(Boolean)` over the children's results: the boxes not pruned. */
  function KeepSome<T>(s: seq<Option<T>>): (r: seq<T>)
    ensures |r| <= |s|
  {
    if s == [] then []
    else KeepSome(s[..|s| - 1]) + (if s[|s| - 1].Some? then [s[|s| - 1].value] else [])
  }

  /** The first five class names, when `className` is a non-empty string. */
  function BoxClasses(className: Option<string>): (r: seq<string>)
    ensures |r| <= 5
    ensures forall i :: 0 <= i < |r| ==> r[i] != []
  {
    if Truthy(className) then Take(Words(className.value), 5) else []
  }

  /** `extractStructure(el, depth)` */
  function Extract(el: DomNode, depth: nat): Option<StructNode>
    decreases if depth > MaxDepth then 0 else MaxDepth + 1 - depth, 1
  {
    if depth > MaxDepth then None
    else if el.rect.w == 0 && el.rect.h == 0 then None
    else
      var cs := el.style;
      Some(StructNode(el.tag, IfTruthy(Some(el.id)), BoxClasses(el.className), el.rect,
        cs.display, cs.position, cs.margin, cs.padding, cs.gap, cs.rowGap, cs.columnGap,
        Unless(cs.transition, "all 0s ease 0s"), Unless(cs.backgroundColor, "rgba(0, 0, 0, 0)"),
        BorderUnless(cs.borderRight), BorderUnless(cs.borderBottom),
        Unless(cs.zIndex, "auto"), Unless(cs.boxShadow, "none"),
        |el.children|, KeepSome(ChildResults(el, depth))))
  }

  /** `Array.from(el.children).map(c => extractStructure(c, depth + 1))` */
  function ChildResults(el: DomNode, depth: nat): (r: seq<Option<StructNode>>)
    requires depth <= MaxDepth
    ensures |r| == |el.children|
    decreases MaxDepth + 1 - depth, 0
  {
    seq(|el.children|, i requires 0 <= i < |el.children| => Extract(el.children[i], depth + 1))
  }

  /** Number of levels of a reported tree. */
  function Height(n: StructNode): nat
  {
    1 + HeightOfAll(n.children)
  }

  function HeightOfAll(ns: seq<StructNode>): nat
  {
    if ns == [] then 0
    else
      var h := Height(ns[|ns| - 1]);
      var rest := HeightOfAll(ns[..|ns| - 1]);
      if h > rest then h else rest
  }

  lemma {:induction false} HeightOfAllBound(ns: seq<StructNode>, bound: nat)
    requires forall i :: 0 <= i < |ns| ==> Height(ns[i]) <= bound
    ensures HeightOfAll(ns) <= bound
  {
    if ns != [] {
      HeightOfAllBound(ns[..|ns| - 1], bound);
    }
  }

  lemma {:induction false} KeepSomeMembers<T>(s: seq<Option<T>>)
    ensures forall x :: x in KeepSome(s) ==> Some(x) in s
  {
    if s != [] {
      KeepSomeMembers(s[..|s| - 1]);
      assert forall y :: y in s[..|s| - 1] ==> y in s;
    }
  }

  /** A box is pruned exactly when it is below level 3 or has neither width
      nor height (one zero dimension alone does not prune it). */
  lemma ExtractPrunes(el: DomNode, depth: nat)
    ensures Extract(el, depth).None? <==> (depth > MaxDepth || (el.rect.w == 0 && el.rect.h == 0))
  {
  }

  /** A box reported at `depth` has at most `4 - depth` levels, so the tree
      from the body has at most four. */
  lemma {:induction false} ExtractHeight(el: DomNode, depth: nat)
    requires Extract(el, depth).Some?
    ensures depth <= MaxDepth
    ensures Height(Extract(el, depth).value) <= MaxDepth + 1 - depth
    decreases MaxDepth + 1 - depth
  {
    var children := Extract(el, depth).value.children;
    var results := ChildResults(el, depth);
    KeepSomeMembers(results);
    forall i | 0 <= i < |children| ensures Height(children[i]) <= MaxDepth - depth {
      assert children[i] in KeepSome(results);
      var k :| 0 <= k < |results| && results[k] == Some(children[i]);
      ExtractHeight(el.children[k], depth + 1);
    }
    HeightOfAllBound(children, MaxDepth - depth);
  }

  /** A reported box keeps at most five non-empty class names, records every
      element child in `childCount`, and lists no more children than that:
      the pruned ones are left out. */
  lemma ExtractShape(el: DomNode, depth: nat)
    requires Extract(el, depth).Some?
    ensures var n := Extract(el, depth).value;
      && |n.classes| <= 5
      && (forall i :: 0 <= i < |n.classes| ==> n.classes[i] != "")
      && n.childCount == |el.children|
      && |n.children| <= n.childCount
      && n.children == KeepSome(ChildResults(el, depth))
  {
  }

  /** Inert styles are absent, and every other value is reported as read. */
  lemma ExtractDropsInertStyles(el: DomNode, depth: nat)
    requires Extract(el, depth).Some?
    ensures var n := Extract(el, depth).value; var cs := el.style;
      && (n.transition.None? <==> cs.transition == "all 0s ease 0s")
      && (n.backgroundColor.None? <==> cs.backgroundColor == "rgba(0, 0, 0, 0)")
      && (n.borderRight.None? <==> cs.borderRight in {"none", "0px none rgb(0, 0, 0)"})
      && (n.borderBottom.None? <==> cs.borderBottom in {"none", "0px none rgb(0, 0, 0)"})
      && (n.zIndex.None? <==> cs.zIndex == "auto")
      && (n.boxShadow.None? <==> cs.boxShadow == "none")
      && (n.id.None? <==> el.id == "")
  {
  }

  // ---------------------------------------------------------------------
  // 2. Content inventory
  // ---------------------------------------------------------------------

  datatype TabGroup = TabGroup(tabCount: nat, labels: seq<string>)
  datatype Dropdown = Dropdown(text: string, optionCount: nat)

  datatype ContentInventory = ContentInventory(tabGroups: seq<TabGroup>, hiddenPanels: nat,
    dropdowns: seq<Dropdown>, forms: nat, scrollableRegions: nat)

  /** The overflow styles of one element. */
  datatype Overflow = Overflow(overflow: string, overflowX: string, overflowY: string)

  predicate ScrollsValue(v: string) { v == "auto" || v == "scroll" }

  predicate Scrollable(o: Overflow)
  {
    ScrollsValue(o.overflow) || ScrollsValue(o.overflowX) || ScrollsValue(o.overflowY)
  }

  /** Elements that can scroll on some axis, plus all tables (`overflows` lists
      every element of the document): the number of positions whose element
      scrolls, plus the tables; hence at least the tables, at most every
      element and table, and exactly the tables when nothing scrolls. */
  function ScrollableRegions(overflows: seq<Overflow>, tableCount: nat): (r: nat)
    ensures r == |Positions(overflows, Scrollable)| + tableCount
    ensures tableCount <= r <= |overflows| + tableCount
    ensures r == tableCount <==> forall o :: o in overflows ==> !Scrollable(o)
  {
    var scrolling := Filter(overflows, Scrollable);
    FilterCount(overflows, Scrollable);
    assert scrolling != [] ==> scrolling[0] in scrolling;
    |scrolling| + tableCount
  }

  /** `tabGroups`, `dropdowns` and the counts, from the matched elements: the
      tab labels of each group, each trimmed; each dropdown's trimmed text cut
      to 30 characters, and its option count; the counts as read, and the
      scrolling elements plus the tables. */
  function Inventory(tabLabels: seq<seq<string>>, hiddenPanels: nat, dropdownEls: seq<(string, nat)>,
                     forms: nat, overflows: seq<Overflow>, tableCount: nat): (r: ContentInventory)
    ensures |r.tabGroups| == |tabLabels|
    ensures forall i :: 0 <= i < |tabLabels| ==> r.tabGroups[i].tabCount == |r.tabGroups[i].labels| == |tabLabels[i]|
    ensures |r.dropdowns| == |dropdownEls|
    ensures forall i, j :: 0 <= i < |tabLabels| && 0 <= j < |tabLabels[i]| ==>
      r.tabGroups[i].labels[j] == Trim(tabLabels[i][j])
    ensures forall i :: 0 <= i < |dropdownEls| ==>
      var text := Trim(dropdownEls[i].0);
      r.dropdowns[i].text <= text && |r.dropdowns[i].text| == (if |text| < 30 then |text| else 30) &&
      r.dropdowns[i].optionCount == dropdownEls[i].1
    ensures r.hiddenPanels == hiddenPanels && r.forms == forms
    ensures r.scrollableRegions == |Positions(overflows, Scrollable)| + tableCount
  {
    ContentInventory(
      seq(|tabLabels|, i requires 0 <= i < |tabLabels| =>
        TabGroup(|tabLabels[i]|, seq(|tabLabels[i]|, j requires 0 <= j < |tabLabels[i]| => Trim(tabLabels[i][j])))),
      hiddenPanels,
      seq(|dropdownEls|, i requires 0 <= i < |dropdownEls| =>
        Dropdown(Take(Trim(dropdownEls[i].0), 30), dropdownEls[i].1)),
      forms,
      ScrollableRegions(overflows, tableCount))
  }

  // ---------------------------------------------------------------------
  // 3. Text nodes
  // ---------------------------------------------------------------------

  /** The typography of a text node's parent element. */
  datatype ParentStyle = ParentStyle(tag: string, fontSize: string, fontWeight: string, color: string,
    lineHeight: string, letterSpacing: string)

  /** A text node, the box of its contents and its parent element, if any. */
  datatype TextNode = TextNode(text: string, rect: Rect, parent: Option<ParentStyle>)

  datatype TextRecord = TextRecord(text: string, rect: Rect, parent: Option<ParentStyle>)

  /** The walker's filter: some non-whitespace text, and a box. */
  predicate WalkerAccepts(n: TextNode)
  {
    Trim(n.text) != "" && n.rect.w > 0 && n.rect.h > 0
  }

  function RecordOf(n: TextNode): TextRecord
  {
    TextRecord(Trim(n.text), n.rect, n.parent)
  }

  /** The records of the nodes the walker yields, in document order. */
  function TextRecords(nodes: seq<TextNode>): (r: seq<TextRecord>)
    ensures |r| == |Filter(nodes, WalkerAccepts)|
  {
    var walk := Filter(nodes, WalkerAccepts);
    seq(|walk|, i requires 0 <= i < |walk| => RecordOf(walk[i]))
  }

  /** `while (walker.nextNode()) textNodes.push(...)` */
  method CollectText(nodes: seq<TextNode>) returns (records: seq<TextRecord>)
    ensures records == TextRecords(nodes)
  {
    var walk := Filter(nodes, WalkerAccepts);
    records := [];
    for i := 0 to |walk|
      invariant |records| == i
      invariant forall k :: 0 <= k < i ==> records[k] == RecordOf(walk[k])
    {
      records := records + [RecordOf(walk[i])];
    }
  }

  /** Every record has non-empty trimmed text and a box. */
  lemma TextRecordsShape(nodes: seq<TextNode>)
    ensures forall r :: r in TextRecords(nodes) ==> r.text != "" && r.rect.w > 0 && r.rect.h > 0
  {
    var walk := Filter(nodes, WalkerAccepts);
    forall r | r in TextRecords(nodes) ensures r.text != "" && r.rect.w > 0 && r.rect.h > 0 {
      var k :| 0 <= k < |walk| && TextRecords(nodes)[k] == r;
      assert walk[k] in walk;
    }
  }

  // ---------------------------------------------------------------------
  // Result and size guard
  // ---------------------------------------------------------------------

  datatype LayoutResult = LayoutResult(structure: Option<StructNode>, contentInventory: ContentInventory,
    textNodes: seq<TextRecord>, truncated: bool, originalTextNodeCount: Option<nat>)

  /** Over budget: the first 150 text nodes, flagged, with the full count
      recorded; the tree and the inventory are untouched.  Otherwise nothing
      changes. */
  function Guard(result: LayoutResult, size: nat): (r: LayoutResult)
    ensures size <= Budget ==> r == result
    ensures r.structure == result.structure && r.contentInventory == result.contentInventory
    ensures size > Budget ==>
      && r.textNodes <= result.textNodes
      && |r.textNodes| == (if |result.textNodes| < 150 then |result.textNodes| else 150)
      && r.truncated
      && r.originalTextNodeCount == Some(|result.textNodes|)
  {
    if size > Budget then
      result.(textNodes := Take(result.textNodes, 150), truncated := true,
              originalTextNodeCount := Some(|result.textNodes|))
    else result
  }

  /** The whole script.  `measure` gives the length of the serialized result. */
  method ExtractLayout(body: DomNode, tabLabels: seq<seq<string>>, hiddenPanels: nat,
                       dropdownEls: seq<(string, nat)>, forms: nat, overflows: seq<Overflow>,
                       tableCount: nat, nodes: seq<TextNode>, measure: LayoutResult -> nat)
    returns (result: LayoutResult)
    ensures var u := LayoutResult(Extract(body, 0),
                                  Inventory(tabLabels, hiddenPanels, dropdownEls, forms, overflows, tableCount),
                                  TextRecords(nodes), false, None);
      result == Guard(u, measure(u))
  {
    var structure := Extract(body, 0);
    var inventory := Inventory(tabLabels, hiddenPanels, dropdownEls, forms, overflows, tableCount);
    var textNodes := CollectText(nodes);
    result := LayoutResult(structure, inventory, textNodes, false, None);
    result := Guard(result, measure(result));
  }
}
