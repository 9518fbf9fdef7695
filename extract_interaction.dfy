/** The content revealed by one interaction: the interactive elements, text
    nodes, form fields and form containers whose box starts inside a given
    region, with a size guard on the text nodes. */
module RegionContent {
  import opened Common
  import opened Selector
  import opened Throwing

  /** The region, substituted into the script before it runs; every bound is inclusive. */
  datatype Bounds = Bounds(xMin: int, xMax: int, yMin: int, yMax: int)

  /** The one bounds test of the script: a box with width whose top-left
      corner lies inside the region, edges included. */
  predicate InBounds(b: Bounds, r: Rect)
  {
    r.w > 0 && b.xMin <= r.x <= b.xMax && b.yMin <= r.y <= b.yMax
  }

  /** The corners of the region are inside it; a box one pixel beyond any edge
      is not; height plays no part. */
  lemma InBoundsInclusive(b: Bounds, r: Rect)
    requires b.xMin <= b.xMax && b.yMin <= b.yMax && r.w > 0
    ensures (r.x == b.xMin || r.x == b.xMax) && (r.y == b.yMin || r.y == b.yMax) ==> InBounds(b, r)
    ensures r.x == b.xMax + 1 || r.x == b.xMin - 1 || r.y == b.yMax + 1 || r.y == b.yMin - 1 ==> !InBounds(b, r)
    ensures InBounds(b, r) ==> InBounds(b, r.(h := 0))
  {
  }

  // ---------------------------------------------------------------------
  // 1. Interactive elements
  // ---------------------------------------------------------------------

  /** A matched element as read; `innerText` is `None` for an element that
      has none (an SVG element matched by `[aria-haspopup]`, say). */
  datatype ControlEl = ControlEl(tag: string, role: Option<string>, ariaExpanded: Option<string>,
    innerText: Option<string>, id: string, rect: Rect)

  datatype Control = Control(tag: string, role: Option<string>, ariaExpanded: Option<string>,
    text: string, rect: Rect, selector: Option<string>)

  /** The record for one element; `None` when `innerText.trim()` throws. */
  function ControlOf(e: ControlEl): (r: Option<Control>)
    ensures r.None? <==> e.innerText.None?
    ensures r.Some? ==> r.value.rect == e.rect && |r.value.text| <= 50
  {
    match e.innerText
    case None => None
    case Some(text) =>
      Some(Control(e.tag, e.role, e.ariaExpanded, Take(Trim(text), 50), e.rect,
        if e.id != "" then Some("#" + e.id) else None))
  }

  function ControlIn(b: Bounds): ControlEl -> bool
  {
    (e: ControlEl) => InBounds(b, e.rect)
  }

  /** The controls whose box starts inside the region, in document order;
      `None` exactly when one of them has no `innerText`. */
  function Controls(b: Bounds, els: seq<ControlEl>): (r: Option<seq<Control>>)
    ensures r.None? <==> exists e :: e in els && InBounds(b, e.rect) && e.innerText.None?
    ensures r.Some? ==> |r.value| <= |els|
    ensures r.Some? ==> forall c :: c in r.value ==> InBounds(b, c.rect) && |c.text| <= 50
    ensures r.Some? ==> forall e :: e in els && InBounds(b, e.rect) ==>
              ControlOf(e).Some? && ControlOf(e).value in r.value
  {
    ControlsFacts(b, els);
    MapAll(Filter(els, ControlIn(b)), ControlOf)
  }

  lemma ControlsFacts(b: Bounds, els: seq<ControlEl>)
    ensures var r := MapAll(Filter(els, ControlIn(b)), ControlOf);
      && (r.None? <==> exists e :: e in els && InBounds(b, e.rect) && e.innerText.None?)
      && (r.Some? ==> forall c :: c in r.value ==> InBounds(b, c.rect) && |c.text| <= 50)
      && (r.Some? ==> forall e :: e in els && InBounds(b, e.rect) ==>
            ControlOf(e).Some? && ControlOf(e).value in r.value)
  {
    MapAllFilter(els, ControlIn(b), ControlOf);
    assert forall e :: ControlIn(b)(e) == InBounds(b, e.rect);
  }

  // ---------------------------------------------------------------------
  // 2. Text nodes
  // ---------------------------------------------------------------------

  datatype ParentStyle = ParentStyle(tag: string, fontSize: string, fontWeight: string, color: string)

  datatype TextNode = TextNode(text: string, rect: Rect, parent: Option<ParentStyle>)

  datatype TextRecord = TextRecord(text: string, rect: Rect, parent: Option<ParentStyle>)

  /** The walker's filter: some non-whitespace text, and inside the region. */
  predicate TextAccepted(b: Bounds, n: TextNode)
  {
    Trim(n.text) != "" && InBounds(b, n.rect)
  }

  function AcceptedIn(b: Bounds): TextNode -> bool
  {
    n => TextAccepted(b, n)
  }

  function RecordOf(n: TextNode): TextRecord
  {
    TextRecord(Trim(n.text), n.rect, n.parent)
  }

  function TextRecords(b: Bounds, nodes: seq<TextNode>): (r: seq<TextRecord>)
    ensures |r| == |Filter(nodes, AcceptedIn(b))|
  {
    var walk := Filter(nodes, AcceptedIn(b));
    seq(|walk|, i requires 0 <= i < |walk| => RecordOf(walk[i]))
  }

  /** `while (walker.nextNode()) textNodes.push(...)` */
  method CollectText(b: Bounds, nodes: seq<TextNode>) returns (records: seq<TextRecord>)
    ensures records == TextRecords(b, nodes)
  {
    var walk := Filter(nodes, AcceptedIn(b));
    records := [];
    for i := 0 to |walk|
      invariant |records| == i
      invariant forall k :: 0 <= k < i ==> records[k] == RecordOf(walk[k])
    {
      records := records + [RecordOf(walk[i])];
    }
  }

  /** A text record exists exactly for each node with non-whitespace text inside
      the region, and its text is non-empty. */
  lemma TextRecordsExact(b: Bounds, nodes: seq<TextNode>)
    ensures forall r :: r in TextRecords(b, nodes) ==> r.text != "" && InBounds(b, r.rect)
    ensures forall n :: n in nodes && Trim(n.text) != "" && InBounds(b, n.rect) ==> RecordOf(n) in TextRecords(b, nodes)
  {
    var walk := Filter(nodes, AcceptedIn(b));
    var recs := TextRecords(b, nodes);
    forall r | r in recs ensures r.text != "" && InBounds(b, r.rect) {
      var k :| 0 <= k < |walk| && recs[k] == r;
      assert walk[k] in walk;
    }
    forall n | n in nodes && Trim(n.text) != "" && InBounds(b, n.rect) ensures RecordOf(n) in recs {
      assert AcceptedIn(b)(n);
      var k :| 0 <= k < |walk| && walk[k] == n;
      assert recs[k] == RecordOf(n);
    }
  }

  // ---------------------------------------------------------------------
  // 3. Form fields and 4. containers
  // ---------------------------------------------------------------------

  datatype OptionEl = OptionEl(text: string, value: string, selected: bool)

  datatype FieldStyle = FieldStyle(backgroundColor: string, color: string, border: string,
    borderRadius: string, fontSize: string, fontWeight: string, padding: string,
    height: string, width: string)

  /** A field as read: `labels` is None when the element has no `labels` list. */
  datatype FieldEl = FieldEl(tag: string, typeProp: Option<string>, name: Option<string>,
    placeholderProp: Option<string>, value: Option<string>, labels: Option<seq<string>>,
    ariaLabel: Option<string>, placeholderAttr: Option<string>, options: seq<OptionEl>,
    rect: Rect, style: FieldStyle)

  datatype FieldOption = FieldOption(text: string, value: string, selected: bool)

  datatype Field = Field(tag: string, typeProp: Option<string>, name: Option<string>,
    placeholder: Option<string>, value: Option<string>, labelText: string,
    options: Option<seq<FieldOption>>, rect: Rect, style: FieldStyle)

  /** The label: the first associated label's trimmed text when there is one
      (even if empty), else the aria-label, else the placeholder attribute, else ''. */
  function Label(f: FieldEl): string
  {
    if f.labels.Some? && |f.labels.value| > 0 then Trim(f.labels.value[0])
    else OrElse(f.ariaLabel, OrElse(f.placeholderAttr, ""))
  }

  /** The fallback order of the label. */
  lemma LabelFallbacks(f: FieldEl)
    ensures f.labels.Some? && |f.labels.value| > 0 ==> Label(f) == Trim(f.labels.value[0])
    ensures (f.labels.None? || f.labels.value == []) && Truthy(f.ariaLabel) ==> Label(f) == f.ariaLabel.value
    ensures (f.labels.None? || f.labels.value == []) && !Truthy(f.ariaLabel) && Truthy(f.placeholderAttr)
            ==> Label(f) == f.placeholderAttr.value
    ensures (f.labels.None? || f.labels.value == []) && !Truthy(f.ariaLabel) && !Truthy(f.placeholderAttr)
            ==> Label(f) == ""
  {
  }

  /** `tagName === 'SELECT'`, read on the lower-case tag. */
  predicate IsSelect(f: FieldEl) { f.tag == "select" }

  function FieldOf(f: FieldEl): (r: Field)
    ensures r.options.Some? <==> IsSelect(f)
    ensures r.options.Some? ==> |r.options.value| == |f.options|
  {
    Field(f.tag, IfTruthy(f.typeProp), IfTruthy(f.name), IfTruthy(f.placeholderProp), IfTruthy(f.value),
      Label(f),
      if IsSelect(f) then
        Some(seq(|f.options|, i requires 0 <= i < |f.options| =>
          FieldOption(Trim(f.options[i].text), f.options[i].value, f.options[i].selected)))
      else None,
      f.rect, f.style)
  }

  function Fields(b: Bounds, els: seq<FieldEl>): (r: seq<Field>)
    ensures |r| <= |els|
    ensures forall x :: x in r ==> InBounds(b, x.rect)
    ensures forall f :: f in els && InBounds(b, f.rect) ==> FieldOf(f) in r
  {
    var kept := Filter(els, (f: FieldEl) => InBounds(b, f.rect));
    var r := seq(|kept|, i requires 0 <= i < |kept| => FieldOf(kept[i]));
    assert forall i :: 0 <= i < |kept| ==> kept[i] in kept;
    forall f | f in els && InBounds(b, f.rect) ensures FieldOf(f) in r {
      var k :| 0 <= k < |kept| && kept[k] == f;
      assert r[k] == FieldOf(f);
    }
    r
  }

  datatype ContainerStyle = ContainerStyle(display: string, flexDirection: string, gap: string,
    rowGap: string, columnGap: string, padding: string, gridTemplateColumns: string)

  datatype ContainerEl = ContainerEl(rect: Rect, style: ContainerStyle)

  function Containers(b: Bounds, els: seq<ContainerEl>): (r: seq<ContainerStyle>)
    ensures |r| == |Filter(els, (c: ContainerEl) => InBounds(b, c.rect))|
    ensures forall s :: s in r ==> exists c :: c in els && InBounds(b, c.rect) && c.style == s
  {
    var kept := Filter(els, (c: ContainerEl) => InBounds(b, c.rect));
    assert forall i :: 0 <= i < |kept| ==> kept[i] in kept;
    seq(|kept|, i requires 0 <= i < |kept| => kept[i].style)
  }

  // ---------------------------------------------------------------------
  // Result and size guard
  // ---------------------------------------------------------------------

  datatype RegionResult = RegionResult(interactiveElements: seq<Control>, textNodes: seq<TextRecord>,
    formFields: seq<Field>, formContainers: seq<ContainerStyle>, truncated: bool,
    originalTextNodeCount: Option<nat>)

  /** Over budget: the first 100 text nodes, flagged, with the full count
      recorded; the other sections untouched.  Otherwise nothing changes. */
  function Guard(result: RegionResult, size: nat): (r: RegionResult)
    ensures size <= Budget ==> r == result
    ensures r.interactiveElements == result.interactiveElements
    ensures r.formFields == result.formFields && r.formContainers == result.formContainers
    ensures size > Budget ==>
      && r.textNodes <= result.textNodes
      && |r.textNodes| == (if |result.textNodes| < 100 then |result.textNodes| else 100)
      && r.truncated
      && r.originalTextNodeCount == Some(|result.textNodes|)
  {
    if size > Budget then
      result.(textNodes := Take(result.textNodes, 100), truncated := true,
              originalTextNodeCount := Some(|result.textNodes|))
    else result
  }

  /** The result before the size guard; `None` when the script throws. */
  function Unguarded(b: Bounds, controls: seq<ControlEl>, nodes: seq<TextNode>,
                     fields: seq<FieldEl>, containers: seq<ContainerEl>): Option<RegionResult>
  {
    match Controls(b, controls)
    case None => None
    case Some(cs) =>
      Some(RegionResult(cs, TextRecords(b, nodes), Fields(b, fields), Containers(b, containers), false, None))
  }

  /** The whole script: `None` when it throws, which happens exactly when a
      control inside the region has no `innerText`.  `measure` gives the
      length of the serialized result. */
  method ExtractRegion(b: Bounds, controls: seq<ControlEl>, nodes: seq<TextNode>,
                       fields: seq<FieldEl>, containers: seq<ContainerEl>, measure: RegionResult -> nat)
    returns (result: Option<RegionResult>)
    ensures result.None? <==> exists e :: e in controls && InBounds(b, e.rect) && e.innerText.None?
    ensures result == match Unguarded(b, controls, nodes, fields, containers)
                      case None => None
                      case Some(u) => Some(Guard(u, measure(u)))
  {
    var interactive := Controls(b, controls);
    if interactive.None? {
      return None;
    }
    var textNodes := CollectText(b, nodes);
    var u := RegionResult(interactive.value, textNodes, Fields(b, fields), Containers(b, containers), false, None);
    return Some(Guard(u, measure(u)));
  }
}
