/** The consolidated visual extraction: the sidebar's items, the buttons,
    tables, images and SVG icons, and the typography (font families, the type
    scale and the colour palette).  Elements and their computed styles are
    given as input sequences in document order. */
module VisualExtraction {
  import opened Common
  import opened Selector
  import opened Throwing
  import opened Sorting
  import opened Keyed

  const TransparentBlack: string := "rgba(0, 0, 0, 0)"

  // ---------------------------------------------------------------------
  // 1. Sidebar
  // ---------------------------------------------------------------------

  datatype SideStyle = SideStyle(color: string, backgroundColor: string, fontSize: string,
    fontWeight: string, fontFamily: string, padding: string, borderRadius: string, gap: string,
    display: string, alignItems: string)

  /** A link or button inside the sidebar; `svg` is the markup of its first
      SVG; `innerText` is `None` for an element that has none (an SVG link). */
  datatype SideEl = SideEl(tag: string, href: Option<string>, innerText: Option<string>, rect: Rect,
    style: SideStyle, svg: Option<string>)

  datatype SideItem = SideItem(tag: string, href: Option<string>, innerText: string, rect: Rect,
    style: SideStyle, svg: Option<string>, isActive: bool)

  /** The sidebar container found by the first selector match, and its items. */
  datatype SidebarEl = SidebarEl(rect: Rect, items: seq<SideEl>)

  datatype Sidebar = Sidebar(items: seq<SideItem>, containerRect: Option<Rect>)

  /** `s.split('\n')[0]`: the text before the first line feed. */
  function FirstLine(s: string): (r: string)
    ensures r <= s
    ensures '\n' !in r
    ensures |r| < |s| ==> s[|r|] == '\n'
  {
    if s == [] || s[0] == '\n' then "" else [s[0]] + FirstLine(s[1..])
  }

  /** An item is highlighted when it has a background or a semibold or bold weight. */
  predicate IsActive(style: SideStyle)
  {
    style.backgroundColor != TransparentBlack || style.fontWeight == "600" || style.fontWeight == "700"
  }

  /** The item pushed for one link or button; `None` when `innerText.trim()` throws. */
  function SideItemOf(e: SideEl): (r: Option<SideItem>)
    ensures r.None? <==> e.innerText.None?
  {
    match e.innerText
    case None => None
    case Some(text) =>
      Some(SideItem(e.tag, IfTruthy(e.href), FirstLine(Trim(text)), e.rect, e.style,
        if e.svg.Some? then Some(Take(e.svg.value, 1500)) else None, IsActive(e.style)))
  }

  function HasArea(e: SideEl): bool { !e.rect.ZeroArea() }

  /** The sidebar section; `None` when the script throws on one of its items. */
  function SidebarOf(sidebar: Option<SidebarEl>): Option<Sidebar>
  {
    match sidebar
    case None => Some(Sidebar([], None))
    case Some(s) =>
      match MapAll(Filter(s.items, HasArea), SideItemOf)
      case None => None
      case Some(items) => Some(Sidebar(items, Some(s.rect)))
  }

  /** The `forEach` that pushes one item per sidebar link or button with area. */
  method CollectSidebar(sidebar: Option<SidebarEl>) returns (result: Option<Sidebar>)
    ensures result == SidebarOf(sidebar)
  {
    if sidebar.None? {
      return Some(Sidebar([], None));
    }
    var els := sidebar.value.items;
    var items := [];
    for i := 0 to |els|
      invariant MapAll(Filter(els[..i], HasArea), SideItemOf) == Some(items)
    {
      assert els[..i + 1] == els[..i] + [els[i]];
      FilterAppend(els[..i], els[i], HasArea);
      if els[i].rect.ZeroArea() {
        assert Filter(els[..i + 1], HasArea) == Filter(els[..i], HasArea);
        continue;
      }
      assert Filter(els[..i + 1], HasArea) == Filter(els[..i], HasArea) + [els[i]];
      var item := SideItemOf(els[i]);
      if item.None? {
        var kept := Filter(els, HasArea);
        assert els[i] in els && HasArea(els[i]);
        var k :| 0 <= k < |kept| && kept[k] == els[i];
        return None;
      }
      MapAllAppend(Filter(els[..i], HasArea), els[i], SideItemOf);
      items := items + [item.value];
    }
    assert els[..|els|] == els;
    return Some(Sidebar(items, Some(sidebar.value.rect)));
  }

  /** The script throws in the sidebar exactly when a sidebar link or button
      with area has no `innerText`.  Otherwise every item has area, its text
      is one line, its icon markup is at most 1500 characters, and it is
      active exactly when it has a background or a weight of 600 or 700; an
      item is listed for every link with area. */
  lemma SidebarItems(sidebar: Option<SidebarEl>)
    ensures var r := SidebarOf(sidebar);
      && (r.None? <==> sidebar.Some? && exists e :: e in sidebar.value.items && !e.rect.ZeroArea() && e.innerText.None?)
      && (sidebar.None? ==> r == Some(Sidebar([], None)))
      && (r.Some? ==> forall it :: it in r.value.items ==>
            && !it.rect.ZeroArea()
            && '\n' !in it.innerText
            && (it.svg.Some? ==> |it.svg.value| <= 1500)
            && (it.isActive <==> it.style.backgroundColor != TransparentBlack
                                 || it.style.fontWeight == "600" || it.style.fontWeight == "700"))
      && (r.Some? && sidebar.Some? ==> forall e :: e in sidebar.value.items && !e.rect.ZeroArea() ==>
            SideItemOf(e).Some? && SideItemOf(e).value in r.value.items)
  {
    if sidebar.Some? {
      MapAllFilter(sidebar.value.items, HasArea, SideItemOf);
      assert forall e :: HasArea(e) == !e.rect.ZeroArea();
    }
  }

  // ---------------------------------------------------------------------
  // 2. Buttons, 3. tables, 4. images, 5. SVG icons
  // ---------------------------------------------------------------------

  datatype ButtonStyle = ButtonStyle(backgroundColor: string, color: string, border: string,
    borderRadius: string, fontSize: string, fontWeight: string, padding: string)

  /** A matched button; `innerText` is `None` for an element that has none. */
  datatype ButtonEl = ButtonEl(innerText: Option<string>, rect: Rect, style: ButtonStyle, href: Option<string>)

  datatype Button = Button(text: string, rect: Rect, style: ButtonStyle, href: Option<string>)

  function Wide(e: ButtonEl): bool { e.rect.w > 80 }

  /** The record for one button; `None` when `innerText.trim()` throws. */
  function ButtonOf(e: ButtonEl): (r: Option<Button>)
    ensures r.None? <==> e.innerText.None?
  {
    match e.innerText
    case None => None
    case Some(text) => Some(Button(Trim(text), e.rect, e.style, IfTruthy(e.href)))
  }

  /** The buttons wider than 80 pixels, in document order; `None` exactly
      when one of them has no `innerText`. */
  function Buttons(els: seq<ButtonEl>): (r: Option<seq<Button>>)
    ensures r.None? <==> exists e :: e in els && e.rect.w > 80 && e.innerText.None?
    ensures r.Some? ==> forall b :: b in r.value ==> b.rect.w > 80
    ensures r.Some? ==> forall e :: e in els && e.rect.w > 80 ==>
              ButtonOf(e).Some? && ButtonOf(e).value in r.value
  {
    ButtonsFacts(els);
    MapAll(Filter(els, Wide), ButtonOf)
  }

  lemma ButtonsFacts(els: seq<ButtonEl>)
    ensures var r := MapAll(Filter(els, Wide), ButtonOf);
      && (r.None? <==> exists e :: e in els && e.rect.w > 80 && e.innerText.None?)
      && (r.Some? ==> forall b :: b in r.value ==> b.rect.w > 80)
      && (r.Some? ==> forall e :: e in els && e.rect.w > 80 ==>
            ButtonOf(e).Some? && ButtonOf(e).value in r.value)
  {
    MapAllFilter(els, Wide, ButtonOf);
    assert forall e :: Wide(e) == (e.rect.w > 80);
  }

  datatype CellStyle = CellStyle(backgroundColor: string, padding: string, fontSize: string,
    fontWeight: string, position: string, left: string, right: string, zIndex: string,
    width: string, borderBottom: string)

  datatype HeaderEl = HeaderEl(textContent: string, style: CellStyle)

  datatype Header = Header(text: string, style: CellStyle)

  /** A table; `firstRow` holds the cell styles of the first body row, if any. */
  datatype TableEl = TableEl(display: string, tableLayout: string, borderCollapse: string,
    headers: seq<HeaderEl>, firstRow: Option<seq<CellStyle>>)

  datatype Table = Table(display: string, tableLayout: string, borderCollapse: string,
    headers: seq<Header>, sampleCells: seq<CellStyle>)

  function HeaderOf(h: HeaderEl): Header { Header(Trim(h.textContent), h.style) }

  /** Every table is listed, with one header per `th` and the cells of its
      first body row (none when it has no body row). */
  function TableOf(t: TableEl): (r: Table)
    ensures |r.headers| == |t.headers|
    ensures t.firstRow.None? ==> r.sampleCells == []
    ensures t.firstRow.Some? ==> r.sampleCells == t.firstRow.value
  {
    Table(t.display, t.tableLayout, t.borderCollapse, Project(t.headers, HeaderOf),
      if t.firstRow.Some? then t.firstRow.value else [])
  }

  datatype ImageEl = ImageEl(src: string, alt: string, rect: Rect, borderRadius: string)

  function Visible5(e: ImageEl): bool { e.rect.w > 5 && e.rect.h > 5 }

  /** The images larger than 5 x 5 pixels, in document order, as read. */
  function Images(els: seq<ImageEl>): (r: seq<ImageEl>)
    ensures forall i :: i in r ==> i.rect.w > 5 && i.rect.h > 5
    ensures forall e :: e in els && e.rect.w > 5 && e.rect.h > 5 ==> e in r
  {
    assert forall e :: e in els && e.rect.w > 5 && e.rect.h > 5 ==> Visible5(e);
    Filter(els, Visible5)
  }

  /** The nearest enclosing link, button, list item or div of an icon. */
  datatype IconParent = IconParent(className: string, tagName: string, textContent: string)

  datatype SvgEl = SvgEl(outerHTML: string, rect: Rect, parent: Option<IconParent>)

  datatype Icon = Icon(outerHTML: string, rect: Rect, parentSelector: string, parentText: string)

  function Drawn(e: SvgEl): bool { e.rect.w > 0 && e.rect.h > 0 }

  function IconOf(e: SvgEl): Icon
  {
    Icon(Take(e.outerHTML, 2000), e.rect,
      if e.parent.None? then "unknown" else if e.parent.value.className != "" then e.parent.value.className
      else e.parent.value.tagName,
      if e.parent.None? then "" else Take(Trim(e.parent.value.textContent), 50))
  }

  /** The drawn icons, their markup cut at 2000 characters; without an
      enclosing container the parent reads `unknown` and its text is empty. */
  function Icons(els: seq<SvgEl>): (r: seq<Icon>)
    ensures forall i :: i in r ==> i.rect.w > 0 && i.rect.h > 0 && |i.outerHTML| <= 2000 && |i.parentText| <= 50
    ensures forall e :: e in els && e.rect.w > 0 && e.rect.h > 0 ==> IconOf(e) in r
    ensures forall e :: e in els && e.rect.w > 0 && e.rect.h > 0 && e.parent.None? ==>
      Icon(Take(e.outerHTML, 2000), e.rect, "unknown", "") in r
  {
    var kept := Filter(els, Drawn);
    ProjectMembers(kept, IconOf);
    assert forall e :: e in els && e.rect.w > 0 && e.rect.h > 0 ==> Drawn(e);
    Project(kept, IconOf)
  }

  // ---------------------------------------------------------------------
  // 6. Typography
  // ---------------------------------------------------------------------

  datatype TypeEl = TypeEl(tag: string, textContent: string, rect: Rect, fontSize: string,
    fontWeight: string, lineHeight: string, letterSpacing: string, fontFamily: string, color: string)

  datatype TypeEntry = TypeEntry(tag: string, sample: string, fontSize: string, fontWeight: string,
    lineHeight: string, letterSpacing: string, fontFamily: string, color: string)

  function Shown(e: TypeEl): bool { !e.rect.ZeroArea() }

  /** `fontSize|fontWeight|lineHeight` */
  function TypeKey(e: TypeEl): string { e.fontSize + "|" + e.fontWeight + "|" + e.lineHeight }

  function Family(e: TypeEl): string { e.fontFamily }

  function EntryOf(e: TypeEl): TypeEntry
  {
    TypeEntry(e.tag, Take(Trim(e.textContent), 40), e.fontSize, e.fontWeight, e.lineHeight,
      e.letterSpacing, e.fontFamily, e.color)
  }

  function EntryKey(t: TypeEntry): string { t.fontSize + "|" + t.fontWeight + "|" + t.lineHeight }

  /** The font families of the shown elements, each once, in first-seen order. */
  function FontFamilies(els: seq<TypeEl>): seq<string>
  {
    Project(FirstPerKey(Filter(els, Shown), Family), Family)
  }

  /** One entry per distinct key, taken from the first shown element with it. */
  function TypeScaleUnsorted(els: seq<TypeEl>): seq<TypeEntry>
  {
    Project(FirstPerKey(Filter(els, Shown), TypeKey), EntryOf)
  }

  /** The sets and lists of the typography loop after the shown elements `shown`. */
  ghost predicate TypeState(fonts: seq<string>, fontSet: set<string>, typeScale: seq<TypeEntry>,
                            seen: set<string>, shown: seq<TypeEl>)
  {
    && fonts == Project(FirstPerKey(shown, Family), Family) && fontSet == KeySet(shown, Family)
    && typeScale == Project(FirstPerKey(shown, TypeKey), EntryOf) && seen == KeySet(shown, TypeKey)
  }

  /** One shown element: record its family, and an entry if its key is new. */
  method RecordType(fonts: seq<string>, fontSet: set<string>, typeScale: seq<TypeEntry>, seen: set<string>,
                    ghost shown: seq<TypeEl>, e: TypeEl)
    returns (fonts': seq<string>, fontSet': set<string>, typeScale': seq<TypeEntry>, seen': set<string>)
    requires TypeState(fonts, fontSet, typeScale, seen, shown)
    ensures TypeState(fonts', fontSet', typeScale', seen', shown + [e])
  {
    fonts', fontSet', typeScale', seen' := fonts, fontSet, typeScale, seen;
    FirstPerKeyStep(shown, e, Family);
    FirstPerKeyStep(shown, e, TypeKey);
    if e.fontFamily !in fontSet {
      ProjectAppend(FirstPerKey(shown, Family), e, Family);
      fonts' := fonts + [e.fontFamily];
    }
    fontSet' := fontSet + {e.fontFamily};
    if TypeKey(e) !in seen {
      ProjectAppend(FirstPerKey(shown, TypeKey), e, EntryOf);
      seen' := seen + {TypeKey(e)};
      typeScale' := typeScale + [EntryOf(e)];
    }
  }

  /** The loop over the text elements: skip those without area, record the
      family, and record an entry for a key not seen before. */
  method ScanTypography(els: seq<TypeEl>) returns (fonts: seq<string>, typeScale: seq<TypeEntry>)
    ensures fonts == FontFamilies(els)
    ensures typeScale == TypeScaleUnsorted(els)
  {
    var fontSet: set<string> := {};
    var seen: set<string> := {};
    fonts, typeScale := [], [];
    ghost var shown: seq<TypeEl> := [];
    for i := 0 to |els|
      invariant shown == Filter(els[..i], Shown)
      invariant TypeState(fonts, fontSet, typeScale, seen, shown)
    {
      var e := els[i];
      assert els[..i + 1] == els[..i] + [e];
      FilterAppend(els[..i], e, Shown);
      if !e.rect.ZeroArea() {
        fonts, fontSet, typeScale, seen := RecordType(fonts, fontSet, typeScale, seen, shown, e);
        shown := shown + [e];
      }
    }
    assert els[..|els|] == els;
  }

  /** `parseFloat(b.fontSize) - parseFloat(a.fontSize)`: larger sizes first;
      `size` is the numeric value of a font-size string. */
  function SizeKey(size: string -> int): TypeEntry -> Key
  {
    (t: TypeEntry) => Key(-size(t.fontSize), 0)
  }

  function TypeScale(els: seq<TypeEl>, size: string -> int): seq<TypeEntry>
  {
    Take(SortByKey(TypeScaleUnsorted(els), SizeKey(size)), 15)
  }

  /** `els[k]` is shown, no shown element before it has its key, and `t` is its entry. */
  predicate FirstShownWith(els: seq<TypeEl>, k: int, t: TypeEntry)
  {
    && 0 <= k < |els| && !els[k].rect.ZeroArea() && t == EntryOf(els[k])
    && forall j :: 0 <= j < k && !els[j].rect.ZeroArea() ==> TypeKey(els[j]) != TypeKey(els[k])
  }

  /** No key has two entries before sorting. */
  lemma TypeScaleUnsortedDistinct(els: seq<TypeEl>)
    ensures KeysDistinct(TypeScaleUnsorted(els), EntryKey)
  {
    var firsts := FirstPerKey(Filter(els, Shown), TypeKey);
    var unsorted := TypeScaleUnsorted(els);
    FirstPerKeyDistinct(Filter(els, Shown), TypeKey);
    forall i | 0 <= i < |unsorted| ensures EntryKey(unsorted[i]) == TypeKey(firsts[i]) {
      assert unsorted[i] == EntryOf(firsts[i]);
    }
    KeysDistinctCarry(firsts, TypeKey, unsorted, EntryKey);
  }

  /** The type scale holds at most 15 entries, largest size first, and each
      key at most once. */
  lemma TypeScaleOrdered(els: seq<TypeEl>, size: string -> int)
    ensures var all := SortByKey(TypeScaleUnsorted(els), SizeKey(size));
      var r := TypeScale(els, size);
      && r <= all && |r| <= 15
      && (forall i, j :: 0 <= i < j < |all| ==> size(all[i].fontSize) >= size(all[j].fontSize))
      && KeysDistinct(all, EntryKey)
  {
    var unsorted := TypeScaleUnsorted(els);
    var all := SortByKey(unsorted, SizeKey(size));
    SortByKeySorted(unsorted, SizeKey(size));
    assert forall i, j :: 0 <= i < j < |all| ==> KeyLe(SizeKey(size)(all[i]), SizeKey(size)(all[j]));
    TypeScaleUnsortedDistinct(els);
    ReorderKeepsKeysDistinct(unsorted, all, EntryKey);
  }

  /** Every key of a shown element has an entry before sorting. */
  lemma TypeScaleUnsortedCovers(els: seq<TypeEl>)
    ensures forall e :: e in els && !e.rect.ZeroArea() ==>
      exists t :: t in TypeScaleUnsorted(els) && EntryKey(t) == TypeKey(e)
  {
    var shown := Filter(els, Shown);
    var firsts := FirstPerKey(shown, TypeKey);
    var unsorted := TypeScaleUnsorted(els);
    FirstPerKeyKeys(shown, TypeKey);
    forall i | 0 <= i < |unsorted| ensures EntryKey(unsorted[i]) == TypeKey(firsts[i]) {
      assert unsorted[i] == EntryOf(firsts[i]);
    }
    KeySetCarry(firsts, TypeKey, unsorted, EntryKey);
    forall e | e in els && !e.rect.ZeroArea() ensures exists t :: t in unsorted && EntryKey(t) == TypeKey(e) {
      assert Shown(e);
      var k :| 0 <= k < |shown| && shown[k] == e;
      assert TypeKey(e) in KeySet(unsorted, EntryKey);
      var j :| 0 <= j < |unsorted| && EntryKey(unsorted[j]) == TypeKey(e);
      assert unsorted[j] in unsorted;
    }
  }

  /** Every key of a shown element has an entry in the sorted list. */
  lemma TypeScaleCovers(els: seq<TypeEl>, size: string -> int)
    ensures var all := SortByKey(TypeScaleUnsorted(els), SizeKey(size));
      forall e :: e in els && !e.rect.ZeroArea() ==> exists t :: t in all && EntryKey(t) == TypeKey(e)
  {
    var unsorted := TypeScaleUnsorted(els);
    var all := SortByKey(unsorted, SizeKey(size));
    TypeScaleUnsortedCovers(els);
    forall e | e in els && !e.rect.ZeroArea() ensures exists t :: t in all && EntryKey(t) == TypeKey(e) {
      var t :| t in unsorted && EntryKey(t) == TypeKey(e);
      assert t in multiset(all);
    }
  }

  /** Each entry is taken from the first shown element with its key. */
  lemma TypeScaleFirsts(els: seq<TypeEl>, size: string -> int)
    ensures var all := SortByKey(TypeScaleUnsorted(els), SizeKey(size));
      forall t :: t in all ==> exists k :: FirstShownWith(els, k, t)
  {
    var shown := Filter(els, Shown);
    var unsorted := TypeScaleUnsorted(els);
    var all := SortByKey(unsorted, SizeKey(size));
    var pos := FirstPerKeyPositions(shown, TypeKey);
    forall t | t in all
      ensures exists k :: FirstShownWith(els, k, t)
    {
      assert t in multiset(unsorted);
      var m :| 0 <= m < |unsorted| && unsorted[m] == t;
      var k := FirstShownOfKey(els, pos[m]);
      assert FirstShownWith(els, k, t);
    }
  }

  /** The position among all elements of the `p`-th shown element, when it is
      the first shown element of its key. */
  lemma FirstShownOfKey(els: seq<TypeEl>, p: nat) returns (k: nat)
    requires p < |Filter(els, Shown)| && FirstOfKey(Filter(els, Shown), TypeKey, p)
    ensures k < |els| && els[k] == Filter(els, Shown)[p] && !els[k].rect.ZeroArea()
    ensures forall j :: 0 <= j < k && !els[j].rect.ZeroArea() ==> TypeKey(els[j]) != TypeKey(els[k])
  {
    var shown := Filter(els, Shown);
    var pos := FilterPositions(els, Shown);
    k := pos[p];
    assert shown[p] in shown;
    forall j | 0 <= j < k && !els[j].rect.ZeroArea() ensures TypeKey(els[j]) != TypeKey(els[k]) {
      assert Shown(els[j]);
      var q :| 0 <= q < |pos| && pos[q] == j;
      assert q < p;
      assert shown[..p][q] == shown[q];
    }
  }

  // ---------------------------------------------------------------------
  // Colour palette
  // ---------------------------------------------------------------------

  datatype ColorEl = ColorEl(color: string, backgroundColor: string, borderColor: string)

  datatype PaletteEntry = PaletteEntry(color: string, count: nat)

  /** A colour that is counted: not empty, not transparent black, not `transparent`. */
  function Countable(c: string): bool
  {
    c != "" && c != TransparentBlack && c != "transparent"
  }

  /** The three colours read per element, element by element. */
  function Values(els: seq<ColorEl>): seq<string>
  {
    if els == [] then []
    else
      var e := els[|els| - 1];
      Values(els[..|els| - 1]) + [e.color, e.backgroundColor, e.borderColor]
  }

  /** The `colors` Map as counts: `colors.set(c, (colors.get(c) || 0) + 1)`. */
  function Tally(vs: seq<string>): map<string, nat>
  {
    if vs == [] then map[]
    else
      var m := Tally(vs[..|vs| - 1]);
      var c := vs[|vs| - 1];
      if Countable(c) then m[c := (if c in m then m[c] else 0) + 1] else m
  }

  function SameText(c: string): string { c }

  /** The Map's keys in insertion order: the counted colours, first-seen order. */
  function ColorOrder(vs: seq<string>): seq<string>
  {
    FirstPerKey(Filter(vs, Countable), SameText)
  }

  /** Exactly the counted colours are keys, each mapped to its number of
      occurrences. */
  lemma {:induction false} TallyCounts(vs: seq<string>)
    ensures forall c :: c in Tally(vs) <==> Countable(c) && c in vs
    ensures forall c :: c in Tally(vs) ==> Tally(vs)[c] == multiset(vs)[c]
  {
    if vs != [] {
      var init := vs[..|vs| - 1];
      TallyCounts(init);
      assert vs == init + [vs[|vs| - 1]];
    }
  }

  /** One more colour read: counted when countable. */
  lemma TallyStep(vs: seq<string>, c: string)
    ensures Tally(vs + [c]) == if Countable(c) then Tally(vs)[c := (if c in Tally(vs) then Tally(vs)[c] else 0) + 1]
                               else Tally(vs)
  {
    assert (vs + [c])[..|vs|] == vs;
  }

  /** One more colour read: appended to the order when countable and new. */
  lemma ColorOrderStep(vs: seq<string>, c: string)
    ensures ColorOrder(vs + [c]) == if Countable(c) && c !in Tally(vs) then ColorOrder(vs) + [c] else ColorOrder(vs)
  {
    var kept := Filter(vs, Countable);
    FilterAppend(vs, c, Countable);
    if Countable(c) {
      assert Filter(vs + [c], Countable) == kept + [c];
      FirstPerKeyStep(kept, c, SameText);
      TallyCounts(vs);
      assert c in KeySet(kept, SameText) <==> c in Tally(vs) by {
        if c in Tally(vs) {
          assert c in kept;
          var m :| 0 <= m < |kept| && kept[m] == c;
          assert SameText(kept[m]) == c;
        }
        if c in KeySet(kept, SameText) {
          var m :| 0 <= m < |kept| && SameText(kept[m]) == c;
          assert kept[m] in kept;
        }
      }
    } else {
      assert Filter(vs + [c], Countable) == kept;
    }
  }

  /** One colour read by the counting loop. */
  method CountOne(counts: map<string, nat>, order: seq<string>, ghost vs: seq<string>, c: string)
    returns (counts': map<string, nat>, order': seq<string>)
    requires counts == Tally(vs) && order == ColorOrder(vs)
    ensures counts' == Tally(vs + [c]) && order' == ColorOrder(vs + [c])
  {
    counts', order' := counts, order;
    TallyStep(vs, c);
    ColorOrderStep(vs, c);
    if Countable(c) {
      if c !in counts {
        order' := order + [c];
      }
      counts' := counts[c := (if c in counts then counts[c] else 0) + 1];
    }
  }

  /** The colours of one more element. */
  lemma ValuesStep(els: seq<ColorEl>, i: nat)
    requires i < |els|
    ensures Values(els[..i + 1]) == Values(els[..i]) + [els[i].color, els[i].backgroundColor, els[i].borderColor]
  {
    assert els[..i + 1][..i] == els[..i];
  }

  /** The inner `forEach` over one element's three colours. */
  method CountElement(counts: map<string, nat>, order: seq<string>, ghost before: seq<string>, e: ColorEl)
    returns (counts': map<string, nat>, order': seq<string>)
    requires counts == Tally(before) && order == ColorOrder(before)
    ensures var vs := before + [e.color, e.backgroundColor, e.borderColor];
      counts' == Tally(vs) && order' == ColorOrder(vs)
  {
    var three := [e.color, e.backgroundColor, e.borderColor];
    counts', order' := counts, order;
    ghost var vs := before;
    for j := 0 to 3
      invariant vs == before + three[..j]
      invariant counts' == Tally(vs) && order' == ColorOrder(vs)
    {
      assert three[..j + 1] == three[..j] + [three[j]];
      counts', order' := CountOne(counts', order', vs, three[j]);
      vs := vs + [three[j]];
    }
    assert three[..3] == three;
  }

  /** The two nested `forEach` loops over the elements and their three colours. */
  method CountColors(els: seq<ColorEl>) returns (counts: map<string, nat>, order: seq<string>)
    ensures counts == Tally(Values(els)) && order == ColorOrder(Values(els))
  {
    counts, order := map[], [];
    for i := 0 to |els|
      invariant counts == Tally(Values(els[..i])) && order == ColorOrder(Values(els[..i]))
    {
      ValuesStep(els, i);
      counts, order := CountElement(counts, order, Values(els[..i]), els[i]);
    }
    assert els[..|els|] == els;
  }

  function EntryFor(counts: map<string, nat>): string -> PaletteEntry
  {
    (c: string) => PaletteEntry(c, if c in counts then counts[c] else 0)
  }

  /** The Map's entries in insertion order. */
  function Counted(vs: seq<string>): seq<PaletteEntry>
  {
    Project(ColorOrder(vs), EntryFor(Tally(vs)))
  }

  function ColorOf(p: PaletteEntry): string { p.color }

  /** `b[1] - a[1]`: the most frequent colour first. */
  function CountKey(p: PaletteEntry): Key { Key(0 - p.count as int, 0) }

  function Palette(els: seq<ColorEl>): seq<PaletteEntry>
  {
    Take(SortByKey(Counted(Values(els)), CountKey), 20)
  }

  /** The Map holds each colour once. */
  lemma CountedDistinct(vs: seq<string>)
    ensures KeysDistinct(Counted(vs), ColorOf)
  {
    var kept := Filter(vs, Countable);
    var order := ColorOrder(vs);
    var counted := Counted(vs);
    FirstPerKeyDistinct(kept, SameText);
    forall i | 0 <= i < |counted| ensures ColorOf(counted[i]) == SameText(order[i]) {
    }
    KeysDistinctCarry(order, SameText, counted, ColorOf);
  }

  /** Each counted colour once, with its number of occurrences, and every
      counted colour read: the Map before sorting. */
  lemma CountedExact(vs: seq<string>)
    ensures KeysDistinct(Counted(vs), ColorOf)
    ensures forall p :: p in Counted(vs) ==> Countable(p.color) && p.count == multiset(vs)[p.color] && p.count > 0
    ensures forall c :: c in vs && Countable(c) ==> exists p :: p in Counted(vs) && p.color == c
  {
    var kept := Filter(vs, Countable);
    var order := ColorOrder(vs);
    var counted := Counted(vs);
    TallyCounts(vs);
    CountedDistinct(vs);
    var pos := FirstPerKeyPositions(kept, SameText);
    forall p | p in counted ensures Countable(p.color) && p.count == multiset(vs)[p.color] && p.count > 0 {
      var m :| 0 <= m < |counted| && counted[m] == p;
      assert kept[pos[m]] in kept;
    }
    forall c | c in vs && Countable(c) ensures exists p :: p in counted && p.color == c {
      assert c in kept;
      var k :| 0 <= k < |kept| && kept[k] == c;
      assert SameText(c) in KeySet(order, SameText);
      var m :| 0 <= m < |order| && SameText(order[m]) == c;
      assert counted[m].color == c;
    }
  }

  /** The palette holds at most 20 colours, most frequent first, each colour once. */
  lemma PaletteOrdered(els: seq<ColorEl>)
    ensures var all := SortByKey(Counted(Values(els)), CountKey);
      var r := Palette(els);
      && r <= all && |r| <= 20
      && (forall i, j :: 0 <= i < j < |all| ==> all[i].count >= all[j].count)
      && KeysDistinct(all, ColorOf)
  {
    var counted := Counted(Values(els));
    var all := SortByKey(counted, CountKey);
    SortByKeySorted(counted, CountKey);
    forall i, j | 0 <= i < j < |all| ensures all[i].count >= all[j].count {
      assert KeyLe(CountKey(all[i]), CountKey(all[j]));
    }
    CountedDistinct(Values(els));
    ReorderKeepsKeysDistinct(counted, all, ColorOf);
  }

  /** Each ranked colour is a counted one with its number of occurrences, and
      every counted colour is ranked before the cut. */
  lemma PaletteCounts(els: seq<ColorEl>)
    ensures var vs := Values(els);
      var all := SortByKey(Counted(vs), CountKey);
      && (forall p :: p in all ==> Countable(p.color) && p.count == multiset(vs)[p.color] && p.count > 0)
      && (forall c :: c in vs && Countable(c) ==> exists p :: p in all && p.color == c)
  {
    var vs := Values(els);
    var counted := Counted(vs);
    var all := SortByKey(counted, CountKey);
    CountedExact(vs);
    forall p | p in all ensures p in counted {
      assert p in multiset(counted);
    }
    forall c | c in vs && Countable(c) ensures exists p :: p in all && p.color == c {
      var p :| p in counted && p.color == c;
      assert p in multiset(all);
    }
  }

  // ---------------------------------------------------------------------
  // The whole extraction
  // ---------------------------------------------------------------------

  datatype Typography = Typography(fontFamilies: seq<string>, typeScale: seq<TypeEntry>,
    colorPalette: seq<PaletteEntry>)

  datatype VisualExtract = VisualExtract(sidebar: Sidebar, buttons: seq<Button>, tables: seq<Table>,
    images: seq<ImageEl>, svgIcons: seq<Icon>, typography: Typography)

  /** The whole result; `None` when the script throws in the sidebar or
      button sections. */
  function Extract(sidebar: Option<SidebarEl>, buttons: seq<ButtonEl>, tables: seq<TableEl>,
                   images: seq<ImageEl>, svgs: seq<SvgEl>, texts: seq<TypeEl>, size: string -> int,
                   colored: seq<ColorEl>): Option<VisualExtract>
  {
    match (SidebarOf(sidebar), Buttons(buttons))
    case (Some(side), Some(bs)) =>
      Some(VisualExtract(side, bs, Project(tables, TableOf), Images(images), Icons(svgs),
        Typography(FontFamilies(texts), TypeScale(texts, size), Palette(colored))))
    case _ => None
  }

  /** The whole script; it has no size guard.  It throws exactly when a
      sidebar item with area or a button wider than 80 pixels has no
      `innerText`. */
  method ExtractVisual(sidebar: Option<SidebarEl>, buttons: seq<ButtonEl>, tables: seq<TableEl>,
                       images: seq<ImageEl>, svgs: seq<SvgEl>, texts: seq<TypeEl>, size: string -> int,
                       colored: seq<ColorEl>)
    returns (result: Option<VisualExtract>)
    ensures result.None? <==>
      || (sidebar.Some? && exists e :: e in sidebar.value.items && !e.rect.ZeroArea() && e.innerText.None?)
      || (exists e :: e in buttons && e.rect.w > 80 && e.innerText.None?)
    ensures result == Extract(sidebar, buttons, tables, images, svgs, texts, size, colored)
  {
    SidebarItems(sidebar);
    var side := CollectSidebar(sidebar);
    if side.None? {
      return None;
    }
    var bs := Buttons(buttons);
    if bs.None? {
      return None;
    }
    var fonts, typeScale := ScanTypography(texts);
    var counts, order := CountColors(colored);
    var palette := Take(SortByKey(Project(order, EntryFor(counts)), CountKey), 20);
    return Some(VisualExtract(side.value, bs.value, Project(tables, TableOf), Images(images), Icons(svgs),
      Typography(fonts, Take(SortByKey(typeScale, SizeKey(size)), 15), palette)));
  }
}
