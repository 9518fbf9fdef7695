/** Numbered annotation of the interactive and landmark elements: collect
    them from a fixed selector list, order them by 50-pixel row then x, give
    each a numbered badge and a CSS selector, and guard the size of the
    result. */
module Annotation {
  import opened Common
  import opened Selector
  import opened Sorting

  /** An element as read.  `className` is None when it is not a string (SVG elements). */
  datatype AnnotEl = AnnotEl(handle: Handle, tag: string, id: string, className: Option<string>,
    role: Option<string>, innerText: Option<string>, alt: Option<string>, rect: Rect)

  datatype Entry = Entry(index: nat, tag: string, role: Option<string>, text: string,
    rect: Rect, selector: string)

  /** The red numbered circle placed eight pixels above and left of the element. */
  datatype Badge = Badge(text: string, top: int, left: int)

  datatype AnnotateResult = AnnotateResult(elements: seq<Entry>, count: nat, truncated: bool,
    originalCount: Option<nat>)

  /** The selector list, in the order it is searched. */
  const Selectors: seq<string> := [
    "a[href]", "button", "[role=\"button\"]", "[role=\"tab\"]", "[role=\"menuitem\"]",
    "input", "select", "textarea", "[role=\"combobox\"]", "[role=\"listbox\"]",
    "[aria-haspopup]", "[aria-expanded]", "details > summary",
    "nav", "header", "footer", "main", "[role=\"navigation\"]",
    "h1", "h2", "h3", "img[alt]"]

  function Id(e: AnnotEl): Handle { e.handle }

  /** Not zero-area, not above the page top, not beyond three viewport heights. */
  predicate Shown(innerHeight: int, e: AnnotEl)
  {
    !e.rect.ZeroArea() && !(e.rect.Bottom() < 0 || e.rect.y > innerHeight * 3)
  }

  function ShownIn(innerHeight: int): AnnotEl -> bool
  {
    e => Shown(innerHeight, e)
  }

  /** `(Math.floor(top / 50), left)` */
  function PositionKey(e: AnnotEl): Key
  {
    Key(e.rect.y / 50, e.rect.x)
  }

  /** The collected elements in visual order. */
  function Ordered(groups: seq<seq<AnnotEl>>, innerHeight: int): seq<AnnotEl>
  {
    SortByKey(Dedup(Filter(Flatten(groups), ShownIn(innerHeight)), Id), PositionKey)
  }

  // ---------------------------------------------------------------------
  // Selectors
  // ---------------------------------------------------------------------

  /** `t.split(/\s+/)` for a trimmed `t`: the empty string splits into one
      empty piece. */
  function SplitOnSpace(t: string): (r: seq<string>)
    ensures r != []
  {
    if t == [] then [""] else if Words(t) == [] then [""] else Words(t)
  }

  /** The class branch as the script writes it: up to three pieces of the
      trimmed class name, joined with dots. */
  function ClassSelectorAsWritten(tag: string, className: string): string
  {
    tag + "." + Join(Take(SplitOnSpace(Trim(className)), 3), ".")
  }

  /** The selector as the script builds it. */
  function SelectorAsWritten(e: AnnotEl): string
  {
    if e.id != "" then "#" + e.id
    else if Truthy(e.className) then ClassSelectorAsWritten(e.tag, e.className.value)
    else e.tag
  }

  /** A class name made only of whitespace is truthy, so the class branch is
      taken, and it names one empty class: the selector is the tag followed by
      a bare dot, which is not a valid selector. */
  lemma WhitespaceClassNameAsWritten(e: AnnotEl)
    requires e.id == "" && e.className.Some? && e.className.value != []
    requires forall i :: 0 <= i < |e.className.value| ==> IsSpace(e.className.value[i])
    ensures SelectorAsWritten(e) == e.tag + "."
  {
    TrimProperties(e.className.value);
  }

  /** The concrete case `<div class=" ">`. */
  lemma WhitespaceClassNameExample()
    ensures SelectorAsWritten(AnnotEl(0, "div", "", Some(" "), None, None, None, Rect(0, 0, 1, 1))) == "div."
  {
    WhitespaceClassNameAsWritten(AnnotEl(0, "div", "", Some(" "), None, None, None, Rect(0, 0, 1, 1)));
  }

  /** The words of the class name, when it has any. */
  function Classes(e: AnnotEl): seq<string>
  {
    if e.className.Some? then Words(Trim(e.className.value)) else []
  }

  /** The selector with the evident intent: `#id`, else the tag with its first
      three classes, else the bare tag when there is no class to name. */
  function BuildSelector(e: AnnotEl): string
  {
    if e.id != "" then "#" + e.id
    else if Classes(e) != [] then e.tag + "." + Join(Take(Classes(e), 3), ".")
    else e.tag
  }

  /** Every class the selector names is a non-empty word; with no id and no
      word in the class name the selector is the tag. */
  lemma BuildSelectorWellFormed(e: AnnotEl)
    ensures e.id != "" ==> BuildSelector(e) == "#" + e.id
    ensures e.id == "" && Classes(e) == [] ==> BuildSelector(e) == e.tag
    ensures e.id == "" && Classes(e) != [] ==>
      var cs := Take(Classes(e), 3);
      && 1 <= |cs| <= 3
      && (forall i :: 0 <= i < |cs| ==> cs[i] != [] && NoSpace(cs[i]))
      && BuildSelector(e) == e.tag + "." + Join(cs, ".")
  {
  }

  /** The correction changes only the all-whitespace class name: whenever the
      class name has a non-whitespace character, both selectors agree. */
  lemma BuildSelectorAgrees(e: AnnotEl)
    requires e.id != "" || !Truthy(e.className) || Trim(e.className.value) != []
    ensures BuildSelector(e) == SelectorAsWritten(e)
  {
    if e.id == "" && Truthy(e.className) {
      var t := Trim(e.className.value);
      TrimProperties(e.className.value);
      assert Words(t) == [t[..WordLength(t)]] + Words(t[WordLength(t)..]);
    }
  }

  // ---------------------------------------------------------------------
  // Numbering
  // ---------------------------------------------------------------------

  function EntryOf(e: AnnotEl, index: nat): Entry
  {
    Entry(index, e.tag, IfTruthy(e.role), Take(Trim(OrElse(e.innerText, OrElse(e.alt, ""))), 60),
      e.rect, BuildSelector(e))
  }

  function BadgeOf(e: AnnotEl, index: nat): Badge
  {
    Badge(NatToString(index), e.rect.y - 8, e.rect.x - 8)
  }

  /** Over budget: the first 80 entries, flagged, with the full count recorded;
      `count` keeps the full count.  Otherwise nothing changes. */
  function Guard(result: AnnotateResult, size: nat): (r: AnnotateResult)
    ensures size <= Budget ==> r == result
    ensures r.count == result.count
    ensures size > Budget ==>
      && r.elements <= result.elements
      && |r.elements| == (if |result.elements| < 80 then |result.elements| else 80)
      && r.truncated
      && r.originalCount == Some(|result.elements|)
  {
    if size > Budget then
      result.(elements := Take(result.elements, 80), truncated := true,
              originalCount := Some(|result.elements|))
    else result
  }

  function EntryFn(): (AnnotEl, nat) -> Entry { (e: AnnotEl, index: nat) => EntryOf(e, index) }

  function BadgeFn(): (AnnotEl, nat) -> Badge { (e: AnnotEl, index: nat) => BadgeOf(e, index) }

  function Unguarded(groups: seq<seq<AnnotEl>>, innerHeight: int): AnnotateResult
  {
    var entries := Numbered(Ordered(groups, innerHeight), EntryFn());
    AnnotateResult(entries, |entries|, false, None)
  }

  /** The whole script: the entries returned and the badges placed on the page. */
  method Annotate(groups: seq<seq<AnnotEl>>, innerHeight: int, measure: AnnotateResult -> nat)
    returns (result: AnnotateResult, badges: seq<Badge>)
    ensures var u := Unguarded(groups, innerHeight); result == Guard(u, measure(u))
    ensures badges == Numbered(Ordered(groups, innerHeight), BadgeFn())
  {
    var els := Collect(groups, Id, ShownIn(innerHeight));
    els := SortByKey(els, PositionKey);
    var entries := PushNumbered(els, EntryFn());
    badges := PushNumbered(els, BadgeFn());
    result := AnnotateResult(entries, |entries|, false, None);
    result := Guard(result, measure(result));
  }

  /** The entries are numbered 1..n in visual order, are a reordering of
      the collected elements, and carry at most 60 characters of text;
      `count` is their number. */
  lemma AnnotateOrder(groups: seq<seq<AnnotEl>>, innerHeight: int)
    ensures var els := Ordered(groups, innerHeight);
      var u := Unguarded(groups, innerHeight);
      && u.count == |u.elements| == |els|
      && multiset(els) == multiset(Dedup(Filter(Flatten(groups), ShownIn(innerHeight)), Id))
      && (forall i :: 0 <= i < |els| ==>
            u.elements[i].index == i + 1 && u.elements[i].rect == els[i].rect && |u.elements[i].text| <= 60)
      && (forall i, j :: 0 <= i < j < |els| ==>
            KeyLe(Key(u.elements[i].rect.y / 50, u.elements[i].rect.x),
                  Key(u.elements[j].rect.y / 50, u.elements[j].rect.x)))
  {
    SortByKeySorted(Dedup(Filter(Flatten(groups), ShownIn(innerHeight)), Id), PositionKey);
  }

  /** Each badge shows the number of its entry, and no two badges show the
      same text. */
  lemma BadgesNumbered(els: seq<AnnotEl>)
    ensures var badges := Numbered(els, BadgeFn());
      && |badges| == |els|
      && (forall i :: 0 <= i < |els| ==> DigitsValue(badges[i].text) == i + 1)
      && (forall i, j :: 0 <= i < j < |els| ==> badges[i].text != badges[j].text)
  {
    var badges := Numbered(els, BadgeFn());
    forall i | 0 <= i < |els| ensures DigitsValue(badges[i].text) == i + 1 {
      NatToStringRoundTrip(i + 1);
    }
  }

  /** Each element is collected once and is shown within three viewports. */
  lemma CollectedShown(groups: seq<seq<AnnotEl>>, innerHeight: int)
    ensures var els := Ordered(groups, innerHeight);
      forall e :: e in els ==> !e.rect.ZeroArea() && e.rect.Bottom() >= 0 && e.rect.y <= 3 * innerHeight
  {
    var kept := Filter(Flatten(groups), ShownIn(innerHeight));
    DedupSubset(kept, Id);
    var d := Dedup(kept, Id);
    assert multiset(Ordered(groups, innerHeight)) == multiset(d);
    forall e | e in Ordered(groups, innerHeight)
      ensures !e.rect.ZeroArea() && e.rect.Bottom() >= 0 && e.rect.y <= 3 * innerHeight
    {
      assert e in multiset(d);
      assert e in kept;
      assert ShownIn(innerHeight)(e);
    }
  }
}
