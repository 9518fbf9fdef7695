/** The structural fingerprint: tag counts, visible headings, an inventory of
    interactive elements, a digest of visible text, role counts, forms,
    navigation and images, with a two-phase size guard. */
module StructureFingerprint {
  import opened Common
  import opened Selector

  // ---------------------------------------------------------------------
  // 1. Element counts by tag
  // ---------------------------------------------------------------------

  /** The tags counted, in order. */
  const CountedTags: seq<string> := ["div", "section", "article", "aside", "header", "footer", "main", "nav",
    "h1", "h2", "h3", "h4", "h5", "h6", "p", "span", "a", "button", "img", "svg",
    "input", "select", "textarea", "form", "table", "ul", "ol", "li", "video", "iframe"]

  const TotalKey: string := "_total"

  lemma TotalKeyNotCounted()
    ensures TotalKey !in CountedTags
  {
    assert forall i :: 0 <= i < |CountedTags| ==> CountedTags[i][0] != '_';
  }

  /** `elementCounts` as a map: each counted tag that occurs, with its number
      of elements, and `_total` with the number of all elements (`allTags`
      lists the tag of every element of the document). */
  function ElementCountsOf(allTags: seq<string>): map<string, nat>
  {
    map t | t in (set x | x in CountedTags && multiset(allTags)[x] > 0) + {TotalKey} ::
      if t == TotalKey then |allTags| else multiset(allTags)[t]
  }

  /** The loop over `tags`: each tag that occurs, with its number of elements. */
  method CountTags(tags: seq<string>, allTags: seq<string>) returns (counts: map<string, nat>)
    ensures forall t :: t in counts <==> t in tags && multiset(allTags)[t] > 0
    ensures forall t :: t in counts ==> counts[t] == multiset(allTags)[t]
  {
    counts := map[];
    for i := 0 to |tags|
      invariant forall t :: t in counts <==> t in tags[..i] && multiset(allTags)[t] > 0
      invariant forall t :: t in counts ==> counts[t] == multiset(allTags)[t]
    {
      var tag := tags[i];
      var count := multiset(allTags)[tag];
      if count > 0 {
        counts := counts[tag := count];
      }
      assert tags[..i + 1] == tags[..i] + [tag];
    }
    assert tags[..|tags|] == tags;
  }

  method ElementCounts(allTags: seq<string>) returns (counts: map<string, nat>)
    ensures TotalKey in counts && counts[TotalKey] == |allTags|
    ensures forall t :: t in CountedTags && multiset(allTags)[t] > 0 ==> t in counts && counts[t] == multiset(allTags)[t]
    ensures forall t :: t in counts && t != TotalKey ==> t in CountedTags && multiset(allTags)[t] > 0
    ensures counts == ElementCountsOf(allTags)
  {
    counts := CountTags(CountedTags, allTags);
    TotalKeyNotCounted();
    counts := counts[TotalKey := |allTags|];
    assert counts.Keys == ElementCountsOf(allTags).Keys;
  }

  // ---------------------------------------------------------------------
  // 2. Headings
  // ---------------------------------------------------------------------

  /** The lower-case tag of a match of `h1, h2, h3, h4, h5, h6`. */
  predicate IsHeadingTag(tag: string)
  {
    |tag| == 2 && tag[0] == 'h' && '1' <= tag[1] <= '6'
  }

  /** A match of `h1, h2, h3, h4, h5, h6`. */
  datatype HeadingEl = HeadingEl(tag: string, textContent: string, rect: Rect)

  datatype Heading = Heading(level: nat, text: string)

  /** `parseInt(tag.charAt(1))` for a heading tag. */
  function HeadingLevel(tag: string): (level: nat)
    requires IsHeadingTag(tag)
    ensures 1 <= level <= 6 && tag == "h" + [DigitChar(level)]
  {
    tag[1] as int - '0' as int
  }

  predicate HasBox(r: Rect) { r.w > 0 && r.h > 0 }

  function Headings(els: seq<HeadingEl>): (r: seq<Heading>)
    requires forall e :: e in els ==> IsHeadingTag(e.tag)
    ensures |r| <= |els|
    ensures forall h :: h in r ==> 1 <= h.level <= 6 && |h.text| <= 80
    ensures forall h :: h in r ==> exists e :: e in els && HasBox(e.rect) && h.level == HeadingLevel(e.tag)
  {
    if els == [] then []
    else
      var init := els[..|els| - 1];
      var e := els[|els| - 1];
      assert forall x :: x in init ==> x in els;
      Headings(init)
        + (if HasBox(e.rect) then [Heading(HeadingLevel(e.tag), Take(Trim(e.textContent), 80))] else [])
  }

  function BoxedHeading(e: HeadingEl): bool { HasBox(e.rect) }

  /** `h` is the record the script maps the match `e` to. */
  predicate HeadingFrom(h: Heading, e: HeadingEl)
  {
    IsHeadingTag(e.tag) && h == Heading(HeadingLevel(e.tag), Take(Trim(e.textContent), 80))
  }

  /** The headings are exactly the matches with a box, in document order:
      the i-th heading has the level of the i-th boxed match and its trimmed
      text cut to 80 characters. */
  lemma {:induction false} HeadingsKeepBoxed(els: seq<HeadingEl>)
    requires forall e :: e in els ==> IsHeadingTag(e.tag)
    ensures |Headings(els)| == |Filter(els, BoxedHeading)|
    ensures forall i :: 0 <= i < |Headings(els)| ==> HeadingFrom(Headings(els)[i], Filter(els, BoxedHeading)[i])
  {
    if els != [] {
      var init := els[..|els| - 1];
      var e := els[|els| - 1];
      assert els == init + [e];
      assert forall x :: x in init ==> x in els;
      HeadingsKeepBoxed(init);
      FilterAppend(init, e, BoxedHeading);
      var f0 := Filter(init, BoxedHeading);
      var h0 := Headings(init);
      if HasBox(e.rect) {
        var f := f0 + [e];
        var h := h0 + [Heading(HeadingLevel(e.tag), Take(Trim(e.textContent), 80))];
        assert Filter(els, BoxedHeading) == f;
        assert Headings(els) == h;
        forall i | 0 <= i < |h| ensures HeadingFrom(h[i], f[i]) {
          if i < |h0| {
            assert h[i] == h0[i] && f[i] == f0[i];
          }
        }
      } else {
        assert Filter(els, BoxedHeading) == f0;
        assert Headings(els) == h0;
      }
    }
  }

  // ---------------------------------------------------------------------
  // 3. Interactive inventory
  // ---------------------------------------------------------------------

  datatype InteractiveEl = InteractiveEl(handle: Handle, tag: string, role: Option<string>,
    innerText: Option<string>, href: Option<string>, typeAttr: Option<string>, rect: Rect)

  datatype InventoryItem = InventoryItem(tag: string, role: Option<string>, text: string,
    href: Option<string>, typeAttr: Option<string>)

  function InteractiveId(e: InteractiveEl): Handle { e.handle }

  predicate NonZeroArea(e: InteractiveEl) { !e.rect.ZeroArea() }

  function InventoryOf(e: InteractiveEl): InventoryItem
  {
    InventoryItem(e.tag, IfTruthy(e.role), Take(Trim(OrElse(e.innerText, "")), 50),
      IfTruthy(e.href), IfTruthy(e.typeAttr))
  }

  /** The elements inventoried: selector-list order, then document order,
      each element once, zero-area ones skipped. */
  function InventoryElements(groups: seq<seq<InteractiveEl>>): seq<InteractiveEl>
  {
    Dedup(Filter(Flatten(groups), NonZeroArea), InteractiveId)
  }

  function Inventory(groups: seq<seq<InteractiveEl>>): seq<InventoryItem>
  {
    Project(InventoryElements(groups), InventoryOf)
  }

  lemma InventoryElementsProperties(groups: seq<seq<InteractiveEl>>)
    ensures var els := InventoryElements(groups);
      && (forall i, j :: 0 <= i < j < |els| ==> els[i].handle != els[j].handle)
      && (forall e :: e in els ==> !e.rect.ZeroArea())
      && Ids(els, InteractiveId) == Ids(Filter(Flatten(groups), NonZeroArea), InteractiveId)
  {
    var kept := Filter(Flatten(groups), NonZeroArea);
    DedupDistinct(kept, InteractiveId);
    assert forall i, j :: 0 <= i < j < |Dedup(kept, InteractiveId)| ==>
      InteractiveId(Dedup(kept, InteractiveId)[i]) != InteractiveId(Dedup(kept, InteractiveId)[j]);
    DedupSubset(kept, InteractiveId);
    DedupKeepsAll(kept, InteractiveId);
  }

  method BuildInventory(groups: seq<seq<InteractiveEl>>) returns (inventory: seq<InventoryItem>)
    ensures inventory == Inventory(groups)
  {
    var els := Collect(groups, InteractiveId, NonZeroArea);
    inventory := [];
    for i := 0 to |els|
      invariant inventory == Project(els[..i], InventoryOf)
    {
      assert els[..i + 1] == els[..i] + [els[i]];
      ProjectAppend(els[..i], els[i], InventoryOf);
      inventory := inventory + [InventoryOf(els[i])];
    }
    assert els[..|els|] == els;
  }

  // ---------------------------------------------------------------------
  // 4. Text digest
  // ---------------------------------------------------------------------

  /** A text node and the box of its contents. */
  datatype TextNode = TextNode(text: string, w: int, h: int)

  /** The walker's filter: some non-whitespace text, and a box. */
  predicate WalkerAccepts(n: TextNode)
  {
    Trim(n.text) != "" && n.w > 0 && n.h > 0
  }

  /** The digest of every node, without the cap of 100. */
  function DigestAll(nodes: seq<TextNode>): (r: seq<string>)
    ensures |r| <= |nodes|
  {
    if nodes == [] then []
    else
      var t := Trim(nodes[|nodes| - 1].text);
      DigestAll(nodes[..|nodes| - 1]) + (if |t| > 2 then [Take(t, 80)] else [])
  }

  /** The digest grows only at the end as more nodes are read. */
  lemma {:induction false} DigestAllPrefix(nodes: seq<TextNode>, i: nat)
    requires i <= |nodes|
    ensures DigestAll(nodes[..i]) <= DigestAll(nodes)
  {
    if i < |nodes| {
      var init := nodes[..|nodes| - 1];
      DigestAllPrefix(init, i);
      assert init[..i] == nodes[..i];
    } else {
      assert nodes[..i] == nodes;
    }
  }

  lemma DigestStep(nodes: seq<TextNode>, i: nat)
    requires i < |nodes|
    ensures var t := Trim(nodes[i].text);
      DigestAll(nodes[..i + 1]) == DigestAll(nodes[..i]) + (if |t| > 2 then [Take(t, 80)] else [])
  {
    assert nodes[..i + 1][..i] == nodes[..i];
  }

  /** The digest as the script returns it. */
  function TextDigestOf(nodes: seq<TextNode>): seq<string>
  {
    Take(DigestAll(Filter(nodes, WalkerAccepts)), 100)
  }

  /** The `textDigest` loop: read accepted nodes while fewer than 100 entries. */
  method TextDigest(nodes: seq<TextNode>) returns (digest: seq<string>)
    ensures digest == TextDigestOf(nodes)
  {
    var walk := Filter(nodes, WalkerAccepts);
    digest := [];
    var i := 0;
    while i < |walk| && |digest| < 100
      invariant 0 <= i <= |walk|
      invariant digest == DigestAll(walk[..i])
      invariant |digest| <= 100
    {
      var text := Trim(walk[i].text);
      DigestStep(walk, i);
      if |text| > 2 {
        digest := digest + [Take(text, 80)];
      }
      i := i + 1;
    }
    DigestStops(walk, i);
  }

  /** Where the loop stops, the digest so far is the capped digest of all nodes. */
  lemma DigestStops(walk: seq<TextNode>, i: nat)
    requires i <= |walk| && |DigestAll(walk[..i])| <= 100
    requires i == |walk| || |DigestAll(walk[..i])| == 100
    ensures DigestAll(walk[..i]) == Take(DigestAll(walk), 100)
  {
    DigestAllPrefix(walk, i);
    if i == |walk| {
      assert walk[..i] == walk;
    }
  }

  /** Each digest entry is at most 80 characters, taken from a trimmed text of
      more than 2 characters, and there are at most 100 of them. */
  lemma DigestEntries(nodes: seq<TextNode>)
    ensures var d := Take(DigestAll(nodes), 100);
      && |d| <= 100
      && (forall t :: t in d ==> 2 < |t| <= 80 && exists n :: n in nodes && t == Take(Trim(n.text), 80))
  {
    var all := DigestAll(nodes);
    DigestEntriesAll(nodes);
    assert forall t :: t in Take(all, 100) ==> t in all;
  }

  lemma {:induction false} DigestEntriesAll(nodes: seq<TextNode>)
    ensures forall t :: t in DigestAll(nodes) ==>
      2 < |t| <= 80 && exists n :: n in nodes && t == Take(Trim(n.text), 80)
  {
    if nodes != [] {
      var init := nodes[..|nodes| - 1];
      DigestEntriesAll(init);
      assert forall n :: n in init ==> n in nodes;
    }
  }

  // ---------------------------------------------------------------------
  // 5. ARIA role counts
  // ---------------------------------------------------------------------

  /** The count of `r` so far: `ariaRoles[role] || 0`. */
  function CountOf(m: map<string, nat>, r: string): nat
  {
    if r in m then m[r] else 0
  }

  /** The counter after the roles `roles`, in document order. */
  function RoleCounts(roles: seq<string>): map<string, nat>
  {
    if roles == [] then map[]
    else
      var m := RoleCounts(roles[..|roles| - 1]);
      var r := roles[|roles| - 1];
      m[r := CountOf(m, r) + 1]
  }

  method CountRoles(roles: seq<string>) returns (counts: map<string, nat>)
    ensures counts == RoleCounts(roles)
  {
    counts := map[];
    for i := 0 to |roles|
      invariant counts == RoleCounts(roles[..i])
    {
      assert roles[..i + 1][..i] == roles[..i];
      counts := counts[roles[i] := CountOf(counts, roles[i]) + 1];
    }
    assert roles[..|roles|] == roles;
  }

  /** Each role is counted as often as it occurs, and only roles that occur appear. */
  lemma {:induction false} RoleCountsMultiplicity(roles: seq<string>)
    ensures forall r :: CountOf(RoleCounts(roles), r) == multiset(roles)[r]
    ensures RoleCounts(roles).Keys == set r | r in roles
  {
    if roles != [] {
      var init := roles[..|roles| - 1];
      RoleCountsMultiplicity(init);
      assert roles == init + [roles[|roles| - 1]];
    }
  }

  /** Sum of the values of a counter. */
  ghost function SumValues(m: map<string, nat>): nat
    decreases |m.Keys|
  {
    if m == map[] then 0
    else
      var k :| k in m;
      m[k] + SumValues(m - {k})
  }

  lemma {:induction false} SumRemove(m: map<string, nat>, k: string)
    requires k in m
    ensures SumValues(m) == m[k] + SumValues(m - {k})
    decreases |m.Keys|
  {
    var j :| j in m && SumValues(m) == m[j] + SumValues(m - {j});
    if j != k {
      assert (m - {j}).Keys == m.Keys - {j};
      assert (m - {k}).Keys == m.Keys - {k};
      SumRemove(m - {j}, k);
      SumRemove(m - {k}, j);
      assert m - {j} - {k} == m - {k} - {j};
    }
  }

  /** The counts add up to the number of elements that carry a role. */
  lemma {:induction false} RoleCountsSum(roles: seq<string>)
    ensures SumValues(RoleCounts(roles)) == |roles|
  {
    if roles != [] {
      var init := roles[..|roles| - 1];
      var r := roles[|roles| - 1];
      var m := RoleCounts(init);
      var m' := m[r := CountOf(m, r) + 1];
      RoleCountsSum(init);
      SumRemove(m', r);
      if r in m {
        SumRemove(m, r);
        assert m' - {r} == m - {r};
      } else {
        assert m' - {r} == m;
      }
    }
  }

  // ---------------------------------------------------------------------
  // 6-8. Forms, navigation, images
  // ---------------------------------------------------------------------

  datatype FieldEl = FieldEl(tag: string, typeAttr: Option<string>, name: Option<string>, placeholder: Option<string>)
  datatype FormEl = FormEl(action: Option<string>, formMethod: Option<string>, fields: seq<FieldEl>)
  datatype Field = Field(tag: string, typeAttr: Option<string>, name: Option<string>, placeholder: Option<string>)
  datatype Form = Form(action: Option<string>, formMethod: Option<string>, fieldCount: nat, fields: seq<Field>)

  /** A form or `[role=form]` with its fields; empty attributes are dropped. */
  function FormOf(f: FormEl): (r: Form)
    ensures r.fieldCount == |r.fields| == |f.fields|
    ensures forall i :: 0 <= i < |r.fields| ==>
      (r.fields[i].tag == f.fields[i].tag && (r.fields[i].name.Some? <==> Truthy(f.fields[i].name)))
  {
    Form(IfTruthy(f.action), IfTruthy(f.formMethod), |f.fields|,
      seq(|f.fields|, i requires 0 <= i < |f.fields| =>
        Field(f.fields[i].tag, IfTruthy(f.fields[i].typeAttr), IfTruthy(f.fields[i].name),
          IfTruthy(f.fields[i].placeholder))))
  }

  datatype LinkEl = LinkEl(textContent: string, href: string)
  datatype Link = Link(text: string, href: string)
  datatype Nav = Nav(linkCount: nat, links: seq<Link>)

  /** A `nav` or `[role=navigation]` with its `a[href]` links. */
  function NavOf(links: seq<LinkEl>): (r: Nav)
    ensures r.linkCount == |r.links| == |links|
    ensures forall i :: 0 <= i < |links| ==> |r.links[i].text| <= 40 && r.links[i].href == links[i].href
  {
    Nav(|links|, seq(|links|, i requires 0 <= i < |links| => Link(Take(Trim(links[i].textContent), 40), links[i].href)))
  }

  datatype ImageEl = ImageEl(alt: Option<string>, src: string, rect: Rect)
  datatype Image = Image(alt: string, w: int, h: int, src: string)

  predicate ImageShown(e: ImageEl) { e.rect.w > 5 && e.rect.h > 5 }

  function ImageOf(e: ImageEl): Image
  {
    Image(OrElse(e.alt, ""), e.rect.w, e.rect.h, Take(e.src, 100))
  }

  /** Images larger than 5 by 5, in document order. */
  function Images(els: seq<ImageEl>): (r: seq<Image>)
    ensures |r| == |Filter(els, ImageShown)|
    ensures forall i :: 0 <= i < |r| ==> r[i].w > 5 && r[i].h > 5 && |r[i].src| <= 100
  {
    var shown := Filter(els, ImageShown);
    assert forall i :: 0 <= i < |shown| ==> shown[i] in shown;
    seq(|shown|, i requires 0 <= i < |shown| => ImageOf(shown[i]))
  }

  // ---------------------------------------------------------------------
  // Result and two-phase size guard
  // ---------------------------------------------------------------------

  datatype StructureResult = StructureResult(
    elementCounts: map<string, nat>, headings: seq<Heading>, interactiveInventory: seq<InventoryItem>,
    textDigest: seq<string>, ariaRoles: map<string, nat>, forms: seq<Form>, navStructure: seq<Nav>,
    images: seq<Image>, truncated: bool, originalInteractiveCount: Option<nat>)

  /** Phase 1: the text digest cut to its first 50 entries, nothing flagged. */
  function Phase1(r: StructureResult): StructureResult
  {
    r.(textDigest := Take(r.textDigest, 50))
  }

  /** Phase 2: the inventory cut to its first 50, flagged, with its full length. */
  function Phase2(r: StructureResult, inventory: seq<InventoryItem>): StructureResult
  {
    r.(interactiveInventory := Take(inventory, 50), truncated := true,
       originalInteractiveCount := Some(|inventory|))
  }

  /** The cascade: phase 1 when the first measurement is over budget; phase 2
      when the measurement taken after that is still over budget. */
  function Guarded(r: StructureResult, measure: StructureResult -> nat): StructureResult
  {
    var afterPhase1 := if measure(r) > Budget then Phase1(r) else r;
    if measure(afterPhase1) > Budget then Phase2(afterPhase1, r.interactiveInventory) else afterPhase1
  }

  method SizeGuard(result: StructureResult, measure: StructureResult -> nat) returns (r: StructureResult)
    ensures r == Guarded(result, measure)
  {
    r := result;
    var size := measure(r);
    if size > Budget {
      r := r.(textDigest := Take(result.textDigest, 50));
      size := measure(r);
    }
    if size > Budget {
      r := r.(interactiveInventory := Take(result.interactiveInventory, 50), truncated := true,
              originalInteractiveCount := Some(|result.interactiveInventory|));
    }
  }

  /** What the cascade does: within budget nothing changes; phase 2 never runs
      without phase 1 having run first; `truncated` is set exactly when phase 2
      ran, and then the inventory is its first 50 with the full length recorded;
      the other sections are never touched. */
  lemma GuardedCascade(r: StructureResult, measure: StructureResult -> nat)
    requires !r.truncated && r.originalInteractiveCount.None?
    ensures var g := Guarded(r, measure);
      && (measure(r) <= Budget ==> g == r)
      && (g.truncated <==> measure(r) > Budget && measure(Phase1(r)) > Budget)
      && (measure(r) > Budget ==> g.textDigest == Take(r.textDigest, 50))
      && (g.truncated ==> g.interactiveInventory == Take(r.interactiveInventory, 50)
                          && g.originalInteractiveCount == Some(|r.interactiveInventory|))
      && (!g.truncated ==> g.interactiveInventory == r.interactiveInventory && g.originalInteractiveCount.None?)
      && g.elementCounts == r.elementCounts && g.headings == r.headings && g.ariaRoles == r.ariaRoles
      && g.forms == r.forms && g.navStructure == r.navStructure && g.images == r.images
  {
  }

  /** The fingerprint before the size guard. */
  function Fingerprint(allTags: seq<string>, headingEls: seq<HeadingEl>,
                       interactiveGroups: seq<seq<InteractiveEl>>, textNodes: seq<TextNode>,
                       roles: seq<string>, formEls: seq<FormEl>, navLinks: seq<seq<LinkEl>>,
                       imageEls: seq<ImageEl>): StructureResult
    requires forall e :: e in headingEls ==> IsHeadingTag(e.tag)
  {
    StructureResult(ElementCountsOf(allTags), Headings(headingEls), Inventory(interactiveGroups),
      TextDigestOf(textNodes), RoleCounts(roles),
      seq(|formEls|, i requires 0 <= i < |formEls| => FormOf(formEls[i])),
      seq(|navLinks|, i requires 0 <= i < |navLinks| => NavOf(navLinks[i])),
      Images(imageEls), false, None)
  }

  /** The whole script; the document is given as the inputs of each section. */
  method VerifyStructure(allTags: seq<string>, headingEls: seq<HeadingEl>,
                         interactiveGroups: seq<seq<InteractiveEl>>, textNodes: seq<TextNode>,
                         roles: seq<string>, formEls: seq<FormEl>, navLinks: seq<seq<LinkEl>>,
                         imageEls: seq<ImageEl>, measure: StructureResult -> nat)
    returns (result: StructureResult)
    requires forall e :: e in headingEls ==> IsHeadingTag(e.tag)
    ensures result == Guarded(Fingerprint(allTags, headingEls, interactiveGroups, textNodes, roles,
                                          formEls, navLinks, imageEls), measure)
  {
    var counts := ElementCounts(allTags);
    var inventory := BuildInventory(interactiveGroups);
    var digest := TextDigest(textNodes);
    var ariaRoles := CountRoles(roles);
    var forms := seq(|formEls|, i requires 0 <= i < |formEls| => FormOf(formEls[i]));
    var navs := seq(|navLinks|, i requires 0 <= i < |navLinks| => NavOf(navLinks[i]));
    result := StructureResult(counts, Headings(headingEls), inventory, digest, ariaRoles, forms, navs,
      Images(imageEls), false, None);
    assert result == Fingerprint(allTags, headingEls, interactiveGroups, textNodes, roles,
                                 formEls, navLinks, imageEls);
    result := SizeGuard(result, measure);
  }
}
