# dupe fingerprint scripts, modelled in Dafny

dupe clones a web page by reading it through a headless browser. The browser
runs small JavaScript snippets in the page, and each returns a JSON
"fingerprint" of one aspect of the page. This project models those snippets
from `skills/dupe/scripts/`:

- `extract-scroll.js`: finds header, search-bar and filter-bar candidates,
  snapshots them every 200 pixels of scroll, and reports what changed.
- `extract-scroll-to-bottom.js`: scrolls until the page height stops changing
  or 20 scrolls are reached.
- `extract-structure.js`: the layout tree, pruned at depth 3. It also
  collects tab groups, dropdowns, scrollable regions and the visible text
  nodes.
- `extract-interaction.js`: the controls, text, form fields and form
  containers whose box starts inside a given region.
- `extract-visual.js`: sidebar, buttons, tables, images and icons, plus the
  type scale (first entry per key, sorted by size, top 15) and the colour
  palette (counted, sorted by frequency, top 20).
- `extract-svg-batch.js`: rebuilds the SVG list deduplicated by fingerprint
  and returns the full markup of the requested positions.
- `verify-structure.js`: element counts, headings, the interactive
  inventory, a text digest, role counts, forms, navigation and images.
- `verify-interactions.js`: classifies each interactive element and builds
  a selector for it.
- `verify-visual.js`: a 12 x 16 colour grid, the landmarks and the 20
  largest elements.
- `verify-annotate.js`: numbers the visible interactive elements in reading
  order.

Each collection step that works by changing state is a method with loop
invariants. Each such method is proved equal to a specification function.
The properties the scripts rely on are lemmas about those functions: dedup
by first occurrence, stable sorting in reading order, caps and truncation
under the 20000-character size guard, and first-per-key type scale and
palette.

A script that throws returns nothing, since none of them catches an
exception. The model returns `None` in the three places where that can
happen, and a contract or lemma says exactly when it does:

- `el.innerText.trim()` is called without a fallback in
  `extract-interaction.js` and `extract-visual.js`, and `innerText` is
  undefined on an SVG element.
- `document.querySelectorAll` in `buildSelector` throws when the class
  candidate is not a valid selector.
- `parent.querySelectorAll(':scope > ' + tag)` in `buildSelector` throws
  when the tag is not a CSS identifier, as with `<o:p>` from Word HTML.

`Interactions.BuildSelector`, and everything above it up to
`Interactions.VerifyInteractions`, takes the aria-label escape as a
parameter: `Interactions.EscapeAsWritten` gives the script as written,
`Interactions.Escape` the corrected one, whose value CSS reads back as the
label. `Annotation.Annotate` drops empty class names. The code as written
is modelled beside each correction; see "## Findings".

The page is an input:

- Element lists are sequences in document order. A shared `Handle` stands
  for element identity.
- `elementFromPoint`, `querySelector`, the ancestor background chain,
  `parseFloat` of a font size, the number of matches of a selector, and the
  length of `JSON.stringify` of a result are function parameters.

The modules, one per file:

| file | module |
|---|---|
| `common.dfy` | `Common`: options, truthiness, trimming, decimal text, numbering |
| `selector.dfy` | `Selector`: filtering, and the seen-set dedup of selector hits |
| `sorting.dfy` | `Sorting`: a stable sort by key (what `Array.prototype.sort` guarantees) |
| `keyed.dfy` | `Keyed`: first occurrence per text key |
| `extract_scroll.dfy` | `ScrollDetector` |
| `extract_scroll_to_bottom.dfy` | `ProgressiveLoad` |
| `extract_structure.dfy` | `PageStructure` |
| `extract_interaction.dfy` | `RegionContent` |
| `extract_visual.dfy` | `VisualExtraction` |
| `extract_svg_batch.dfy` | `SvgBatch` |
| `verify_structure.dfy` | `StructureFingerprint` |
| `verify_interactions.dfy` | `Interactions` |
| `verify_visual.dfy` | `VisualFingerprint` |
| `verify_annotate.dfy` | `Annotation` |

## Model

| member | source | states |
|---|---|---|
| ScrollDetector.Tagged | skills/dupe/scripts/extract-scroll.js:24-31 | one group per pattern |
| ScrollDetector.CollectQuery | skills/dupe/scripts/extract-scroll.js:25-31 | the admitted hits of one pattern (height > 0, above the role's cutoff) are appended, in document order, after the candidates already collected |
| ScrollDetector.CollectRole | skills/dupe/scripts/extract-scroll.js:24-32 | one role's loop appends, pattern by pattern, the admitted hits |
| ScrollDetector.CollectCandidates | skills/dupe/scripts/extract-scroll.js:17-61 | the candidate list is the header, then search-bar, then filter-bar candidates, in pattern and document order |
| ScrollDetector.CandidatesAdmitted | skills/dupe/scripts/extract-scroll.js:28-57 | every candidate has positive height and lies above 200, 300 or 500 pixels according to its role |
| ScrollDetector.DedupCandidates | skills/dupe/scripts/extract-scroll.js:63-71 | each element is kept once, at its first occurrence, order otherwise preserved |
| ScrollDetector.RoleCandidatesHaveRole | skills/dupe/scripts/extract-scroll.js:29-58 | every candidate a role block pushes carries that role |
| ScrollDetector.FirstGroupWins | skills/dupe/scripts/extract-scroll.js:63-71 | the entry kept for an element comes from the earliest group that found it |
| ScrollDetector.FirstRoleWins | skills/dupe/scripts/extract-scroll.js:63-71 | an element found both as a header and as a search bar is kept once, as a header |
| ScrollDetector.ClassList | skills/dupe/scripts/extract-scroll.js:82-84 | at most ten class names, none empty; none at all when the class name is absent or empty |
| ScrollDetector.Snap | skills/dupe/scripts/extract-scroll.js:74-101 | one candidate's recorded state keeps its role, pattern, offset and box, with at most ten non-empty classes |
| ScrollDetector.SnapDropsInertValues | skills/dupe/scripts/extract-scroll.js:87-99 | each inert computed value (none, 1, visible, auto, transparent black, the default transition) is recorded as absent, every other value as read |
| ScrollDetector.TakeSnapshot | skills/dupe/scripts/extract-scroll.js:74-102 | a snapshot has one entry per unique candidate |
| ScrollDetector.SnapshotAligned | skills/dupe/scripts/extract-scroll.js:75-101 | entry i of every snapshot describes candidate i: same role, pattern and the snapshot's offset |
| ScrollDetector.MaxScroll | skills/dupe/scripts/extract-scroll.js:106 | the last offset is at most 3000 and at most the page height, and equals one of them |
| ScrollDetector.Schedule | skills/dupe/scripts/extract-scroll.js:105-119 | one snapshot per multiple of 200 from 0 up to the cap |
| ScrollDetector.ScheduleOffsets | skills/dupe/scripts/extract-scroll.js:105-119 | offsets start at 0, rise by exactly 200, never exceed the cap, and there are cap/200 + 1 of them |
| ScrollDetector.TakeSnapshots | skills/dupe/scripts/extract-scroll.js:109-186 | the step/timer loop takes exactly the scheduled snapshots |
| ScrollDetector.Diff | skills/dupe/scripts/extract-scroll.js:132-144 | a property appears in the diff exactly when its value differs from the initial state, with the new value |
| ScrollDetector.DiffWithSelfEmpty | skills/dupe/scripts/extract-scroll.js:135-144 | a state compared with itself has no diff |
| ScrollDetector.UncomparedChangesIgnored | skills/dupe/scripts/extract-scroll.js:135-144 | changes to the x position, width, position, max-height, transition, overflow, z-index or background give no diff |
| ScrollDetector.ChangesOf | skills/dupe/scripts/extract-scroll.js:129-147 | one candidate's changes; stated by `ChangesOfExact` and `ChangesAscending` |
| ScrollDetector.ChangesOfExact | skills/dupe/scripts/extract-scroll.js:129-147 | a change is recorded exactly for the snapshots where the candidate differs from its initial state, with that snapshot's offset and diff |
| ScrollDetector.ChangesAscending | skills/dupe/scripts/extract-scroll.js:129-147 | with increasing offsets, the changes are in ascending offset order |
| ScrollDetector.BehaviorsUpToExact | skills/dupe/scripts/extract-scroll.js:127-168 | a candidate is reported exactly when it has a change, and every report has one |
| ScrollDetector.Behaviors | skills/dupe/scripts/extract-scroll.js:124-169 | the behaviour list; stated by `BehaviorsUpToExact`, `ReportProperties` and `BehaviorsOnlyLaterChanges` |
| ScrollDetector.CandidateChanges | skills/dupe/scripts/extract-scroll.js:128-148 | the inner loop over the snapshots builds the candidate's change list |
| ScrollDetector.Analyze | skills/dupe/scripts/extract-scroll.js:124-169 | the outer loop emits one behaviour per candidate with a change, none when there is a single snapshot |
| ScrollDetector.DetectScrollBehavior | skills/dupe/scripts/extract-scroll.js:17-187 | the report's candidate count, snapshot count and behaviours are those of the specification functions |
| ScrollDetector.UniqueCandidates | skills/dupe/scripts/extract-scroll.js:63-71 | the deduplicated candidates; stated by `UniqueCandidatesDistinct`, `FirstGroupWins` and `FirstRoleWins` |
| ScrollDetector.UniqueCandidatesDistinct | skills/dupe/scripts/extract-scroll.js:63-71 | no element is a candidate twice |
| ScrollDetector.ReportProperties | skills/dupe/scripts/extract-scroll.js:171-175 | at least one snapshot; at most one behaviour per unique candidate; each behaviour has changes, in ascending offset order, all at offsets above 0 |
| ScrollDetector.CandidateChangesLater | skills/dupe/scripts/extract-scroll.js:129-148 | a candidate's changes are ascending and come from snapshots after the first |
| ScrollDetector.BehaviorsOnlyLaterChanges | skills/dupe/scripts/extract-scroll.js:125-168 | every behaviour's changes come from offsets above 0 |
| ScrollDetector.NoCandidatesEmptyReport | skills/dupe/scripts/extract-scroll.js:124-175 | with no candidates there is no behaviour, whatever the page height |
| ProgressiveLoad.ScrollToBottom | skills/dupe/scripts/extract-scroll-to-bottom.js:13-45 | the scroll loop returns the report of the specification function |
| ProgressiveLoad.Load | skills/dupe/scripts/extract-scroll-to-bottom.js:13-45 | the whole run from the initial height; stated by `LoadCharacterized` |
| ProgressiveLoad.LoadFrom | skills/dupe/scripts/extract-scroll-to-bottom.js:21-41 | the run from one scroll on; stated by `LoadFromExact` |
| ProgressiveLoad.LoadFromExact | skills/dupe/scripts/extract-scroll-to-bottom.js:21-41 | from any step, the run stops at the first unchanged height or at scroll 20 |
| ProgressiveLoad.LoadCharacterized | skills/dupe/scripts/extract-scroll-to-bottom.js:23-36 | between 1 and 20 scrolls; no earlier scroll settled; the run ends settled or at scroll 20; stable exactly when the last scroll settled; grew exactly when the final height exceeds the initial one |
| ProgressiveLoad.NeverChanges | skills/dupe/scripts/extract-scroll-to-bottom.js:26-36 | a page that never grows stops after one scroll, stable |
| ProgressiveLoad.AlwaysChanges | skills/dupe/scripts/extract-scroll-to-bottom.js:23-40 | a page that changes at every scroll stops after 20 scrolls, not stable |
| ProgressiveLoad.GrowthThenStable | skills/dupe/scripts/extract-scroll-to-bottom.js:21-41 | a page that grows once then stays stops after two scrolls, stable and grown |
| PageStructure.BorderUnless | skills/dupe/scripts/extract-structure.js:26-27 | a border is absent exactly when it is `none` or `0px none rgb(0, 0, 0)` |
| PageStructure.KeepSome | skills/dupe/scripts/extract-structure.js:31 | no more children than given |
| PageStructure.KeepSomeMembers | skills/dupe/scripts/extract-structure.js:31 | every kept child is the result of a box that was not pruned |
| PageStructure.BoxClasses | skills/dupe/scripts/extract-structure.js:15-17 | at most five non-empty class names |
| PageStructure.ChildResults | skills/dupe/scripts/extract-structure.js:31 | one result per element child |
| PageStructure.Extract | skills/dupe/scripts/extract-structure.js:7-33 | the recursive box walk; what it returns is stated by `ExtractPrunes`, `ExtractHeight`, `ExtractShape` and `ExtractDropsInertStyles` |
| PageStructure.ExtractPrunes | skills/dupe/scripts/extract-structure.js:8-11 | a box is pruned exactly when it is deeper than 3 or has neither width nor height |
| PageStructure.ExtractHeight | skills/dupe/scripts/extract-structure.js:7-33 | a box reported at depth d has at most 4 - d levels |
| PageStructure.ExtractShape | skills/dupe/scripts/extract-structure.js:12-32 | a reported box's children are its non-pruned child results, in order |
| PageStructure.ExtractDropsInertStyles | skills/dupe/scripts/extract-structure.js:24-29 | inert styles are absent and every other value is reported as read |
| PageStructure.ScrollableRegions | skills/dupe/scripts/extract-structure.js:53-58 | exactly the number of elements with `auto` or `scroll` overflow on some axis, plus the number of tables; hence between the table count and the table count plus the number of elements, and equal to the table count exactly when no element scrolls |
| PageStructure.Inventory | skills/dupe/scripts/extract-structure.js:38-59 | one tab group per tab list, its tab count equal to its label count and each label the trimmed text of its tab; one dropdown per match, its text the first min(30, n) characters of its n-character trimmed text and its option count as read; hidden panels and forms as counted; scrollable regions as `ScrollableRegions` states |
| PageStructure.TextRecords | skills/dupe/scripts/extract-structure.js:61-92 | as many records as nodes the walker accepts |
| PageStructure.CollectText | skills/dupe/scripts/extract-structure.js:74-92 | the walker loop returns those records |
| PageStructure.TextRecordsShape | skills/dupe/scripts/extract-structure.js:63-92 | every record has non-empty trimmed text and a box with width and height |
| PageStructure.Guard | skills/dupe/scripts/extract-structure.js:94-101 | over budget the first 150 text nodes, flagged, with the full count; otherwise unchanged |
| PageStructure.ExtractLayout | skills/dupe/scripts/extract-structure.js:35-103 | the result is the guarded layout, inventory and text records |
| Interactions.ClassifyFirstMatch | skills/dupe/scripts/verify-interactions.js:7-68 | the kind is that of the first rule, in list order, whose guard holds |
| Interactions.AriaExpandedIsDropdown | skills/dupe/scripts/verify-interactions.js:15-31 | an element with aria-expanded is a tab or a dropdown, never an accordion; a dropdown exactly when it is not a tab |
| Interactions.SelectReportsOptionCount | skills/dupe/scripts/verify-interactions.js:34-37 | a select's expected behaviour carries its option count, which reads back from the text |
| Interactions.InputKinds | skills/dupe/scripts/verify-interactions.js:40-46 | an input is a checkbox or radio exactly when its type says so, else a text input |
| Interactions.LinkKinds | skills/dupe/scripts/verify-interactions.js:49-55 | a link is an anchor link exactly when its href starts with `#` or `javascript:` |
| Interactions.Classify | skills/dupe/scripts/verify-interactions.js:7-68 | the classification by the ordered rules; its contract is `ClassifyFirstMatch` and the lemmas after it |
| Interactions.EscapeAsWritten | skills/dupe/scripts/verify-interactions.js:93 | as written, only `"` is escaped; never shorter than the label |
| Interactions.EscapeAsWrittenReadsBack | skills/dupe/scripts/verify-interactions.js:91-94 | as written, a label with no backslash, newline character or NUL reads back under the CSS string rules, and what follows the closing quote is left unread |
| Interactions.TrailingBackslashMisread | skills/dupe/scripts/verify-interactions.js:93 | as written, the label `a\` is read as `a"]`: the closing quote is escaped and the string runs to the end of the selector |
| Interactions.HexEscapeReadsControl | skills/dupe/scripts/verify-interactions.js:93 | a backslash before the hex digit `b` is read as the code point U+000B |
| Interactions.HexEscapeMisread | skills/dupe/scripts/verify-interactions.js:93 | as written, the label `a\b` is read as `a` followed by U+000B |
| Interactions.NewlineEscapeReadsBack | skills/dupe/scripts/verify-interactions.js:93 | the hex escapes `\a `, `\d ` and `\c ` read back as line feed, carriage return and form feed |
| Interactions.EscapeCharReadsBack | skills/dupe/scripts/verify-interactions.js:93 | the escape of any character except NUL reads back as that character, and reading goes on after it |
| Interactions.EscapeReadsBack | skills/dupe/scripts/verify-interactions.js:91-94 | any label without NUL, escaped, reads back exactly under the CSS string rules, and what follows the closing quote is left unread |
| Interactions.BuildSelector | skills/dupe/scripts/verify-interactions.js:70-115 | for either escape, no selector exactly when the element has no id and class names whose candidate `querySelectorAll` rejects, or every earlier branch fails, the element has a parent, and the sibling query `:scope > tag` is rejected |
| Interactions.RoleSelector | skills/dupe/scripts/verify-interactions.js:83-88 | when id and class fail, a role with non-empty trimmed text gives `[role="r"]` |
| Interactions.AriaSelector | skills/dupe/scripts/verify-interactions.js:90-94 | when id, class and role fail, a truthy aria-label gives `[aria-label="…"]` around the label as the given escape writes it |
| Interactions.AriaValueReadsBack | skills/dupe/scripts/verify-interactions.js:93 | with the corrected escape, the quoted value of that selector reads back as the label, followed by `]` |
| Interactions.CorrectedAriaReadsBack | skills/dupe/scripts/verify-interactions.js:90-94 | the corrected script's aria-label selector starts `[aria-label="` and its value reads back as any label without NUL, followed by `]` |
| Interactions.AsWrittenCharReadsBack | skills/dupe/scripts/verify-interactions.js:93 | as written, a character other than a backslash, a newline character or NUL reads back as itself, and reading goes on after it |
| Interactions.AsWrittenAriaReadsBack | skills/dupe/scripts/verify-interactions.js:90-94 | the script as written gives a selector starting `[aria-label="` whose value reads back as a label with no backslash, newline character or NUL, followed by `]` |
| Interactions.AsWrittenAriaMisread | skills/dupe/scripts/verify-interactions.js:93 | the script as written gives `[aria-label="a\"]` for the label `a\`, and CSS reads its value as `a"]` with nothing after it |
| Interactions.DataAttrSelector | skills/dupe/scripts/verify-interactions.js:96-102 | when the earlier branches fail, the first `data-` attribute other than `data-dupe-annotation` gives `[name="value"]` |
| Interactions.PositionSelector | skills/dupe/scripts/verify-interactions.js:104-114 | when every earlier branch fails: the bare tag without a parent; no selector when the sibling query is rejected; otherwise the tag with its 1-based position among same-tag siblings, or the bare tag when it is not found there |
| Interactions.Escape | skills/dupe/scripts/verify-interactions.js:93 | corrected escape: never shorter than the label; what it reads back as is stated by `EscapeReadsBack` |
| Interactions.SelectorFallbacks | skills/dupe/scripts/verify-interactions.js:70-115 | all seven branches in order, each once the earlier ones fail: id, the class candidate that matches once, role with text, aria-label under the given escape, the first data attribute, nth-of-type (or no selector when the sibling query is rejected), and the bare tag |
| Interactions.Reindexed | skills/dupe/scripts/verify-interactions.js:168-171 | only the index changes, to position + 1 |
| Interactions.Reindex | skills/dupe/scripts/verify-interactions.js:169-171 | the re-indexing loop returns the re-indexed list |
| Interactions.Guard | skills/dupe/scripts/verify-interactions.js:173-180 | over budget the first 40 interactions, flagged, with the full count; count unchanged |
| Interactions.VerifyInteractions | skills/dupe/scripts/verify-interactions.js:129-182 | for either escape (`EscapeAsWritten` for the script as written, `Escape` for the corrected one): nothing when the script throws; otherwise the guarded, sorted and re-indexed inventory |
| Interactions.ThrowsExactly | skills/dupe/scripts/verify-interactions.js:70-112 | for either escape, the script throws exactly when a collected element has its class candidate rejected by `querySelectorAll`, or reaches the position fallback with a parent and has its sibling query `:scope > tag` rejected |
| Interactions.CollectedProperties | skills/dupe/scripts/verify-interactions.js:132-139 | each collected element is kept once, has area, and lies between the page top and two viewports |
| Interactions.UnguardedProperties | skills/dupe/scripts/verify-interactions.js:141-171 | when the script does not throw, the inventory is numbered 1..n, ordered by 50-pixel row then x, and a reordering of the records in collection order in which records with the same row and x keep that order |
| StructureFingerprint.TotalKeyNotCounted | skills/dupe/scripts/verify-structure.js:7-16 | `_total` is not one of the counted tags, so it cannot clash with a tag count |
| StructureFingerprint.ElementCountsOf | skills/dupe/scripts/verify-structure.js:7-16 | the element-count map; stated by `ElementCounts` and `CountTags` |
| StructureFingerprint.ElementCounts | skills/dupe/scripts/verify-structure.js:11-16 | `_total` holds the number of elements; each counted tag that occurs holds its number of occurrences; no other key; equal to the map of the specification |
| StructureFingerprint.CountTags | skills/dupe/scripts/verify-structure.js:12-15 | for any tag list, a tag is a key exactly when it is listed and occurs, and it maps to its number of occurrences |
| StructureFingerprint.HeadingLevel | skills/dupe/scripts/verify-structure.js:26 | the level is the digit of the heading tag, 1 to 6 |
| StructureFingerprint.Headings | skills/dupe/scripts/verify-structure.js:19-29 | at most one heading per element, each of level 1 to 6 with text of at most 80 characters, from an element with a box and that element's level |
| StructureFingerprint.HeadingsKeepBoxed | skills/dupe/scripts/verify-structure.js:19-29 | heading i comes from the i-th heading element with a box, with that element's level and its trimmed text cut at 80; one heading per such element |
| StructureFingerprint.InventoryElementsProperties | skills/dupe/scripts/verify-structure.js:38-55 | each element once, each with area, and exactly the elements with area that the selectors found |
| StructureFingerprint.BuildInventory | skills/dupe/scripts/verify-structure.js:38-55 | the loop returns the inventory of the collected elements |
| StructureFingerprint.DigestAll | skills/dupe/scripts/verify-structure.js:70-75 | at most one entry per node |
| StructureFingerprint.DigestAllPrefix | skills/dupe/scripts/verify-structure.js:70-75 | the digest only grows at the end as nodes are read |
| StructureFingerprint.DigestStep | skills/dupe/scripts/verify-structure.js:70-75 | one more node adds at most its own entry |
| StructureFingerprint.TextDigest | skills/dupe/scripts/verify-structure.js:57-75 | the loop returns the digest capped at 100 entries |
| StructureFingerprint.DigestStops | skills/dupe/scripts/verify-structure.js:70 | where the loop stops the digest is the capped digest of all nodes |
| StructureFingerprint.DigestEntries | skills/dupe/scripts/verify-structure.js:72-73 | at most 100 entries, each 3 to 80 characters long and cut from the trimmed text of a node |
| StructureFingerprint.DigestEntriesAll | skills/dupe/scripts/verify-structure.js:72-73 | each entry is the cut of a trimmed accepted text longer than 2 |
| StructureFingerprint.TextDigestOf | skills/dupe/scripts/verify-structure.js:57-75 | the capped digest; stated by `TextDigest`, `DigestStops` and `DigestEntries` |
| StructureFingerprint.CountRoles | skills/dupe/scripts/verify-structure.js:77-82 | the counting loop returns the role counter |
| StructureFingerprint.RoleCounts | skills/dupe/scripts/verify-structure.js:77-82 | the role counter; stated by `RoleCountsMultiplicity` and `RoleCountsSum` |
| StructureFingerprint.RoleCountsMultiplicity | skills/dupe/scripts/verify-structure.js:78-82 | each role is counted as often as it occurs, and only roles that occur appear |
| StructureFingerprint.RoleCountsSum | skills/dupe/scripts/verify-structure.js:78-82 | the counts add up to the number of elements with a role |
| StructureFingerprint.FormOf | skills/dupe/scripts/verify-structure.js:85-100 | the field count equals the number of fields; each field keeps its tag, and has a name exactly when the source name is truthy |
| StructureFingerprint.NavOf | skills/dupe/scripts/verify-structure.js:103-114 | the link count equals the number of links; each text is at most 40 characters and each href is kept |
| StructureFingerprint.Images | skills/dupe/scripts/verify-structure.js:117-130 | exactly one image per element larger than 5 x 5, sources of at most 100 characters |
| StructureFingerprint.SizeGuard | skills/dupe/scripts/verify-structure.js:144-155 | the two-phase guard returns the specified cascade |
| StructureFingerprint.Guarded | skills/dupe/scripts/verify-structure.js:144-155 | the two-phase cascade; stated by `GuardedCascade` |
| StructureFingerprint.GuardedCascade | skills/dupe/scripts/verify-structure.js:144-155 | within budget nothing changes; phase 2 only after phase 1 and only when still over budget |
| StructureFingerprint.VerifyStructure | skills/dupe/scripts/verify-structure.js:6-157 | the result is the guarded fingerprint |
| Annotation.SplitOnSpace | skills/dupe/scripts/verify-annotate.js:75 | splitting on whitespace never yields an empty list |
| Annotation.WhitespaceClassNameAsWritten | skills/dupe/scripts/verify-annotate.js:74-76 | as written, a class name of only whitespace gives the tag followed by a bare dot |
| Annotation.WhitespaceClassNameExample | skills/dupe/scripts/verify-annotate.js:74-76 | `<div class=" ">` gets the selector `div.` |
| Annotation.SelectorAsWritten | skills/dupe/scripts/verify-annotate.js:70-79 | the selector as written; stated by `WhitespaceClassNameAsWritten` and `BuildSelectorAgrees` |
| Annotation.BuildSelector | skills/dupe/scripts/verify-annotate.js:70-79 | the corrected selector; stated by `BuildSelectorWellFormed` and `BuildSelectorAgrees` |
| Annotation.BuildSelectorWellFormed | skills/dupe/scripts/verify-annotate.js:70-79 | the corrected selector is `#id`, or the tag with one to three non-empty classes, or the bare tag |
| Annotation.BuildSelectorAgrees | skills/dupe/scripts/verify-annotate.js:72-79 | the corrected selector equals the written one whenever the class name has a non-whitespace character |
| Annotation.Guard | skills/dupe/scripts/verify-annotate.js:94-101 | over budget the first 80 entries, flagged, with the full count; count unchanged |
| Annotation.Annotate | skills/dupe/scripts/verify-annotate.js:7-103 | the corrected script (class names filtered, see "## Findings"): the result is the guarded entry list, and the badges are numbered in the same order |
| Annotation.AnnotateOrder | skills/dupe/scripts/verify-annotate.js:30-92 | entries are numbered 1..n, ordered by 50-pixel row then x, a reordering of the collected elements, each text at most 60 characters |
| Annotation.BadgesNumbered | skills/dupe/scripts/verify-annotate.js:43-52 | badge i shows the number i + 1, and no two badges show the same number |
| Annotation.CollectedShown | skills/dupe/scripts/verify-annotate.js:18-28 | every annotated element has area and lies between the page top and three viewports |
| RegionContent.InBoundsInclusive | skills/dupe/scripts/extract-interaction.js:14-18 | the region's edges are inside it, one pixel beyond is not, and the height plays no part |
| RegionContent.InBounds | skills/dupe/scripts/extract-interaction.js:14-18 | the region test; stated by `InBoundsInclusive` |
| RegionContent.ControlOf | skills/dupe/scripts/extract-interaction.js:19-29 | no record exactly when the control has no `innerText`; otherwise its box, and text of at most 50 characters |
| RegionContent.Controls | skills/dupe/scripts/extract-interaction.js:10-30 | nothing exactly when a control in the region has no `innerText`; otherwise controls in the region, texts of at most 50 characters, and every control in the region listed |
| RegionContent.TextRecords | skills/dupe/scripts/extract-interaction.js:33-64 | as many records as nodes the walker accepts |
| RegionContent.CollectText | skills/dupe/scripts/extract-interaction.js:48-64 | the walker loop returns those records |
| RegionContent.TextRecordsExact | skills/dupe/scripts/extract-interaction.js:35-64 | a record exists exactly for each node with non-whitespace text in the region |
| RegionContent.LabelFallbacks | skills/dupe/scripts/extract-interaction.js:77-78 | the label is the first label's text, else aria-label, else placeholder, else empty |
| RegionContent.Label | skills/dupe/scripts/extract-interaction.js:77-78 | the field label; stated by `LabelFallbacks` |
| RegionContent.FieldOf | skills/dupe/scripts/extract-interaction.js:74-98 | options are listed exactly for a select, one per option |
| RegionContent.Fields | skills/dupe/scripts/extract-interaction.js:67-99 | fields in the region, every field in the region listed |
| RegionContent.Containers | skills/dupe/scripts/extract-interaction.js:102-116 | one style per container in the region, each the style of such a container |
| RegionContent.Guard | skills/dupe/scripts/extract-interaction.js:118-130 | over budget the first 100 text nodes, flagged, with the full count; other sections untouched |
| RegionContent.ExtractRegion | skills/dupe/scripts/extract-interaction.js:7-132 | nothing exactly when a control in the region has no `innerText`; otherwise the guarded region content |
| VisualFingerprint.SamplesInViewport | skills/dupe/scripts/verify-visual.js:15-19 | every sample point lies inside the viewport |
| VisualFingerprint.Fallback | skills/dupe/scripts/verify-visual.js:34-37 | a non-empty colour: the body's background, or white when it is empty |
| VisualFingerprint.CellColor | skills/dupe/scripts/verify-visual.js:20-38 | a non-empty colour |
| VisualFingerprint.Cell | skills/dupe/scripts/verify-visual.js:17-40 | one grid cell; stated by `CellColorFirstOpaque`, `CellTransparent` and `CellOpaqueOrFallback` |
| VisualFingerprint.CellColorFirstOpaque | skills/dupe/scripts/verify-visual.js:26-33 | the first opaque background of the chain wins; with none, the body's |
| VisualFingerprint.ResolveColor | skills/dupe/scripts/verify-visual.js:25-37 | the ancestor walk with `break` returns the cell colour |
| VisualFingerprint.GridRow | skills/dupe/scripts/verify-visual.js:17-40 | 16 cells per row |
| VisualFingerprint.Grid | skills/dupe/scripts/verify-visual.js:15-42 | 12 rows (each of 16 cells by GridRow) |
| VisualFingerprint.SampleGrid | skills/dupe/scripts/verify-visual.js:15-42 | the nested loops return the grid |
| VisualFingerprint.CellTransparent | skills/dupe/scripts/verify-visual.js:20-38 | a cell is `transparent` exactly when nothing is at its centre, or no ancestor is opaque and the body is `transparent` |
| VisualFingerprint.CellOpaqueOrFallback | skills/dupe/scripts/verify-visual.js:26-37 | a cell's colour is an opaque background of the chain or the fallback |
| VisualFingerprint.CollectLandmarks | skills/dupe/scripts/verify-visual.js:55-73 | the loop pushes the landmark of each entry that has one |
| VisualFingerprint.PushLandmarks | skills/dupe/scripts/verify-visual.js:55-73 | for any list of entries, the pushed records are the landmarks of the entries whose element is found and has a box, in entry order |
| VisualFingerprint.LandmarksFrom | skills/dupe/scripts/verify-visual.js:55-73 | the landmarks of an entry list; stated by `LandmarksFromProperties` and `LandmarkPositions` |
| VisualFingerprint.LandmarksFromProperties | skills/dupe/scripts/verify-visual.js:56-73 | at most one landmark per entry, each with area, one for every entry whose first match has area, and each the landmark of some entry |
| VisualFingerprint.LandmarkPositions | skills/dupe/scripts/verify-visual.js:56-73 | landmark j is the landmark of entry pos[j] and carries its name, with pos strictly increasing: the landmarks follow the entry order |
| VisualFingerprint.LandmarkNamesOrdered | skills/dupe/scripts/verify-visual.js:45-73 | at most seven landmarks, each with area, one for each of the seven selectors whose first match has area |
| VisualFingerprint.NameRanks | skills/dupe/scripts/verify-visual.js:45-53 | there are seven selectors, and the rank of each name is its position in the list |
| VisualFingerprint.RankedNames | skills/dupe/scripts/verify-visual.js:56-73 | when every name is ranked by its entry's position, the landmarks' names rise strictly in rank |
| VisualFingerprint.LandmarkNamesDistinct | skills/dupe/scripts/verify-visual.js:45-73 | the landmarks' names are among the seven, in the order of the list (header, nav, main, footer, sidebar, hero, search), and no name appears twice |
| VisualFingerprint.Described | skills/dupe/scripts/verify-visual.js:76-98 | one record per large element |
| VisualFingerprint.Largest | skills/dupe/scripts/verify-visual.js:76-101 | the 20 largest elements; stated by `LargestIsTopTwenty` and `LargestAreLarge` |
| VisualFingerprint.LargestIsTopTwenty | skills/dupe/scripts/verify-visual.js:100-101 | a prefix of all large elements sorted by non-increasing area, of length min(20, all); a permutation of the large elements; no element left out is larger than one kept |
| VisualFingerprint.LargestAreLarge | skills/dupe/scripts/verify-visual.js:77-81 | every listed element passes the size and viewport filter and, with integer sizes, covers at least 441 square pixels |
| VisualFingerprint.DescribedLarge | skills/dupe/scripts/verify-visual.js:77-81 | every description of an element that passes the filter is wider and taller than 20, starts above the viewport's bottom, ends below its top, and, with integer sizes, covers at least 441 square pixels |
| VisualFingerprint.Guard | skills/dupe/scripts/verify-visual.js:103-115 | over budget the first ten largest elements, flagged; grid, landmarks and viewport unchanged; within budget nothing changes |
| VisualFingerprint.VerifyVisual | skills/dupe/scripts/verify-visual.js:6-117 | the result is the guarded fingerprint |
| VisualExtraction.FirstLine | skills/dupe/scripts/extract-visual.js:17 | the text before the first line feed, which holds no line feed |
| VisualExtraction.SideItemOf | skills/dupe/scripts/extract-visual.js:10-30 | no item exactly when the element has no `innerText` |
| VisualExtraction.CollectSidebar | skills/dupe/scripts/extract-visual.js:5-32 | the loop returns the sidebar of the specification: nothing as soon as an item with area has no `innerText` |
| VisualExtraction.SidebarItems | skills/dupe/scripts/extract-visual.js:7-31 | nothing exactly when an item with area has no `innerText`; no sidebar gives no items; items have area, one line of text, at most 1500 characters of icon markup, and are active exactly on a background or a weight of 600 or 700; every item with area is listed |
| VisualExtraction.ButtonOf | skills/dupe/scripts/extract-visual.js:37-48 | no record exactly when the button has no `innerText` |
| VisualExtraction.Buttons | skills/dupe/scripts/extract-visual.js:35-49 | nothing exactly when a button wider than 80 pixels has no `innerText`; otherwise buttons wider than 80 pixels, every such button listed |
| VisualExtraction.TableOf | skills/dupe/scripts/extract-visual.js:52-79 | one header per th; the first body row's cells, or none without a body row |
| VisualExtraction.Images | skills/dupe/scripts/extract-visual.js:82-95 | images larger than 5 x 5, every such image listed |
| VisualExtraction.Icons | skills/dupe/scripts/extract-visual.js:98-113 | drawn icons with markup cut at 2000; without a container the parent is `unknown` with empty text |
| VisualExtraction.RecordType | skills/dupe/scripts/extract-visual.js:122-134 | one shown element keeps the typography state in step with the specification |
| VisualExtraction.ScanTypography | skills/dupe/scripts/extract-visual.js:116-135 | the loop returns the font families and the unsorted type scale |
| VisualExtraction.TypeScaleUnsortedDistinct | skills/dupe/scripts/extract-visual.js:124-134 | no key has two entries |
| VisualExtraction.TypeScaleOrdered | skills/dupe/scripts/extract-visual.js:148 | a prefix of at most 15 of the sorted type scale, largest size first, each key once |
| VisualExtraction.TypeScale | skills/dupe/scripts/extract-visual.js:116-148 | the sorted type scale; stated by `TypeScaleOrdered`, `TypeScaleCovers` and `TypeScaleFirsts` |
| VisualExtraction.TypeScaleUnsortedCovers | skills/dupe/scripts/extract-visual.js:119-135 | every shown element's key has an entry |
| VisualExtraction.TypeScaleCovers | skills/dupe/scripts/extract-visual.js:119-148 | every shown element's key has an entry in the sorted list |
| VisualExtraction.TypeScaleFirsts | skills/dupe/scripts/extract-visual.js:119-135 | each entry comes from the first shown element with its key |
| VisualExtraction.FirstShownOfKey | skills/dupe/scripts/extract-visual.js:122-126 | the first shown element of a key has no shown element with that key before it |
| VisualExtraction.TallyCounts | skills/dupe/scripts/extract-visual.js:137-144 | exactly the countable colours read are keys, each with its number of occurrences |
| VisualExtraction.Tally | skills/dupe/scripts/extract-visual.js:137-144 | the colour counts; stated by `TallyCounts` and `TallyStep` |
| VisualExtraction.TallyStep | skills/dupe/scripts/extract-visual.js:141-142 | one countable colour increments its count; any other changes nothing |
| VisualExtraction.ColorOrderStep | skills/dupe/scripts/extract-visual.js:141-142 | a new countable colour is appended to the Map's order |
| VisualExtraction.ColorOrder | skills/dupe/scripts/extract-visual.js:137-144 | the `Map` insertion order of the colours; stated by `ColorOrderStep` and `CountedExact` |
| VisualExtraction.CountOne | skills/dupe/scripts/extract-visual.js:140-143 | one colour read keeps counts and order in step with the specification |
| VisualExtraction.CountColors | skills/dupe/scripts/extract-visual.js:137-144 | the nested loops return the counts and their insertion order |
| VisualExtraction.CountElement | skills/dupe/scripts/extract-visual.js:139-142 | one element's text, background and border colours are tallied in that order: the counts and first-seen order are those of the colours read so far plus these three |
| VisualExtraction.CountedDistinct | skills/dupe/scripts/extract-visual.js:137-149 | the counted list has each colour once |
| VisualExtraction.CountedExact | skills/dupe/scripts/extract-visual.js:137-149 | each counted colour once, with its number of occurrences, and every countable colour read |
| VisualExtraction.PaletteOrdered | skills/dupe/scripts/extract-visual.js:149 | a prefix of at most 20 of the ranked colours, most frequent first, each colour once |
| VisualExtraction.Palette | skills/dupe/scripts/extract-visual.js:137-149 | the palette; stated by `PaletteOrdered` and `PaletteCounts` |
| VisualExtraction.PaletteCounts | skills/dupe/scripts/extract-visual.js:137-149 | every ranked colour is countable with its exact count; every countable colour read is ranked |
| VisualExtraction.ExtractVisual | skills/dupe/scripts/extract-visual.js:3-160 | nothing exactly when a sidebar item with area or a button wider than 80 pixels has no `innerText`; otherwise the specified extraction |
| SvgBatch.FingerprintEqual | skills/dupe/scripts/extract-svg-batch.js:19 | two markups share a fingerprint exactly when they have the same length and the same first 200 characters |
| SvgBatch.Fingerprint | skills/dupe/scripts/extract-svg-batch.js:19 | the length and first 200 characters; stated by `FingerprintEqual` and `FingerprintCollapse` |
| SvgBatch.FingerprintCollapse | skills/dupe/scripts/extract-svg-batch.js:19-23 | different markups that differ only after character 200 share an entry |
| SvgBatch.SvgMapKeys | skills/dupe/scripts/extract-svg-batch.js:20-22 | the map's keys are the fingerprints stored |
| SvgBatch.SvgMapStored | skills/dupe/scripts/extract-svg-batch.js:20-22 | with distinct fingerprints, each maps to the markup stored under it |
| SvgBatch.SvgMapOf | skills/dupe/scripts/extract-svg-batch.js:10-24 | the fingerprint map; stated by `SvgMapKeys`, `SvgMapStored` and `BatchListing` |
| SvgBatch.BatchListing | skills/dupe/scripts/extract-svg-batch.js:10-24 | the order has no fingerprint twice, every drawn SVG's fingerprint is a key, and each maps to the first drawn SVG with it |
| SvgBatch.AnswersExact | skills/dupe/scripts/extract-svg-batch.js:26-31 | an answer exactly for each requested position below the order's length: the stored markup from zero, undefined below zero |
| SvgBatch.Answers | skills/dupe/scripts/extract-svg-batch.js:26-31 | the requested markups; stated by `AnswersExact` |
| SvgBatch.RebuildStep | skills/dupe/scripts/extract-svg-batch.js:17-23 | one drawn SVG keeps the map and order in step with the specification |
| SvgBatch.RebuildMap | skills/dupe/scripts/extract-svg-batch.js:10-24 | the loop returns the map and the order of first fingerprints |
| SvgBatch.SelectTargets | skills/dupe/scripts/extract-svg-batch.js:26-31 | the loop returns the answers |
| SvgBatch.ExtractSvgBatch | skills/dupe/scripts/extract-svg-batch.js:7-33 | the result is the answers for the requested positions |
| Selector.Collect | skills/dupe/scripts/verify-annotate.js:15-28 | the selector-list loop with a seen set returns the accepted hits, each element once, first occurrence first |
| Selector.FilterCount | skills/dupe/scripts/extract-structure.js:53-58 | the length of a filtered list is the number of positions whose item passes the filter |
| Selector.DedupDistinct | skills/dupe/scripts/verify-annotate.js:15-28 | no element is kept twice |
| Selector.DedupKeepsAll | skills/dupe/scripts/verify-annotate.js:15-28 | every element of the input is kept |
| Sorting.SortByKeySorted | skills/dupe/scripts/verify-annotate.js:31-38 | the sort orders by row then x |
| Sorting.SortByKey | skills/dupe/scripts/verify-annotate.js:31-38 | the sort keeps the length and is a permutation of its input |
| Sorting.InsertStable | skills/dupe/scripts/verify-annotate.js:31-38 | inserting an item puts it after every item with its key |
| Sorting.SortByKeyStable | skills/dupe/scripts/verify-annotate.js:31-38 | stable: the items of any one key come out in their input order |
| Keyed.FirstPerKeyPositions | skills/dupe/scripts/extract-visual.js:118-134 | the first item of every key, in order, and every key |
| Keyed.FirstPerKeyDistinct | skills/dupe/scripts/extract-visual.js:125-126 | no key is kept twice |
| Common.NatToStringRoundTrip | skills/dupe/scripts/verify-annotate.js:47 | the decimal text of a number reads back as that number |
| Common.TrimProperties | skills/dupe/scripts/extract-interaction.js:25 | the trimmed text neither starts nor ends with whitespace, and is empty exactly when the text is all whitespace |
| Common.Numbered | skills/dupe/scripts/verify-annotate.js:43 | item i carries the number i + 1 |
| Common.PushNumbered | skills/dupe/scripts/verify-annotate.js:43-92 | the push loop returns the numbered list |
| Throwing.MapAllFilter | skills/dupe/scripts/extract-interaction.js:10-30 | filter then map throws exactly when a kept item throws; otherwise every result comes from a kept item and every kept item's result is present |

## Left out

- The browser itself is not modelled: DOM traversal, `getComputedStyle`, `getBoundingClientRect`, `window.scrollTo`, `setTimeout` and the waits between scrolls. What they return is an input sequence or a function parameter.
- `JSON.stringify(result).length` is the parameter `measure`. Only its comparison with the 20000 budget matters.
- Floating-point values are not modelled. Coordinates and sizes are integers. `Math.round` is taken as already applied. `parseFloat` of a font size is the parameter `size`.
- `Array.prototype.sort` is modelled as a stable insertion sort on a sequence (`Sorting.SortByKey`). The scripts' comparators are written as keys: row then x, size descending, count descending.
- verify-annotate.js also inserts badge elements and a style tag into the page. The model returns the badges as values (text, position) and does not model the injection.
- `extract-hover.js`, `verify-annotate-cleanup.js` and the test pages are not part of this model. They only mutate or tear down the page.
- extract-svg-batch.js says it rebuilds "the same deduplicated SVG list" as extract-visual.js. However, `extract-visual.js:98-113` neither deduplicates icons nor flags overflowing markup. The model follows each script as written: `VisualExtraction.Icons` keeps every drawn SVG, and `SvgBatch` deduplicates by fingerprint.
- `SvgBatch.Answers`: `!svgMap[hash]` is modelled as "the key is absent". `outerHTML` of an element is never empty, and a fingerprint starts with a digit, so no stored value is falsy and no key clashes with an inherited object property.
- `RegionContent.FieldOf`: `tagName === 'SELECT'` is read on the lower-case tag name that the model carries for every element.
- A `className` that is not a string (an SVG element's `SVGAnimatedString`) is modelled as `None`, the case in which the scripts' `typeof` test fails. `VisualExtraction.Icons` records the parent's class name or tag as plain text.
- JavaScript object results (`svgMap`, the element and role counters) are maps. The insertion order of their keys is not modelled, except where the scripts read it back: the colour `Map` order (`VisualExtraction.ColorOrder`) and `svgOrder`.
- Interactions.Escape: the contract states only that escaping never shortens the text. What it reads back as is stated by `Interactions.EscapeReadsBack`.
- Interactions.EscapeAsWritten: the contract states only that escaping never shortens the text. What it reads back as is stated by `Interactions.EscapeAsWrittenReadsBack`, `Interactions.TrailingBackslashMisread` and `Interactions.HexEscapeMisread`.
- Interactions.EscapeReadsBack: a label holding NUL does not read back, because CSS reads NUL as U+FFFD. No escape can produce NUL, so the lemma requires a label without it.
- Interactions.BuildSelector: role and data-attribute values are put between quotes unescaped, as the script does. Only the aria-label branch, the one the script escapes, is corrected. The index of the element among the sibling query's matches is an input (`nthOfType`), as is whether it has a parent.
- VisualFingerprint.Described: the contract states only the length. Which elements are described, and the area ordering, are stated by `VisualFingerprint.LargestIsTopTwenty` and `VisualFingerprint.LargestAreLarge`.
- PageStructure.KeepSome: the contract states only that nothing is added. Which children are kept is stated by `PageStructure.KeepSomeMembers`, in one direction only.
- PageStructure.TextRecordsShape: the contract states what each record satisfies, not that every accepted node yields one. The count is given by `PageStructure.TextRecords`.
- ScrollDetector.Tagged: the contract states the number of groups only.
- StructureFingerprint.RoleCounts: `ariaRoles` is a plain object in the script. There, `role="__proto__"` is never counted, because the value assigned to `__proto__` is a string, and such an assignment is ignored. `role="constructor"` starts from the inherited `Object` function and stores a string. The model counts both as ordinary roles.
- String lengths are counted in code points. JavaScript's `.length` and `.slice` count UTF-16 code units, so texts with characters outside the Basic Multilingual Plane are measured and cut differently. For example, the script keeps `"😀a"` in the text digest (length 3), and `DigestAll` drops it (length 2).
- StructureFingerprint.Images and VisualExtraction.Images: the `w > 5` and `h > 5` guarantees on the recorded sizes hold for integer sizes only. The scripts filter on the unrounded `rect.width > 5` and then record `Math.round(rect.width)`, so a 5.4-pixel-wide image is kept with `w: 5`.
- VisualFingerprint.LargestAreLarge and VisualFingerprint.DescribedLarge: the bound of 441 square pixels holds for integer sizes only. With fractional sizes, a 20.5 x 20.5 box passes `width > 20` and covers about 420 square pixels.
- VisualFingerprint.CellColor and VisualFingerprint.Fallback: the contracts state only that the colour is non-empty. The choice of colour is stated by `VisualFingerprint.CellColorFirstOpaque`, `VisualFingerprint.CellTransparent` and `VisualFingerprint.CellOpaqueOrFallback`.

## Findings

| source | as written | input that shows it | evidently intended | confidence | as-written member | corrected member |
|---|---|---|---|---|---|---|
| skills/dupe/scripts/verify-annotate.js:75-76 | `el.className.trim().split(/\s+/)` without `.filter(Boolean)`: a class attribute of only whitespace splits into `[""]`, and the selector becomes the tag followed by a bare dot (verify-interactions.js:76 filters the empty string out) | `<div class=" ">` gives the selector `div.` | the bare tag `div`, as for an element without classes | not executed | Annotation.WhitespaceClassNameAsWritten, Annotation.WhitespaceClassNameExample | Annotation.BuildSelectorWellFormed, Annotation.BuildSelectorAgrees |
| skills/dupe/scripts/verify-interactions.js:93 | `ariaLabel.replace(/"/g, '\\"')` escapes only double quotes, so a backslash or a newline character in the label stays raw inside the quoted value | the label `a\` gives `[aria-label="a\"]`, whose value CSS reads as `a"]` with no closing quote; the label `a\b` is read as `a` followed by U+000B | a quoted value that reads back as the label: backslashes escaped too, and newline characters written as hex escapes | not executed | Interactions.EscapeAsWritten, Interactions.TrailingBackslashMisread, Interactions.HexEscapeMisread, Interactions.AsWrittenAriaMisread | Interactions.Escape, Interactions.EscapeReadsBack, Interactions.CorrectedAriaReadsBack |
