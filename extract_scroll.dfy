/** The scroll-behaviour detector (extract-scroll.js).  It collects header,
    search-bar and filter-bar candidates near the top of the page, samples
    each candidate's geometry and style at scroll offsets 0, 200, 400, ... up
    to min(scrollHeight, 3000), and reports, per candidate, the offsets at
    which one of ten properties differs from its state at offset 0.

    The page is an oracle `view(scrollY, el)`: the layout and computed style
    of element `el` once the page has been scrolled to `scrollY` and the
    settle delay has passed.  Collection reads the layout at offset 0, where
    the script requires the page to be. */
module ScrollDetector {
  import opened Common
  import opened Selector

  datatype Role = Header | SearchBar | FilterBar

  /** One selector pattern and the elements `querySelectorAll` returns for it. */
  datatype Query = Query(selector: string, hits: seq<Handle>)

  datatype Candidate = Candidate(el: Handle, role: Role, selector: string)

  /** What the browser reports for one element: its rectangle, `className`
      (None when it is not a string, as on SVG elements) and computed style. */
  datatype Raw = Raw(
    rect: Rect, className: Option<string>,
    transform: string, opacity: string, visibility: string, display: string,
    position: string, top: string, height: string, maxHeight: string,
    transition: string, overflow: string, zIndex: string,
    backgroundColor: string, boxShadow: string)

  type View = (int, Handle) -> Raw

  const ScrollStep: nat := 200
  const ScrollCeiling: nat := 3000

  /** Role-specific vertical cutoff of the initial viewport. */
  function Cutoff(role: Role): int
  {
    match role
    case Header => 200
    case SearchBar => 300
    case FilterBar => 500
  }

  // ---------------------------------------------------------------------
  // 1. Candidate collection
  // ---------------------------------------------------------------------

  /** `rect.height > 0 && rect.y < cutoff`, read at scroll offset 0. */
  predicate Admitted(view: View, c: Candidate)
  {
    view(0, c.el).rect.h > 0 && view(0, c.el).rect.y < Cutoff(c.role)
  }

  function AdmittedIn(view: View): Candidate -> bool
  {
    c => Admitted(view, c)
  }

  /** Every hit of every pattern of one role, labelled with role and pattern. */
  function Tagged(qs: seq<Query>, role: Role): (r: seq<seq<Candidate>>)
    ensures |r| == |qs|
  {
    seq(|qs|, g requires 0 <= g < |qs| =>
      seq(|qs[g].hits|, i requires 0 <= i < |qs[g].hits| => Candidate(qs[g].hits[i], role, qs[g].selector)))
  }

  /** The candidates one role's `forEach` block pushes. */
  function RoleCandidates(qs: seq<Query>, role: Role, view: View): seq<Candidate>
  {
    Filter(Flatten(Tagged(qs, role)), AdmittedIn(view))
  }

  /** Header patterns first, then search-bar, then filter-bar patterns. */
  function AllCandidates(header: seq<Query>, search: seq<Query>, filter: seq<Query>, view: View): seq<Candidate>
  {
    RoleCandidates(header, Header, view) + RoleCandidates(search, SearchBar, view)
      + RoleCandidates(filter, FilterBar, view)
  }

  function CandidateId(c: Candidate): Handle { c.el }

  /** The hits of one pattern, pushed when admitted. */
  method CollectQuery(hits: seq<Candidate>, view: View, acc: seq<Candidate>) returns (r: seq<Candidate>)
    ensures r == acc + Filter(hits, AdmittedIn(view))
  {
    r := acc;
    for i := 0 to |hits|
      invariant r == acc + Filter(hits[..i], AdmittedIn(view))
    {
      var c := hits[i];
      var rect := view(0, c.el).rect;
      assert hits[..i + 1] == hits[..i] + [c];
      FilterAppend(hits[..i], c, AdmittedIn(view));
      if rect.h > 0 && rect.y < Cutoff(c.role) {
        r := r + [c];
      }
    }
    assert hits[..|hits|] == hits;
  }

  /** One role's `forEach` over its patterns. */
  method CollectRole(qs: seq<Query>, role: Role, view: View, acc: seq<Candidate>) returns (r: seq<Candidate>)
    ensures r == acc + RoleCandidates(qs, role, view)
  {
    var groups := Tagged(qs, role);
    var mine: seq<Candidate> := [];
    for g := 0 to |groups|
      invariant mine == Filter(Flatten(groups[..g]), AdmittedIn(view))
    {
      mine := CollectQuery(groups[g], view, mine);
      FlattenStep(groups, g);
      FilterConcat(Flatten(groups[..g]), groups[g], AdmittedIn(view));
    }
    assert groups[..|groups|] == groups;
    r := acc + mine;
  }

  method CollectCandidates(header: seq<Query>, search: seq<Query>, filter: seq<Query>, view: View)
    returns (candidates: seq<Candidate>)
    ensures candidates == AllCandidates(header, search, filter, view)
  {
    candidates := CollectRole(header, Header, view, []);
    candidates := CollectRole(search, SearchBar, view, candidates);
    candidates := CollectRole(filter, FilterBar, view, candidates);
  }

  /** Every collected candidate has height > 0 and lies above its role's cutoff. */
  lemma CandidatesAdmitted(header: seq<Query>, search: seq<Query>, filter: seq<Query>, view: View)
    ensures forall c :: c in AllCandidates(header, search, filter, view) ==>
      view(0, c.el).rect.h > 0 && view(0, c.el).rect.y < Cutoff(c.role)
  {
    forall c | c in AllCandidates(header, search, filter, view)
      ensures Admitted(view, c)
    {
      if c in RoleCandidates(header, Header, view) {
      } else if c in RoleCandidates(search, SearchBar, view) {
      } else {
        assert c in RoleCandidates(filter, FilterBar, view);
      }
    }
  }

  /** `seen`/`uniqueCandidates`: keep each element once, first occurrence first. */
  method DedupCandidates(candidates: seq<Candidate>) returns (unique: seq<Candidate>)
    ensures unique == Dedup(candidates, CandidateId)
  {
    var seen: set<Handle> := {};
    unique := [];
    for i := 0 to |candidates|
      invariant unique == Dedup(candidates[..i], CandidateId)
      invariant seen == Ids(candidates[..i], CandidateId)
    {
      var c := candidates[i];
      assert candidates[..i + 1][..i] == candidates[..i];
      IdsAppend(candidates[..i], c, CandidateId);
      assert candidates[..i + 1] == candidates[..i] + [c];
      if c.el !in seen {
        seen := seen + {c.el};
        unique := unique + [c];
      }
    }
    assert candidates[..|candidates|] == candidates;
  }

  lemma RoleCandidatesHaveRole(qs: seq<Query>, role: Role, view: View)
    ensures forall c :: c in RoleCandidates(qs, role, view) ==> c.role == role
  {
    var t := Tagged(qs, role);
    forall c: Candidate | c in Flatten(t)
      ensures c.role == role
    {
      FlattenRole(t, role, c);
    }
  }

  lemma {:induction false} FlattenRole(t: seq<seq<Candidate>>, role: Role, c: Candidate)
    requires forall g, i :: 0 <= g < |t| && 0 <= i < |t[g]| ==> t[g][i].role == role
    requires c in Flatten(t)
    ensures c.role == role
  {
    var init := t[..|t| - 1];
    if c in Flatten(init) {
      FlattenRole(init, role, c);
    } else {
      var k :| 0 <= k < |t[|t| - 1]| && t[|t| - 1][k] == c;
    }
  }

  /** The role kept for an element is that of its first group. */
  lemma FirstGroupWins(h: seq<Candidate>, hs: seq<Candidate>, f: seq<Candidate>, u: Candidate)
    requires forall c :: c in h ==> c.role == Header
    requires forall c :: c in hs ==> c.role == SearchBar
    requires u in Dedup(h + hs + f, CandidateId)
    ensures u.el in Ids(h, CandidateId) ==> u.role == Header
    ensures (u.el !in Ids(h, CandidateId) && u.el in Ids(hs, CandidateId)) ==> u.role == SearchBar
  {
    if u.el in Ids(h, CandidateId) {
      assert h + hs + f == h + (hs + f);
      DedupFromPrefix(h, hs + f, CandidateId, u);
    } else if u.el in Ids(hs, CandidateId) {
      assert Ids(hs, CandidateId) <= Ids(h + hs, CandidateId) by {
        forall k | 0 <= k < |hs| ensures (h + hs)[|h| + k] == hs[k] {}
      }
      DedupFromPrefix(h + hs, f, CandidateId, u);
      forall c | c in h ensures c.el in Ids(h, CandidateId) {
        var k :| 0 <= k < |h| && h[k] == c;
        assert CandidateId(h[k]) in Ids(h, CandidateId);
      }
    }
  }

  /** An element matched both as header and as search bar is kept once, as a
      header; one matched as search bar and filter bar is kept as a search bar. */
  lemma FirstRoleWins(header: seq<Query>, search: seq<Query>, filter: seq<Query>, view: View, u: Candidate)
    requires u in UniqueCandidates(header, search, filter, view)
    ensures u.el in Ids(RoleCandidates(header, Header, view), CandidateId) ==> u.role == Header
    ensures (u.el !in Ids(RoleCandidates(header, Header, view), CandidateId)
             && u.el in Ids(RoleCandidates(search, SearchBar, view), CandidateId)) ==> u.role == SearchBar
  {
    RoleCandidatesHaveRole(header, Header, view);
    RoleCandidatesHaveRole(search, SearchBar, view);
    FirstGroupWins(RoleCandidates(header, Header, view), RoleCandidates(search, SearchBar, view),
      RoleCandidates(filter, FilterBar, view), u);
  }

  // ---------------------------------------------------------------------
  // 2. Snapshot normalisation
  // ---------------------------------------------------------------------

  /** One candidate's state in one snapshot; `None` stands for `undefined`. */
  datatype ElemState = ElemState(
    role: Role, selector: string, scrollY: int, classes: seq<string>, rect: Rect,
    transform: Option<string>, opacity: Option<string>, visibility: Option<string>,
    display: string, position: string, top: string, height: string,
    maxHeight: Option<string>, transition: Option<string>, overflow: Option<string>,
    zIndex: Option<string>, backgroundColor: Option<string>, boxShadow: Option<string>)

  /** The first ten class names, when `className` is a non-empty string. */
  function ClassList(className: Option<string>, limit: nat): (r: seq<string>)
    ensures |r| <= limit
    ensures forall i :: 0 <= i < |r| ==> r[i] != ""
    ensures !Truthy(className) ==> r == []
  {
    if Truthy(className) then Take(Words(className.value), limit) else []
  }

  /** `snapshot(scrollY)` for one candidate. */
  function Snap(c: Candidate, raw: Raw, scrollY: int): (s: ElemState)
    ensures s.role == c.role && s.selector == c.selector && s.scrollY == scrollY && s.rect == raw.rect
    ensures |s.classes| <= 10 && forall i :: 0 <= i < |s.classes| ==> s.classes[i] != ""
  {
    ElemState(
      c.role, c.selector, scrollY, ClassList(raw.className, 10), raw.rect,
      Unless(raw.transform, "none"), Unless(raw.opacity, "1"), Unless(raw.visibility, "visible"),
      raw.display, raw.position, raw.top, raw.height,
      Unless(raw.maxHeight, "none"), Unless(raw.transition, "all 0s ease 0s"),
      Unless(raw.overflow, "visible"), Unless(raw.zIndex, "auto"),
      Unless(raw.backgroundColor, "rgba(0, 0, 0, 0)"), Unless(raw.boxShadow, "none"))
  }

  /** Inert computed values are recorded as absent, every other value as itself. */
  lemma SnapDropsInertValues(c: Candidate, raw: Raw, scrollY: int)
    ensures var s := Snap(c, raw, scrollY);
      && (s.transform == None <==> raw.transform == "none")
      && (s.opacity == None <==> raw.opacity == "1")
      && (s.visibility == None <==> raw.visibility == "visible")
      && (s.maxHeight == None <==> raw.maxHeight == "none")
      && (s.overflow == None <==> raw.overflow == "visible")
      && (s.zIndex == None <==> raw.zIndex == "auto")
      && (s.backgroundColor == None <==> raw.backgroundColor == "rgba(0, 0, 0, 0)")
      && (s.boxShadow == None <==> raw.boxShadow == "none")
      && (s.transition == None <==> raw.transition == "all 0s ease 0s")
      && s.display == raw.display && s.position == raw.position
      && s.top == raw.top && s.height == raw.height
  {
  }

  /** `uniqueCandidates.map(...)` at one offset. */
  function TakeSnapshot(cands: seq<Candidate>, view: View, scrollY: int): (r: seq<ElemState>)
    ensures |r| == |cands|
  {
    seq(|cands|, i requires 0 <= i < |cands| => Snap(cands[i], view(scrollY, cands[i].el), scrollY))
  }

  /** Entry `i` of every snapshot describes candidate `i`: its role, pattern,
      the offset, and the rectangle the page reports for that element there. */
  lemma SnapshotAligned(cands: seq<Candidate>, view: View, scrollY: int)
    ensures var r := TakeSnapshot(cands, view, scrollY);
      forall i :: 0 <= i < |r| ==>
        && r[i].role == cands[i].role && r[i].selector == cands[i].selector
        && r[i].scrollY == scrollY && r[i].rect == view(scrollY, cands[i].el).rect
  {
    var r := TakeSnapshot(cands, view, scrollY);
    forall i | 0 <= i < |r|
      ensures r[i] == Snap(cands[i], view(scrollY, cands[i].el), scrollY)
    {
    }
  }

  // ---------------------------------------------------------------------
  // 3. Scroll schedule
  // ---------------------------------------------------------------------

  datatype Snapshot = Snapshot(scrollY: int, elements: seq<ElemState>)

  /** `Math.min(document.body.scrollHeight, 3000)` */
  function MaxScroll(scrollHeight: nat): (m: nat)
    ensures m <= ScrollCeiling && m <= scrollHeight
    ensures m == scrollHeight || m == ScrollCeiling
  {
    if scrollHeight < ScrollCeiling then scrollHeight else ScrollCeiling
  }

  /** The snapshots the script takes: one at every multiple of 200 up to `maxScroll`. */
  function Schedule(cands: seq<Candidate>, view: View, maxScroll: nat): (r: seq<Snapshot>)
    ensures |r| == maxScroll / ScrollStep + 1
  {
    seq(maxScroll / ScrollStep + 1, k requires 0 <= k <= maxScroll / ScrollStep =>
      Snapshot(ScrollStep * k, TakeSnapshot(cands, view, ScrollStep * k)))
  }

  /** Offsets start at 0, rise by exactly 200, and never pass `maxScroll`. */
  lemma ScheduleOffsets(cands: seq<Candidate>, view: View, maxScroll: nat)
    ensures var r := Schedule(cands, view, maxScroll);
      && r[0].scrollY == 0
      && (forall k :: 0 <= k < |r| ==> 0 <= r[k].scrollY <= maxScroll && r[k].scrollY % ScrollStep == 0)
      && (forall k :: 0 <= k < |r| ==> r[k].scrollY == ScrollStep * k)
      && maxScroll < r[|r| - 1].scrollY + ScrollStep
      && (forall k :: 0 <= k < |r| ==> |r[k].elements| == |cands|)
  {
  }

  /** Snapshot 0, then `step()`: advance 200, stop once past `maxScroll`, else
      scroll there, wait, and append a snapshot. */
  method TakeSnapshots(cands: seq<Candidate>, view: View, scrollHeight: nat) returns (snapshots: seq<Snapshot>)
    ensures snapshots == Schedule(cands, view, MaxScroll(scrollHeight))
  {
    var maxScroll := MaxScroll(scrollHeight);
    snapshots := [Snapshot(0, TakeSnapshot(cands, view, 0))];
    var currentScroll := 0;
    currentScroll := currentScroll + ScrollStep;
    while currentScroll <= maxScroll
      invariant currentScroll == ScrollStep * |snapshots|
      invariant ScrollStep * (|snapshots| - 1) <= maxScroll
      invariant forall k :: 0 <= k < |snapshots| ==>
        snapshots[k] == Snapshot(ScrollStep * k, TakeSnapshot(cands, view, ScrollStep * k))
      decreases maxScroll - currentScroll
    {
      snapshots := snapshots + [Snapshot(currentScroll, TakeSnapshot(cands, view, currentScroll))];
      currentScroll := currentScroll + ScrollStep;
    }
    assert |snapshots| == maxScroll / ScrollStep + 1;
  }

  // ---------------------------------------------------------------------
  // 4. Diff analysis
  // ---------------------------------------------------------------------

  /** The ten compared properties. */
  datatype Prop = Transform | Opacity | Visibility | Display | Height | Top | BoxShadow | RectY | RectH | Classes

  datatype Value = Text(text: Option<string>) | Num(n: int) | Names(names: seq<string>)

  function Get(e: ElemState, p: Prop): Value
  {
    match p
    case Transform => Text(e.transform)
    case Opacity => Text(e.opacity)
    case Visibility => Text(e.visibility)
    case Display => Text(Some(e.display))
    case Height => Text(Some(e.height))
    case Top => Text(Some(e.top))
    case BoxShadow => Text(e.boxShadow)
    case RectY => Num(e.rect.y)
    case RectH => Num(e.rect.h)
    case Classes => Names(e.classes)
  }

  /** `diffs`: the new value of every compared property that differs from the
      initial state (a value that became inert is recorded as absent). */
  function Diff(init: ElemState, el: ElemState): (d: map<Prop, Value>)
    ensures forall p :: p in d <==> Get(el, p) != Get(init, p)
    ensures forall p :: p in d ==> d[p] == Get(el, p)
  {
    map p: Prop | Get(el, p) != Get(init, p) :: Get(el, p)
  }

  /** A state never differs from itself: snapshot 0 yields no change. */
  lemma DiffWithSelfEmpty(e: ElemState)
    ensures Diff(e, e) == map[]
  {
  }

  /** Only the ten properties count: a state that differs in position, size of
      the x/width part of the rectangle, max-height, transition, overflow,
      z-index or background only yields no change. */
  lemma UncomparedChangesIgnored(init: ElemState, el: ElemState)
    requires el.transform == init.transform && el.opacity == init.opacity
    requires el.visibility == init.visibility && el.display == init.display
    requires el.height == init.height && el.top == init.top && el.boxShadow == init.boxShadow
    requires el.rect.y == init.rect.y && el.rect.h == init.rect.h && el.classes == init.classes
    ensures Diff(init, el) == map[]
  {
    forall p: Prop ensures Get(el, p) == Get(init, p) {
    }
  }

  datatype Change = Change(scrollY: int, diffs: map<Prop, Value>)

  /** The `initialState` a behaviour carries. */
  datatype InitialState = InitialState(
    rect: Rect, classes: seq<string>, transform: Option<string>, position: string,
    top: string, height: string, opacity: Option<string>, transition: Option<string>,
    backgroundColor: Option<string>, zIndex: Option<string>)

  datatype Behavior = Behavior(role: Role, selector: string, initialState: InitialState, changes: seq<Change>)

  datatype ScrollReport = ScrollReport(candidateCount: nat, snapshotCount: nat, scrollBehaviors: seq<Behavior>)

  /** The changes of candidate `idx`, walking `snaps` in order (snapshot 0 included). */
  function ChangesOf(snaps: seq<Snapshot>, idx: nat, init: ElemState): seq<Change>
  {
    if snaps == [] then []
    else
      var prev := ChangesOf(snaps[..|snaps| - 1], idx, init);
      var snap := snaps[|snaps| - 1];
      if idx < |snap.elements| && Diff(init, snap.elements[idx]) != map[]
      then prev + [Change(snap.scrollY, Diff(init, snap.elements[idx]))]
      else prev
  }

  /** A change is emitted exactly for the snapshots where some compared property
      differs, and carries that snapshot's offset. */
  lemma {:induction false} ChangesOfExact(snaps: seq<Snapshot>, idx: nat, init: ElemState)
    ensures forall c :: c in ChangesOf(snaps, idx, init) ==> (c.diffs != map[] &&
      exists k :: 0 <= k < |snaps| && idx < |snaps[k].elements| && c.scrollY == snaps[k].scrollY
        && c.diffs == Diff(init, snaps[k].elements[idx]))
    ensures forall k :: 0 <= k < |snaps| && idx < |snaps[k].elements| && Diff(init, snaps[k].elements[idx]) != map[] ==>
      Change(snaps[k].scrollY, Diff(init, snaps[k].elements[idx])) in ChangesOf(snaps, idx, init)
  {
    if snaps != [] {
      var init' := snaps[..|snaps| - 1];
      ChangesOfExact(init', idx, init);
      forall k | 0 <= k < |init'| ensures init'[k] == snaps[k] {}
    }
  }

  predicate Increasing(snaps: seq<Snapshot>)
  {
    forall j, k :: 0 <= j < k < |snaps| ==> snaps[j].scrollY < snaps[k].scrollY
  }

  /** With offsets strictly increasing, the changes are in ascending offset order. */
  lemma {:induction false} ChangesAscending(snaps: seq<Snapshot>, idx: nat, init: ElemState)
    requires Increasing(snaps)
    ensures Ascending(ChangesOf(snaps, idx, init))
  {
    if snaps != [] {
      var init' := snaps[..|snaps| - 1];
      var last := snaps[|snaps| - 1];
      assert Increasing(init') by {
        forall k | 0 <= k < |init'| ensures init'[k] == snaps[k] {}
      }
      ChangesAscending(init', idx, init);
      ChangesOfExact(init', idx, init);
      var prev := ChangesOf(init', idx, init);
      forall i | 0 <= i < |prev| ensures prev[i].scrollY < last.scrollY {
        assert prev[i] in prev;
        var k :| 0 <= k < |init'| && idx < |init'[k].elements| && prev[i].scrollY == init'[k].scrollY;
        assert init'[k] == snaps[k];
      }
      if idx < |last.elements| && Diff(init, last.elements[idx]) != map[] {
        AppendAscending(prev, Change(last.scrollY, Diff(init, last.elements[idx])));
      } else {
        assert ChangesOf(snaps, idx, init) == prev;
      }
    }
  }

  predicate Ascending(cs: seq<Change>)
  {
    forall i, j :: 0 <= i < j < |cs| ==> cs[i].scrollY < cs[j].scrollY
  }

  lemma AppendAscending(prev: seq<Change>, c: Change)
    requires Ascending(prev)
    requires forall i :: 0 <= i < |prev| ==> prev[i].scrollY < c.scrollY
    ensures Ascending(prev + [c])
  {
    var cs := prev + [c];
    forall i, j | 0 <= i < j < |cs| ensures cs[i].scrollY < cs[j].scrollY {
      if j < |prev| {
        assert cs[i] == prev[i] && cs[j] == prev[j];
      } else {
        assert cs[i] == prev[i] && cs[j] == c;
      }
    }
  }

  /** The behaviour report of candidate `idx`, whatever its changes. */
  function BehaviorOf(initEl: ElemState, changes: seq<Change>): Behavior
  {
    Behavior(initEl.role, initEl.selector,
      InitialState(initEl.rect, initEl.classes, initEl.transform, initEl.position, initEl.top,
        initEl.height, initEl.opacity, initEl.transition, initEl.backgroundColor, initEl.zIndex),
      changes)
  }

  /** The behaviour reported for candidate `idx` of snapshot 0: present when
      the candidate has a change. */
  function BehaviorAt(snaps: seq<Snapshot>, idx: nat): Option<Behavior>
  {
    if |snaps| > 0 && idx < |snaps[0].elements| then
      var initEl := snaps[0].elements[idx];
      var changes := ChangesOf(snaps, idx, initEl);
      if changes != [] then Some(BehaviorOf(initEl, changes)) else None
    else None
  }

  function BehaviorFn(snaps: seq<Snapshot>): nat -> Option<Behavior>
  {
    (idx: nat) => BehaviorAt(snaps, idx)
  }

  /** The behaviours of the first `n` candidates of snapshot 0. */
  function BehaviorsUpTo(snaps: seq<Snapshot>, n: nat): seq<Behavior>
  {
    Somes(BehaviorFn(snaps), n)
  }

  /** The analysis, guarded by `snapshots.length > 1`. */
  function Behaviors(snaps: seq<Snapshot>): seq<Behavior>
  {
    if |snaps| > 1 then BehaviorsUpTo(snaps, |snaps[0].elements|) else []
  }

  /** Candidate `idx` is reported iff it has a change; every report has one;
      at most one report per candidate. */
  lemma BehaviorsUpToExact(snaps: seq<Snapshot>, n: nat)
    requires |snaps| > 0 && n <= |snaps[0].elements|
    ensures forall b :: b in BehaviorsUpTo(snaps, n) ==> b.changes != []
    ensures forall idx :: 0 <= idx < n ==>
      var initEl := snaps[0].elements[idx];
      (BehaviorOf(initEl, ChangesOf(snaps, idx, initEl)) in BehaviorsUpTo(snaps, n) <==>
         ChangesOf(snaps, idx, initEl) != [])
    ensures |BehaviorsUpTo(snaps, n)| <= n
  {
    var f := BehaviorFn(snaps);
    SomesExact(f, n);
    forall b | b in BehaviorsUpTo(snaps, n) ensures b.changes != [] {
      var k: nat :| k < n && f(k) == Some(b);
    }
    forall idx | 0 <= idx < n
      ensures var initEl := snaps[0].elements[idx];
        ChangesOf(snaps, idx, initEl) != [] ==> BehaviorOf(initEl, ChangesOf(snaps, idx, initEl)) in BehaviorsUpTo(snaps, n)
    {
      assert f(idx) == BehaviorAt(snaps, idx);
    }
  }

  /** `changes` is built by the inner `snapshots.forEach`. */
  method CandidateChanges(snaps: seq<Snapshot>, idx: nat, initEl: ElemState) returns (changes: seq<Change>)
    ensures changes == ChangesOf(snaps, idx, initEl)
  {
    changes := [];
    for k := 0 to |snaps|
      invariant changes == ChangesOf(snaps[..k], idx, initEl)
    {
      var snap := snaps[k];
      assert snaps[..k + 1][..k] == snaps[..k];
      if idx < |snap.elements| {
        var diffs := Diff(initEl, snap.elements[idx]);
        if diffs != map[] {
          changes := changes + [Change(snap.scrollY, diffs)];
        }
      }
    }
    assert snaps[..|snaps|] == snaps;
  }

  /** The outer `initial.forEach`: one behaviour per candidate with a change. */
  method Analyze(snapshots: seq<Snapshot>) returns (behaviors: seq<Behavior>)
    ensures behaviors == Behaviors(snapshots)
  {
    behaviors := [];
    if |snapshots| > 1 {
      var initial := snapshots[0].elements;
      for idx := 0 to |initial|
        invariant behaviors == BehaviorsUpTo(snapshots, idx)
      {
        assert BehaviorsUpTo(snapshots, idx + 1) == BehaviorsUpTo(snapshots, idx)
          + (if BehaviorAt(snapshots, idx).Some? then [BehaviorAt(snapshots, idx).value] else []);
        var initEl := initial[idx];
        var changes := CandidateChanges(snapshots, idx, initEl);
        if |changes| > 0 {
          behaviors := behaviors + [BehaviorOf(initEl, changes)];
        }
      }
    }
  }

  // ---------------------------------------------------------------------
  // 5. The whole detector
  // ---------------------------------------------------------------------

  function UniqueCandidates(header: seq<Query>, search: seq<Query>, filter: seq<Query>, view: View): seq<Candidate>
  {
    Dedup(AllCandidates(header, search, filter, view), CandidateId)
  }

  method DetectScrollBehavior(header: seq<Query>, search: seq<Query>, filter: seq<Query>, view: View, scrollHeight: nat)
    returns (report: ScrollReport)
    ensures var unique := UniqueCandidates(header, search, filter, view);
      var snaps := Schedule(unique, view, MaxScroll(scrollHeight));
      && report.candidateCount == |unique|
      && report.snapshotCount == MaxScroll(scrollHeight) / ScrollStep + 1
      && report.scrollBehaviors == Behaviors(snaps)
  {
    var candidates := CollectCandidates(header, search, filter, view);
    var unique := DedupCandidates(candidates);
    var snapshots := TakeSnapshots(unique, view, scrollHeight);
    var behaviors := Analyze(snapshots);
    report := ScrollReport(|unique|, |snapshots|, behaviors);
  }

  /** No element is a candidate twice, and the first matching role is kept. */
  lemma UniqueCandidatesDistinct(header: seq<Query>, search: seq<Query>, filter: seq<Query>, view: View)
    ensures var unique := UniqueCandidates(header, search, filter, view);
      forall i, j :: 0 <= i < j < |unique| ==> unique[i].el != unique[j].el
  {
    var all := AllCandidates(header, search, filter, view);
    DedupDistinct(all, CandidateId);
    assert forall i, j :: 0 <= i < j < |Dedup(all, CandidateId)| ==>
      CandidateId(Dedup(all, CandidateId)[i]) != CandidateId(Dedup(all, CandidateId)[j]);
  }

  /** What the report promises for any candidate list: at least one snapshot;
      every reported behaviour has changes, in ascending offset order, none at
      offset 0; and no more behaviours than candidates. */
  lemma ReportProperties(unique: seq<Candidate>, view: View, maxScroll: nat)
    ensures var snaps := Schedule(unique, view, maxScroll);
      var bs := Behaviors(snaps);
      && |snaps| >= 1
      && |bs| <= |unique|
      && (forall b :: b in bs ==>
            (b.changes != [] &&
             (forall i, j :: 0 <= i < j < |b.changes| ==> b.changes[i].scrollY < b.changes[j].scrollY) &&
             (forall c :: c in b.changes ==> c.scrollY > 0)))
  {
    var snaps := Schedule(unique, view, maxScroll);
    ScheduleOffsets(unique, view, maxScroll);
    assert Increasing(snaps);
    if |snaps| > 1 {
      var n := |snaps[0].elements|;
      BehaviorsUpToExact(snaps, n);
      BehaviorsOnlyLaterChanges(snaps, n);
    }
  }

  /** A candidate's changes are in ascending offset order and all come from
      snapshots after the first. */
  lemma CandidateChangesLater(snaps: seq<Snapshot>, idx: nat)
    requires |snaps| > 0 && idx < |snaps[0].elements|
    requires Increasing(snaps) && snaps[0].scrollY == 0
    ensures var cs := ChangesOf(snaps, idx, snaps[0].elements[idx]);
      && (forall i, j :: 0 <= i < j < |cs| ==> cs[i].scrollY < cs[j].scrollY)
      && (forall c :: c in cs ==> c.scrollY > 0)
  {
    var initEl := snaps[0].elements[idx];
    ChangesAscending(snaps, idx, initEl);
    ChangesOfExact(snaps, idx, initEl);
    DiffWithSelfEmpty(initEl);
  }

  /** `b`'s changes are in ascending offset order, none at offset 0. */
  predicate LaterChanges(b: Behavior)
  {
    && (forall i, j :: 0 <= i < j < |b.changes| ==> b.changes[i].scrollY < b.changes[j].scrollY)
    && (forall c :: c in b.changes ==> c.scrollY > 0)
  }

  /** The behaviour built for candidate `idx` has its changes after the first snapshot. */
  lemma LaterBehavior(snaps: seq<Snapshot>, idx: nat)
    requires |snaps| > 0 && idx < |snaps[0].elements|
    requires Increasing(snaps) && snaps[0].scrollY == 0
    ensures LaterChanges(BehaviorOf(snaps[0].elements[idx], ChangesOf(snaps, idx, snaps[0].elements[idx])))
  {
    CandidateChangesLater(snaps, idx);
  }

  /** Every behaviour's changes come from snapshots after the first. */
  lemma BehaviorsOnlyLaterChanges(snaps: seq<Snapshot>, n: nat)
    requires |snaps| > 0 && n <= |snaps[0].elements|
    requires Increasing(snaps) && snaps[0].scrollY == 0
    ensures forall b :: b in BehaviorsUpTo(snaps, n) ==> LaterChanges(b)
  {
    var f := BehaviorFn(snaps);
    SomesExact(f, n);
    forall b | b in BehaviorsUpTo(snaps, n) ensures LaterChanges(b) {
      var k: nat :| k < n && f(k) == Some(b);
      LaterBehavior(snaps, k);
    }
  }

  /** With no candidates the report is empty, whatever the page height. */
  lemma NoCandidatesEmptyReport(view: View, scrollHeight: nat)
    ensures Behaviors(Schedule([], view, MaxScroll(scrollHeight))) == []
  {
  }
}
