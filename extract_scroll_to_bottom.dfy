/** The progressive-load loop: scroll down one viewport, wait, read the page
    height, and repeat until the height stops changing or twenty scrolls were
    made.  The page is an oracle `heightAfter(k)`: the value of
    `document.body.scrollHeight` read after the k-th scroll (k >= 1). */
module ProgressiveLoad {

  const MaxIterations: nat := 20

  datatype LoadReport = LoadReport(iterations: nat, initialHeight: int, finalHeight: int,
                                   stable: bool, grew: bool)

  /** The height known after `k` scrolls: the initial height for k = 0. */
  function HeightAt(initial: int, heightAfter: nat -> int, k: nat): int
  {
    if k == 0 then initial else heightAfter(k)
  }

  /** Scroll `k` changed nothing: the height read equals the one before it. */
  predicate Settled(initial: int, heightAfter: nat -> int, k: nat)
    requires k >= 1
  {
    HeightAt(initial, heightAfter, k) == HeightAt(initial, heightAfter, k - 1)
  }

  /** The step after `iteration` scrolls whose last height read was `lastHeight`. */
  function LoadFrom(initial: int, heightAfter: nat -> int, iteration: nat, lastHeight: int): LoadReport
    requires iteration < MaxIterations
    decreases MaxIterations - iteration
  {
    var it := iteration + 1;
    var newHeight := heightAfter(it);
    if newHeight == lastHeight || it >= MaxIterations then
      LoadReport(it, initial, newHeight, newHeight == lastHeight, newHeight > initial)
    else
      LoadFrom(initial, heightAfter, it, newHeight)
  }

  /** The whole run, from the initial height. */
  function Load(initial: int, heightAfter: nat -> int): LoadReport
  {
    LoadFrom(initial, heightAfter, 0, initial)
  }

  /** The loop of `scrollStep`: `iteration` and `lastHeight` carried from one
      scroll to the next; the wait between scrolls is not modelled. */
  method ScrollToBottom(initial: int, heightAfter: nat -> int) returns (report: LoadReport)
    ensures report == Load(initial, heightAfter)
  {
    var iteration: nat := 0;
    var lastHeight := initial;
    while true
      invariant iteration < MaxIterations
      invariant Load(initial, heightAfter) == LoadFrom(initial, heightAfter, iteration, lastHeight)
      decreases MaxIterations - iteration
    {
      iteration := iteration + 1;
      var newHeight := heightAfter(iteration);
      if newHeight == lastHeight || iteration >= MaxIterations {
        report := LoadReport(iteration, initial, newHeight, newHeight == lastHeight, newHeight > initial);
        return;
      }
      lastHeight := newHeight;
    }
  }

  /** What a run from step `iteration` reports, when every scroll so far changed
      the height and `lastHeight` is the latest height read. */
  lemma {:induction false} LoadFromExact(initial: int, heightAfter: nat -> int, iteration: nat, lastHeight: int)
    requires iteration < MaxIterations
    requires lastHeight == HeightAt(initial, heightAfter, iteration)
    ensures var r := LoadFrom(initial, heightAfter, iteration, lastHeight);
      && iteration < r.iterations <= MaxIterations
      && (forall k :: iteration < k < r.iterations ==> !Settled(initial, heightAfter, k))
      && (r.iterations == MaxIterations || Settled(initial, heightAfter, r.iterations))
      && r.initialHeight == initial
      && r.finalHeight == HeightAt(initial, heightAfter, r.iterations)
      && (r.stable <==> Settled(initial, heightAfter, r.iterations))
      && (r.grew <==> r.finalHeight > initial)
    decreases MaxIterations - iteration
  {
    var it := iteration + 1;
    if heightAfter(it) != lastHeight && it < MaxIterations {
      LoadFromExact(initial, heightAfter, it, heightAfter(it));
    }
  }

  /** The run always ends, after between 1 and 20 scrolls; it stops at the
      first scroll that leaves the height unchanged, or at the twentieth;
      `stable` says whether the last scroll left the height unchanged, `grew`
      whether the page ends taller than it began, and the initial height is
      reported as read. */
  lemma LoadCharacterized(initial: int, heightAfter: nat -> int)
    ensures var r := Load(initial, heightAfter);
      && 1 <= r.iterations <= MaxIterations
      && (forall k :: 1 <= k < r.iterations ==> !Settled(initial, heightAfter, k))
      && (r.iterations == MaxIterations || Settled(initial, heightAfter, r.iterations))
      && r.initialHeight == initial
      && r.finalHeight == HeightAt(initial, heightAfter, r.iterations)
      && (r.stable <==> Settled(initial, heightAfter, r.iterations))
      && (r.grew <==> r.finalHeight > initial)
  {
    LoadFromExact(initial, heightAfter, 0, initial);
  }

  /** A page that never grows: one scroll, and the run is stable. */
  lemma NeverChanges(initial: int, heightAfter: nat -> int)
    requires heightAfter(1) == initial
    ensures Load(initial, heightAfter).iterations == 1
    ensures Load(initial, heightAfter).stable
  {
  }

  /** A page whose height changes at every scroll: twenty scrolls, not stable. */
  lemma AlwaysChanges(initial: int, heightAfter: nat -> int)
    requires forall k :: 1 <= k <= MaxIterations ==> !Settled(initial, heightAfter, k)
    ensures Load(initial, heightAfter).iterations == MaxIterations
    ensures !Load(initial, heightAfter).stable
  {
    LoadCharacterized(initial, heightAfter);
  }

  /** A page that grows at the first scroll and then stays: two scrolls, and
      the run is both stable and grown (`grew` is not the negation of `stable`). */
  lemma GrowthThenStable(initial: int, heightAfter: nat -> int)
    requires heightAfter(1) > initial && heightAfter(2) == heightAfter(1)
    ensures Load(initial, heightAfter) == LoadReport(2, initial, heightAfter(1), true, true)
  {
  }
}
