/** What the cut of a page, its cursor and the refill of its windows guarantee:
    refillPlan and buildNextCursor of internal/kafka/consumer.go. */
module ConsumePages {
  import opened Records
  import opened SearchState
  import opened ConsumeState
  import opened ConsumeTails

  /** The full query ranges behind the windows. */
  function FullRanges(windows: Windows): (ranges: map<Partition, Range>)
    ensures ranges.Keys == windows.Keys
    ensures forall p :: p in windows ==> ranges[p] == Range(windows[p].trueBegin, windows[p].stop)
  {
    map p | p in windows :: Range(windows[p].trueBegin, windows[p].stop)
  }

  // --- cursors ---

  /** lowest and highest offsets of a partition on the page. */
  ghost predicate AreLowestOn(page: seq<Record>, lowest: map<Partition, int>) {
    && (forall r :: r in page ==> r.part in lowest && lowest[r.part] <= r.off)
    && (forall p :: p in lowest ==> exists r :: r in page && r.part == p && r.off == lowest[p])
  }

  ghost predicate AreHighestOn(page: seq<Record>, highest: map<Partition, int>) {
    && (forall r :: r in page ==> r.part in highest && r.off <= highest[r.part])
    && (forall p :: p in highest ==> exists r :: r in page && r.part == p && r.off == highest[p])
  }

  /** The forward cursor of a window. */
  ghost function ForwardNext(w: PageWindow, highest: map<Partition, int>, p: Partition): int {
    if p in highest then highest[p] + 1 else w.begin
  }

  /** The backward cursor of a window: below the lowest record delivered; at its
      stop when all its records were cut off the page; at its begin when it is empty. */
  ghost function BackwardNext(w: PageWindow, got: seq<Record>, lowest: map<Partition, int>, p: Partition): int {
    if p in lowest then lowest[p] else if got != [] then w.stop else w.begin
  }

  /** A page delivers exactly what lies behind its cursors. */
  ghost predicate Delivers(log: set<Record>, windows: Windows, newestFirst: bool, page: seq<Record>,
                           next: map<Partition, int>) {
    && AreCursors(FullRanges(windows), next)
    && ToSet(page) == Behind(log, FullRanges(windows), newestFirst, next)
  }

  /** Of one partition, an earlier record is never left off a page that holds a later one. */
  lemma PageHasPrefix(all: set<Record>, page: seq<Record>, limit: nat, newestFirst: bool, r: Record, h: Record)
    requires FirstOf(page, all, limit, newestFirst) && Ordered(all) && r in all && h in page && r.part == h.part
    requires if newestFirst then h.off <= r.off else r.off <= h.off
    requires r.off == h.off ==> r == h
    ensures r in page
  {
    assert h in all;
    assert !Before(h, r, newestFirst);
  }

  /** Whatever the timestamps, the cursors lie in the ranges and the page behind them. */
  lemma PageIsBehind(log: set<Record>, windows: Windows, collected: Collected, upto: map<Partition, int>, limit: nat,
                     newestFirst: bool,
                     page: seq<Record>, bounds: map<Partition, int>, next: map<Partition, int>)
    requires AreWindows(windows) && AllReadUpTo(log, windows, collected, upto)
        && FirstOf(page, Everything(collected), limit, newestFirst)
    requires if newestFirst then AreLowestOn(page, bounds) else AreHighestOn(page, bounds)
    requires next.Keys == windows.Keys && forall p :: p in windows ==>
               next[p] == if newestFirst then BackwardNext(windows[p], Got(collected, p), bounds, p)
                 else ForwardNext(windows[p], bounds, p)
    ensures AreCursors(FullRanges(windows), next)
    ensures ToSet(page) <= Behind(log, FullRanges(windows), newestFirst, next)
  {
    hide *;
    CollectedInside(log, windows, collected, upto);
    FirstOfIsSubset(page, Everything(collected), limit, newestFirst);
    forall r | r in page ensures r in InWindows(log, windows) {
      assert r in Everything(collected);
    }
    forall p | p in windows ensures windows[p].trueBegin <= next[p] <= windows[p].stop {
      NextInside(log, windows, collected, newestFirst, page, bounds, p);
    }
    NextsAreCursors(windows, next);
    forall r | r in ToSet(page) ensures r in Behind(log, FullRanges(windows), newestFirst, next) {
      InPage(page, r);
      DeliveredIsBehind(log, windows, collected, newestFirst, page, bounds, next, r);
    }
  }

  lemma InPage(page: seq<Record>, r: Record)
    requires r in ToSet(page)
    ensures r in page
  {
  }

  lemma NextsAreCursors(windows: Windows, next: map<Partition, int>)
    requires next.Keys == windows.Keys && forall p ::
        p in windows ==> windows[p].trueBegin <= next[p] <= windows[p].stop
    ensures AreCursors(FullRanges(windows), next)
  {
  }

  lemma NextInside(log: set<Record>, windows: Windows, collected: Collected, newestFirst: bool,
                   page: seq<Record>, bounds: map<Partition, int>, p: Partition)
    requires AreWindows(windows) && (forall r :: r in page ==> r in InWindows(log, windows)) && p in windows
    requires if newestFirst then AreLowestOn(page, bounds) else AreHighestOn(page, bounds)
    ensures
      var next := if newestFirst then BackwardNext(windows[p], Got(collected, p), bounds, p)
        else ForwardNext(windows[p], bounds, p);
      windows[p].trueBegin <= next <= windows[p].stop
  {
    NonemptyWindow(windows, p);
    if p in bounds {
      var r :| r in page && r.part == p && r.off == bounds[p];
      assert r in InWindows(log, windows);
    }
  }

  lemma DeliveredIsBehind(log: set<Record>, windows: Windows, collected: Collected, newestFirst: bool,
                          page: seq<Record>, bounds: map<Partition, int>, next: map<Partition, int>, r: Record)
    requires AreWindows(windows) && r in page && r in InWindows(log, windows)
    requires if newestFirst then AreLowestOn(page, bounds) else AreHighestOn(page, bounds)
    requires next.Keys == windows.Keys && forall p :: p in windows ==>
               next[p] == if newestFirst then BackwardNext(windows[p], Got(collected, p), bounds, p)
                 else ForwardNext(windows[p], bounds, p)
    ensures r in Behind(log, FullRanges(windows), newestFirst, next)
  {
    NonemptyWindow(windows, r.part);
  }

  lemma ForwardDelivers(log: set<Record>, windows: Windows, collected: Collected, upto: map<Partition, int>, limit: nat,
                        page: seq<Record>, highest: map<Partition, int>, next: map<Partition, int>)
    requires IsLog(log) && AreWindows(windows) && AllReadUpTo(log, windows, collected, upto)
    requires Ordered(InWindows(log, windows)) && forall p :: p in windows ==> windows[p].begin == windows[p].trueBegin
    requires FirstOf(page, Everything(collected), limit, false) && AreHighestOn(page, highest)
    requires next.Keys == windows.Keys && forall p :: p in windows ==> next[p] == ForwardNext(windows[p], highest, p)
    ensures Delivers(log, windows, false, page, next)
  {
    EverythingIs(log, windows, collected, upto);
    CollectedInside(log, windows, collected, upto);
    hide Before, Ordered, Everything, AllReadUpTo, FirstOf, AreWindows, Behind;
    FirstOfIsSubset(page, Everything(collected), limit, false);
    OrderedEverything(log, windows, collected);
    forall p | p in windows ensures windows[p].begin <= next[p] <= windows[p].stop {
      NonemptyWindow(windows, p);
      if p in highest {
        var h :| h in page && h.part == p && h.off == highest[p];
      }
    }
    forall r ensures r in ToSet(page) <==> r in Behind(log, FullRanges(windows), false, next) {
      ForwardBehind(log, windows, collected, upto, limit, page, highest, next, r);
    }
  }

  lemma ForwardBehind(log: set<Record>, windows: Windows, collected: Collected, upto: map<Partition, int>, limit: nat,
                      page: seq<Record>, highest: map<Partition, int>, next: map<Partition, int>, r: Record)
    requires IsLog(log) && upto.Keys == windows.Keys && forall p ::
        p in windows ==> windows[p].begin == windows[p].trueBegin
    requires forall q :: q in Everything(collected) <==>
              q in log && !q.control && q.part in windows && windows[q.part].begin <= q.off < upto[q.part]
    requires Everything(collected) <= InWindows(log, windows) && Ordered(Everything(collected))
    requires FirstOf(page, Everything(collected), limit, false) && AreHighestOn(page, highest)
    requires next.Keys == windows.Keys && forall p :: p in windows ==> next[p] == ForwardNext(windows[p], highest, p)
    ensures r in page <==> r in Behind(log, FullRanges(windows), false, next)
  {
    hide Before, Ordered, Everything;
    FirstOfIsSubset(page, Everything(collected), limit, false);
    if r in Behind(log, FullRanges(windows), false, next) && r.part in highest {
      var h :| h in page && h.part == r.part && h.off == highest[r.part];
      assert h in Everything(collected) && r in Everything(collected);
      PageHasPrefix(Everything(collected), page, limit, false, r, h);
    }
  }

  lemma NonemptyWindow(windows: Windows, p: Partition)
    requires AreWindows(windows) && p in windows
    ensures windows[p].trueBegin <= windows[p].begin < windows[p].stop
  {
  }

  lemma FirstOfIsSubset(page: seq<Record>, all: set<Record>, limit: nat, newestFirst: bool)
    requires FirstOf(page, all, limit, newestFirst)
    ensures forall r :: r in page ==> r in all
  {
  }

  lemma OrderedEverything(log: set<Record>, windows: Windows, collected: Collected)
    requires Ordered(InWindows(log, windows)) && Everything(collected) <= InWindows(log, windows)
    ensures Ordered(Everything(collected))
  {
  }

  lemma CollectedInside(log: set<Record>, windows: Windows, collected: Collected, upto: map<Partition, int>)
    requires AllReadUpTo(log, windows, collected, upto)
    ensures Everything(collected) <= InWindows(log, windows)
  {
    EverythingIs(log, windows, collected, upto);
    forall r | r in Everything(collected) ensures r in InWindows(log, windows) {
      assert ReadUpTo(log, r.part, windows[r.part], Got(collected, r.part), upto[r.part]);
    }
  }

  /** All windows read to their ends, as positions. */
  ghost function Stops(windows: Windows): map<Partition, int> {
    map p | p in windows :: windows[p].stop
  }

  lemma FullIsUpTo(log: set<Record>, windows: Windows, collected: Collected)
    requires AllFullyRead(log, windows, collected)
    ensures AllReadUpTo(log, windows, collected, Stops(windows))
    ensures Everything(collected) == InWindows(log, windows)
  {
    EverythingIs(log, windows, collected, Stops(windows));
  }

  lemma BackwardDelivers(log: set<Record>, windows: Windows, collected: Collected, limit: nat,
                         page: seq<Record>, lowest: map<Partition, int>, next: map<Partition, int>)
    requires IsLog(log) && AreWindows(windows) && AllFullyRead(log, windows, collected)
        && Ordered(InWindows(log, windows))
    requires FirstOf(page, Everything(collected), limit, true) && AreLowestOn(page, lowest)
    requires next.Keys == windows.Keys && forall p ::
        p in windows ==> next[p] == BackwardNext(windows[p], Got(collected, p), lowest, p)
    ensures Delivers(log, windows, true, page, next)
  {
    FullIsUpTo(log, windows, collected);
    hide Before, Ordered, Everything, FirstOf, AreWindows, AllReadUpTo, AllFullyRead;
    FirstOfIsSubset(page, Everything(collected), limit, true);
    forall p | p in windows ensures windows[p].trueBegin <= next[p] <= windows[p].stop {
      NonemptyWindow(windows, p);
      if p in lowest {
        var l :| l in page && l.part == p && l.off == lowest[p];
        assert l in InWindows(log, windows);
      }
    }
    forall r ensures r in ToSet(page) <==> r in Behind(log, FullRanges(windows), true, next) {
      BackwardBehind(log, windows, collected, limit, page, lowest, next, r);
    }
  }

  lemma BackwardBehind(log: set<Record>, windows: Windows, collected: Collected, limit: nat,
                       page: seq<Record>, lowest: map<Partition, int>, next: map<Partition, int>, r: Record)
    requires IsLog(log) && AreWindows(windows) && AllFullyRead(log, windows, collected)
        && Ordered(InWindows(log, windows))
    requires FirstOf(page, InWindows(log, windows), limit, true) && AreLowestOn(page, lowest)
    requires next.Keys == windows.Keys && forall p ::
        p in windows ==> next[p] == BackwardNext(windows[p], Got(collected, p), lowest, p)
    ensures r in page <==> r in Behind(log, FullRanges(windows), true, next)
  {
    hide Before, Ordered, Everything;
    FirstOfIsSubset(page, InWindows(log, windows), limit, true);
    var p := r.part;
    if r in page {
      NonemptyWindow(windows, p);
      assert r in Behind(log, FullRanges(windows), true, next);
    }
    if r in Behind(log, FullRanges(windows), true, next) {
      NonemptyWindow(windows, p);
      assert FullyRead(log, p, windows[p], Got(collected, p));
      assert r in Got(collected, p) <==> r in Shown(log, p, windows[p].begin, windows[p].stop);
      if p in lowest {
        var l :| l in page && l.part == p && l.off == lowest[p];
        assert l in InWindows(log, windows) && r in InWindows(log, windows);
        PageHasPrefix(InWindows(log, windows), page, limit, true, r, l);
      }
    }
  }

  // --- refills ---

  /** What the windows read of the ranges, as tails of them. */
  function WindowRanges(windows: Windows): (ranges: map<Partition, Range>)
    ensures ranges.Keys == windows.Keys
    ensures forall p :: p in windows ==> ranges[p] == Range(windows[p].begin, windows[p].stop)
  {
    map p | p in windows :: Range(windows[p].begin, windows[p].stop)
  }

  lemma WindowsAreTails(log: set<Record>, windows: Windows)
    requires AreWindows(windows)
    ensures AreTails(FullRanges(windows), WindowRanges(windows))
    ensures InRanges(log, WindowRanges(windows)) == InWindows(log, windows)
    ensures InWindows(log, windows) <= InRanges(log, FullRanges(windows))
  {
    var tails := WindowRanges(windows);
    assert InRanges(log, tails) == InWindows(log, windows);
    TailsInside(log, FullRanges(windows), tails);
  }

  /** Unread records below p's window could still belong on the page. */
  predicate NeedsMore(windows: Windows, collected: Collected, page: seq<Record>, limit: nat, p: Partition)
    requires p in windows
  {
    var w, got := windows[p], Got(collected, p);
    && w.trueBegin < w.begin && |got| < limit
    && (|page| == limit && limit > 0 ==> got != [] && !Before(page[|page| - 1], JustBelow(w.begin, p, got[0].ts), true))
  }

  /** The extra window below a window that needs more. */
  function ExtraWindow(w: PageWindow, got: nat, limit: nat): PageWindow
    requires w.begin <= w.stop && got < limit
  {
    PageWindow(WiderStart(w.trueBegin, Range(w.begin, w.stop), got, limit), w.begin, w.trueBegin)
  }

  /** The extra windows of a refill round. */
  ghost predicate IsRefillPlan(windows: Windows, collected: Collected, page: seq<Record>, limit: nat, extra: Windows)
    requires AreWindows(windows)
  {
    && (forall p :: p in extra <==> p in windows && NeedsMore(windows, collected, page, limit, p))
    && (forall p :: p in extra ==> extra[p] == ExtraWindow(windows[p], |Got(collected, p)|, limit))
  }

  lemma PlanIsWindows(windows: Windows, collected: Collected, page: seq<Record>, limit: nat, extra: Windows)
    requires AreWindows(windows) && IsRefillPlan(windows, collected, page, limit, extra)
    ensures AreWindows(extra)
  {
    hide WiderStart;
    forall p | p in extra ensures extra[p].trueBegin <= extra[p].begin < extra[p].stop {
      var w := windows[p];
      WiderIsWider(w.trueBegin, Range(w.begin, w.stop), |Got(collected, p)|, limit);
    }
  }

  /** The windows and records after a round: each extra window joined to its window. */
  ghost predicate IsRefilled(windows: Windows, collected: Collected, extra: Windows, more: Collected,
                             windows1: Windows, collected1: Collected) {
    && windows1.Keys == windows.Keys && extra.Keys <= windows.Keys
    && (forall p :: p in collected1 ==> p in windows)
    && (forall p ::
      p in windows ==> windows1[p] == if p in extra then windows[p].(begin := extra[p].begin) else windows[p])
    && (forall p ::
      p in windows ==> Got(collected1, p) == if p in extra then Got(more, p) + Got(collected, p) else Got(collected, p))
  }

  lemma RefilledIsRead(log: set<Record>, windows: Windows, collected: Collected, page: seq<Record>, limit: nat,
                       extra: Windows, more: Collected, windows1: Windows, collected1: Collected)
    requires AreWindows(windows) && AllFullyRead(log, windows, collected)
        && IsRefillPlan(windows, collected, page, limit, extra)
    requires AllFullyRead(log, extra, more) && IsRefilled(windows, collected, extra, more, windows1, collected1)
    ensures AreWindows(windows1) && AllFullyRead(log, windows1, collected1)
    ensures FullRanges(windows1) == FullRanges(windows)
  {
    hide NeedsMore, WiderStart, ReadUpTo;
    PlanIsWindows(windows, collected, page, limit, extra);
    forall p | p in windows1 ensures FullyRead(log, p, windows1[p], Got(collected1, p)) {
      assert FullyRead(log, p, windows[p], Got(collected, p));
      if p in extra {
        assert FullyRead(log, p, extra[p], Got(more, p));
        JoinRead(log, p, extra[p], windows[p], Got(more, p), Got(collected, p));
      }
    }
  }

  lemma JoinRead(log: set<Record>, p: Partition, e: PageWindow, w: PageWindow, a: seq<Record>, b: seq<Record>)
    requires FullyRead(log, p, e, a) && FullyRead(log, p, w, b) && e.stop == w.begin && e.begin < w.begin
    ensures FullyRead(log, p, w.(begin := e.begin), a + b)
  {
    assert forall r :: r in a ==> r in Shown(log, p, e.begin, e.stop);
    assert forall r :: r in b ==> r in Shown(log, p, w.begin, w.stop);
    forall i, j | 0 <= i < j < |a + b| ensures (a + b)[i].off < (a + b)[j].off {
      assert i < |a| ==> (a + b)[i] in a;
      assert j >= |a| ==> (a + b)[j] in b;
    }
    forall r ensures r in a + b <==> r in Shown(log, p, e.begin, w.stop) {
      assert r in a + b <==> r in a || r in b;
    }
  }

  /** A window needs more iff its tail lacks records. */
  lemma NeedsIsLacks(log: set<Record>, windows: Windows, collected: Collected, page: seq<Record>, limit: nat,
                     p: Partition)
    requires IsLog(log) && limit > 0 && AreWindows(windows) && AllFullyRead(log, windows, collected) && p in windows
    requires FirstOf(page, InRanges(log, WindowRanges(windows)), limit, true)
    ensures |Got(collected, p)| == |Held(log, p, WindowRanges(windows)[p])|
    ensures NeedsMore(windows, collected, page, limit, p) <==>
        Lacks(log, FullRanges(windows), WindowRanges(windows), limit, p)
  {
    hide *;
    var tails, got := WindowRanges(windows), Got(collected, p);
    GotIsHeld(log, windows, collected, p);
    NeedsMoreIs(windows, collected, page, limit, p);
    PageIsFull(page, InRanges(log, tails), limit);
    if got == [] {
      LacksNothingHeld(log, FullRanges(windows), tails, limit, p);
    } else {
      OneOldest(log, p, tails[p], got[0]);
      NewerFillPage(page, InRanges(log, tails), limit, JustBelow(tails[p].start, p, got[0].ts));
      LacksBelow(log, FullRanges(windows), tails, limit, p, got[0]);
    }
  }

  lemma NeedsMoreIs(windows: Windows, collected: Collected, page: seq<Record>, limit: nat, p: Partition)
    requires p in windows
    ensures var w, got := windows[p], Got(collected, p);
      NeedsMore(windows, collected, page, limit, p) <==>
        && w.trueBegin < w.begin && |got| < limit
        && (|page| == limit && limit > 0 ==>
          got != [] && !Before(page[limit - 1], JustBelow(w.begin, p, got[0].ts), true))
  {
    hide Before, JustBelow;
  }

  lemma PageIsFull(page: seq<Record>, s: set<Record>, limit: nat)
    requires FirstOf(page, s, limit, true)
    ensures |page| == limit <==> |s| >= limit
  {
  }

  lemma LacksNothingHeld(log: set<Record>, ranges: Tails, tails: Tails, limit: nat, p: Partition)
    requires p in ranges && p in tails && Held(log, p, tails[p]) == {}
    ensures Lacks(log, ranges, tails, limit, p) <==>
        ranges[p].start < tails[p].start && limit > 0 && |InRanges(log, tails)| < limit
  {
    hide Held, InRanges;
  }

  lemma LacksBelow(log: set<Record>, ranges: Tails, tails: Tails, limit: nat, p: Partition, g: Record)
    requires p in ranges && p in tails && IsOldest(g, Held(log, p, tails[p])) && Held(log, p, tails[p]) != {}
    requires forall o :: IsOldest(o, Held(log, p, tails[p])) ==> o == g
    ensures Lacks(log, ranges, tails, limit, p) <==>
            && ranges[p].start < tails[p].start && |Held(log, p, tails[p])| < limit
            && |NewerThan(InRanges(log, tails), JustBelow(tails[p].start, p, g.ts))| < limit
  {
    hide Held, InRanges, NewerThan, JustBelow, IsOldest;
  }

  lemma GotIsHeld(log: set<Record>, windows: Windows, collected: Collected, p: Partition)
    requires AllFullyRead(log, windows, collected) && p in windows
    ensures var got, own := Got(collected, p), Held(log, p, WindowRanges(windows)[p]);
      |got| == |own| && (got == [] <==> own == {}) && (got != [] ==> IsOldest(got[0], own))
  {
    var got := Got(collected, p);
    assert FullyRead(log, p, windows[p], got);
    NoDupCardinality(got);
    assert ToSet(got) == Held(log, p, WindowRanges(windows)[p]);
  }

  lemma OneOldest(log: set<Record>, p: Partition, tail: Range, g: Record)
    requires IsLog(log) && IsOldest(g, Held(log, p, tail))
    ensures forall o :: IsOldest(o, Held(log, p, tail)) ==> o == g
  {
  }

  /** A round widens the windows as their tails. */
  lemma RoundWidens(log: set<Record>, windows: Windows, collected: Collected, page: seq<Record>, limit: nat,
                    extra: Windows, more: Collected, windows1: Windows, collected1: Collected)
    requires IsLog(log) && limit > 0 && AreWindows(windows) && AllFullyRead(log, windows, collected)
    requires FirstOf(page, InRanges(log, WindowRanges(windows)), limit, true)
        && IsRefillPlan(windows, collected, page, limit, extra)
    requires IsRefilled(windows, collected, extra, more, windows1, collected1)
    ensures AreTails(FullRanges(windows), WindowRanges(windows))
    ensures WindowRanges(windows1) == Widened(log, FullRanges(windows), WindowRanges(windows), limit)
  {
    hide *;
    WindowsAreTails(log, windows);
    RefilledKeys(windows, collected, extra, more, windows1, collected1);
    WidenedKeys(log, FullRanges(windows), WindowRanges(windows), limit);
    forall p | p in windows ensures WindowRanges(windows1)[p] ==
      Widened(log, FullRanges(windows), WindowRanges(windows), limit)[p] {
      TailWidens(log, windows, collected, page, limit, extra, more, windows1, collected1, p);
    }
  }

  lemma RefilledKeys(windows: Windows, collected: Collected, extra: Windows, more: Collected, windows1: Windows,
                     collected1: Collected)
    requires IsRefilled(windows, collected, extra, more, windows1, collected1)
    ensures windows1.Keys == windows.Keys
  {
  }

  lemma WidenedKeys(log: set<Record>, ranges: Tails, tails: Tails, limit: nat)
    requires AreTails(ranges, tails)
    ensures Widened(log, ranges, tails, limit).Keys == tails.Keys
  {
    hide Lacks, WiderStart, Held;
  }

  lemma TailWidens(log: set<Record>, windows: Windows, collected: Collected, page: seq<Record>, limit: nat,
                   extra: Windows, more: Collected, windows1: Windows, collected1: Collected, p: Partition)
    requires IsLog(log) && limit > 0 && AreWindows(windows) && AllFullyRead(log, windows, collected) && p in windows
    requires FirstOf(page, InRanges(log, WindowRanges(windows)), limit, true)
        && IsRefillPlan(windows, collected, page, limit, extra)
    requires IsRefilled(windows, collected, extra, more, windows1, collected1)
    requires AreTails(FullRanges(windows), WindowRanges(windows))
    ensures p in windows1 && p in Widened(log, FullRanges(windows), WindowRanges(windows), limit)
    ensures WindowRanges(windows1)[p] == Widened(log, FullRanges(windows), WindowRanges(windows), limit)[p]
  {
    var ranges, tails := FullRanges(windows), WindowRanges(windows);
    hide IsLog, AllFullyRead, FirstOf, NeedsMore, Lacks, InRanges, Held, WiderStart;
    NeedsIsLacks(log, windows, collected, page, limit, p);
    LacksIs(log, ranges, tails, limit, p);
    if Lacks(log, ranges, tails, limit, p) {
      WiderTailIs(ranges[p].start, tails[p], |Held(log, p, tails[p])|, limit);
    }
  }

  /** With an empty plan the tails stay as they are. */
  lemma EmptyPlan(log: set<Record>, windows: Windows, collected: Collected, page: seq<Record>, limit: nat,
                  extra: Windows)
    requires IsLog(log) && limit > 0 && AreWindows(windows) && AllFullyRead(log, windows, collected)
    requires FirstOf(page, InRanges(log, WindowRanges(windows)), limit, true)
        && IsRefillPlan(windows, collected, page, limit, extra)
    requires |extra| == 0
    ensures AreTails(FullRanges(windows), WindowRanges(windows))
    ensures forall p :: p in windows ==> !Lacks(log, FullRanges(windows), WindowRanges(windows), limit, p)
  {
    WindowsAreTails(log, windows);
    assert extra == map[];
    hide AllFullyRead, FirstOf, NeedsMore, Lacks, InRanges;
    forall p | p in windows ensures !Lacks(log, FullRanges(windows), WindowRanges(windows), limit, p) {
      NeedsIsLacks(log, windows, collected, page, limit, p);
    }
  }
}
