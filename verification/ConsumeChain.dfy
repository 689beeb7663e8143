/** Chains of consume pages, each read from the cursor of the one before. */
module ConsumeChain {
  import opened Sets
  import opened Records
  import opened Sorting
  import opened RecordSource
  import opened SearchState
  import opened SearchCall
  import opened ConsumeCall

  /** A page and the answers of the broker to its polls. */
  datatype Page = Page(opts: ConsumeOptions, ranges: map<Partition, Range>, result: ConsumeResult,
                       polls: seq<PollResult>)

  /** Start offsets are never negative, and known wherever the end offset is. */
  predicate AreOffsetsOf(offs: TopicOffsets) {
    && (forall p :: p in offs.start ==> offs.start[p] >= 0)
    && (forall p :: p in offs.end ==> p in offs.start)
  }

  /** b is read from the cursor of a, in the same direction. */
  predicate Follows(a: Page, b: Page) {
    && a.result.cursor.Some?
    && if IsBackward(a.opts) then b.opts.from == FromEnd && b.opts.cursorUpperBounds == a.result.cursor.value
       else b.opts.from == FromOffset && b.opts.partitionOffsets == a.result.cursor.value
  }

  /** Backward a page may leave a gap when it is partial. */
  predicate IsWhole(a: Page) {
    IsBackward(a.opts) ==> !a.result.partial
  }

  predicate AreWhole(pages: seq<Page>) {
    forall i :: 0 <= i < |pages| ==> IsWhole(pages[i])
  }

  /** Every page is one ConsumeMessages promises on a fixed log and follows the one before. */
  ghost predicate IsChain(log: set<Record>, offs: TopicOffsets, pages: seq<Page>) {
    && pages != []
    && IsPage(log, offs, pages[0].opts, pages[0].ranges, pages[0].result, pages[0].polls)
    && (|pages| > 1 ==> Follows(pages[0], pages[1]) && IsChain(log, offs, pages[1..]))
  }

  ghost function Scope(log: set<Record>, a: Page): set<Record> {
    InRanges(log, a.ranges)
  }

  /** What a page leaves undelivered of its ranges. */
  ghost function Left(log: set<Record>, a: Page): set<Record> {
    Scope(log, a) - ToSet(a.result.messages)
  }

  ghost function Messages(pages: seq<Page>): seq<Record> {
    if pages == [] then [] else pages[0].result.messages + Messages(pages[1..])
  }

  ghost function Remainder(p: Partition, a: Page, next: map<Partition, int>): Range
    requires p in a.ranges && p in next
  {
    if IsBackward(a.opts) then Range(a.ranges[p].start, next[p]) else Range(next[p], a.ranges[p].end)
  }

  /** b reads of p what a left in front of its cursor. */
  ghost predicate IsRemainder(a: Page, b: Page, next: map<Partition, int>, p: Partition)
    requires next.Keys == a.ranges.Keys
  {
    && (p in b.ranges ==> p in a.ranges && b.ranges[p] == Remainder(p, a, next))
    && (p in a.ranges && p !in b.ranges ==> var left := Remainder(p, a, next); left.start >= left.end)
  }

  /** The next page's range of a partition is what the page left of it; a partition
      that is used up, or lies outside the time bounds, never comes back. */
  lemma ResumedRange(log: set<Record>, offs: TopicOffsets, a: Page, b: Page, next: map<Partition, int>, p: Partition)
    requires AreOffsetsOf(offs) && IsQuery(a.opts, offs, a.ranges) && IsQuery(b.opts, offs, b.ranges) && Follows(a, b)
    requires a.opts.from != Unset && AreCursors(a.ranges, next) && next != map[]
    requires CarriesOver(next, if IsBackward(a.opts) then a.opts.cursorUpperBounds
        else a.opts.partitionOffsets, a.result.cursor.value)
    ensures IsRemainder(a, b, next, p)
  {
    hide ClampRange, IsQuery;
    Ranges(offs, a);
    Ranges(offs, b);
    if IsBackward(a.opts) {
      BackwardResumed(offs, a, b, next, p);
    } else {
      ForwardResumed(offs, a, b, next, p);
    }
  }

  lemma Ranges(offs: TopicOffsets, a: Page)
    requires IsQuery(a.opts, offs, a.ranges)
    ensures forall p ::
        p in a.ranges <==> p in offs.parts && QueryRange(a.opts, offs, p).start < QueryRange(a.opts, offs, p).end
    ensures forall p :: p in a.ranges ==> a.ranges[p] == QueryRange(a.opts, offs, p)
  {
    hide QueryRange;
  }

  lemma BackwardResumed(offs: TopicOffsets, a: Page, b: Page, next: map<Partition, int>, p: Partition)
    requires Follows(a, b) && IsBackward(a.opts) && a.opts.from != Unset
    requires p in a.ranges <==> p in offs.parts && QueryRange(a.opts, offs, p).start < QueryRange(a.opts, offs, p).end
    requires p in b.ranges <==> p in offs.parts && QueryRange(b.opts, offs, p).start < QueryRange(b.opts, offs, p).end
    requires p in a.ranges ==> a.ranges[p] == QueryRange(a.opts, offs, p)
    requires p in b.ranges ==> b.ranges[p] == QueryRange(b.opts, offs, p)
    requires AreCursors(a.ranges, next) && CarriesOver(next, a.opts.cursorUpperBounds, a.result.cursor.value)
    ensures IsRemainder(a, b, next, p)
  {
    hide Bounds;
  }

  lemma ForwardResumed(offs: TopicOffsets, a: Page, b: Page, next: map<Partition, int>, p: Partition)
    requires AreOffsetsOf(offs) && Follows(a, b) && !IsBackward(a.opts) && next != map[]
    requires p in a.ranges <==> p in offs.parts && QueryRange(a.opts, offs, p).start < QueryRange(a.opts, offs, p).end
    requires p in b.ranges <==> p in offs.parts && QueryRange(b.opts, offs, p).start < QueryRange(b.opts, offs, p).end
    requires p in a.ranges ==> a.ranges[p] == QueryRange(a.opts, offs, p)
    requires p in b.ranges ==> b.ranges[p] == QueryRange(b.opts, offs, p)
    requires AreCursors(a.ranges, next) && CarriesOver(next, a.opts.partitionOffsets, a.result.cursor.value)
    ensures IsRemainder(a, b, next, p)
  {
    var q :| q in next;
    assert q in a.result.cursor.value;
    assert StartOffsets(b.opts, offs) == b.opts.partitionOffsets;
  }

  /** So the next page's scope is exactly what the page left. */
  lemma ResumedScope(log: set<Record>, offs: TopicOffsets, a: Page, b: Page)
    requires AreOffsetsOf(offs) && Ordered(Scope(log, a)) && IsWhole(a) && Follows(a, b) && a.opts.from != Unset
    requires IsPage(log, offs, a.opts, a.ranges, a.result, a.polls)
        && IsPage(log, offs, b.opts, b.ranges, b.result, b.polls)
    ensures a.result.messages != [] && IsBackward(b.opts) == IsBackward(a.opts)
    ensures Scope(log, b) == Left(log, a)
  {
    var next := ExactNext(log, offs, a);
    PageQuery(log, offs, a);
    PageQuery(log, offs, b);
    hide *;
    Directions(a, b);
    forall p: Partition ensures IsRemainder(a, b, next, p) {
      ResumedRange(log, offs, a, b, next, p);
    }
    RemainderIsLeft(log, a, b, next);
  }

  lemma Directions(a: Page, b: Page)
    requires Follows(a, b)
    ensures IsBackward(b.opts) == IsBackward(a.opts)
  {
  }

  lemma RemainderIsLeft(log: set<Record>, a: Page, b: Page, next: map<Partition, int>)
    requires AreCursors(a.ranges, next) && ToSet(a.result.messages) == Behind(log, a.ranges, IsBackward(a.opts), next)
    requires forall p: Partition :: IsRemainder(a, b, next, p)
    ensures Scope(log, b) == Left(log, a)
  {
    hide IsBackward;
    forall r ensures r in Scope(log, b) <==> r in Left(log, a) {
      assert IsRemainder(a, b, next, r.part);
    }
  }

  lemma PageQuery(log: set<Record>, offs: TopicOffsets, a: Page)
    requires IsPage(log, offs, a.opts, a.ranges, a.result, a.polls)
    ensures IsQuery(a.opts, offs, a.ranges)
    ensures ToSet(a.result.messages) <= Scope(log, a) && NoDup(a.result.messages)
  {
    hide IsQuery, Ordered, IsExactPage, Before;
    SortedNoDup(a.result.messages, IsBackward(a.opts));
  }

  // --- any timestamps, any page ---

  lemma PageCursor(log: set<Record>, offs: TopicOffsets, a: Page) returns (next: map<Partition, int>)
    requires IsPage(log, offs, a.opts, a.ranges, a.result, a.polls) && a.result.cursor.Some?
    ensures a.result.messages != [] && AreCursors(a.ranges, next) && next != map[]
    ensures ToSet(a.result.messages) <= Behind(log, a.ranges, IsBackward(a.opts), next)
    ensures CarriesOver(next, if IsBackward(a.opts) then a.opts.cursorUpperBounds
        else a.opts.partitionOffsets, a.result.cursor.value)
  {
    hide IsQuery, Ordered, CarriesOver, FirstOf, SortedBefore, IsExactPage;
    next :| IsCursorOf(log, a.ranges, a.opts, a.result, next);
    var p :| p in a.ranges && p in next;
  }

  /** Whatever the timestamps, the next page reads nothing the page delivered, and nothing new. */
  lemma ResumedInside(log: set<Record>, offs: TopicOffsets, a: Page, b: Page)
    requires AreOffsetsOf(offs) && Follows(a, b) && a.opts.from != Unset
    requires IsPage(log, offs, a.opts, a.ranges, a.result, a.polls) && IsQuery(b.opts, offs, b.ranges)
    ensures Scope(log, b) <= Left(log, a) && a.result.messages != []
  {
    var next := PageCursor(log, offs, a);
    PageQuery(log, offs, a);
    hide *;
    Directions(a, b);
    forall p: Partition ensures IsRemainder(a, b, next, p) {
      ResumedRange(log, offs, a, b, next, p);
    }
    RemainderInside(log, a, b, next);
  }

  lemma RemainderInside(log: set<Record>, a: Page, b: Page, next: map<Partition, int>)
    requires AreCursors(a.ranges, next) && ToSet(a.result.messages) <= Behind(log, a.ranges, IsBackward(a.opts), next)
    requires forall p: Partition :: IsRemainder(a, b, next, p)
    ensures Scope(log, b) <= Left(log, a)
  {
    hide IsBackward;
    forall r | r in Scope(log, b) ensures r in Left(log, a) {
      assert IsRemainder(a, b, next, r.part);
      assert r in ToSet(a.result.messages) ==> r in Behind(log, a.ranges, IsBackward(a.opts), next);
    }
  }

  /** No chain delivers a record twice, whatever the timestamps and even if pages were cut short. */
  lemma {:induction false} NeverTwice(log: set<Record>, offs: TopicOffsets, pages: seq<Page>)
    requires AreOffsetsOf(offs) && IsChain(log, offs, pages) && pages[0].opts.from != Unset
    ensures NoDup(Messages(pages)) && ToSet(Messages(pages)) <= Scope(log, pages[0])
  {
    hide *;
    ChainHead(log, offs, pages);
    var a := pages[0];
    PageQuery(log, offs, a);
    if |pages| == 1 {
      assert pages == [a] + [];
      MorePages(a, []);
      NoPages();
      assert a.result.messages + [] == a.result.messages;
    } else {
      PageQuery(log, offs, pages[1]);
      ResumedInside(log, offs, a, pages[1]);
      NeverTwice(log, offs, pages[1..]);
      assert pages == [a] + pages[1..];
      MorePages(a, pages[1..]);
      JoinOnce(log, a, Messages(pages[1..]));
    }
  }

  lemma NoPages()
    ensures Messages([]) == []
  {
  }

  lemma JoinOnce(log: set<Record>, a: Page, more: seq<Record>)
    requires ToSet(a.result.messages) <= Scope(log, a) && NoDup(a.result.messages)
    requires NoDup(more) && ToSet(more) <= Left(log, a)
    ensures NoDup(a.result.messages + more) && ToSet(a.result.messages + more) <= Scope(log, a)
  {
    hide Scope, NoDup;
    forall x | x in a.result.messages ensures x !in more {
      assert x in ToSet(a.result.messages);
      assert x in more ==> x in ToSet(more);
    }
    NoDupConcat(a.result.messages, more);
    forall x | x in ToSet(a.result.messages + more) ensures x in Scope(log, a) {
      assert x in a.result.messages ==> x in ToSet(a.result.messages);
      assert x in more ==> x in ToSet(more);
    }
  }

  /** Every chain ends: each page but the last delivers a record. */
  lemma ChainTerminates(log: set<Record>, offs: TopicOffsets, pages: seq<Page>)
    requires AreOffsetsOf(offs) && IsChain(log, offs, pages) && pages[0].opts.from != Unset
    ensures |pages| <= |Scope(log, pages[0])| + 1
    decreases |pages|
  {
    hide *;
    ChainHead(log, offs, pages);
    if |pages| > 1 {
      var a := pages[0];
      PageQuery(log, offs, a);
      PageQuery(log, offs, pages[1]);
      ResumedInside(log, offs, a, pages[1]);
      ChainTerminates(log, offs, pages[1..]);
      LeftShrinks(log, a);
      SubsetSize(Scope(log, pages[1]), Left(log, a));
    }
  }

  // --- ordered timestamps ---

  lemma ExactNext(log: set<Record>, offs: TopicOffsets, a: Page) returns (next: map<Partition, int>)
    requires IsPage(log, offs, a.opts, a.ranges, a.result, a.polls) && Ordered(Scope(log, a)) && IsWhole(a)
    requires a.result.cursor.Some?
    ensures a.result.messages != [] && IsExactPage(log, a.ranges, a.opts, a.result, next)
    ensures AreCursors(a.ranges, next) && next.Keys == a.ranges.Keys && next != map[]
    ensures ToSet(a.result.messages) == Behind(log, a.ranges, IsBackward(a.opts), next)
    ensures CarriesOver(next, if IsBackward(a.opts) then a.opts.cursorUpperBounds
        else a.opts.partitionOffsets, a.result.cursor.value)
  {
    hide IsQuery, Ordered, CarriesOver, FirstOf, SortedBefore;
    next :| IsExactPage(log, a.ranges, a.opts, a.result, next);
    if a.result.hasMore {
      var p :| p in a.ranges && p in next;
    }
  }

  /** The pages deliver the records of s, each once. */
  ghost predicate DeliverExactly(s: set<Record>, pages: seq<Page>) {
    NoDup(Messages(pages)) && ToSet(Messages(pages)) == s
  }

  /** A chain delivers every record of the first page's ranges at most once, and
      all but those its last page leaves: no cursor passes an undelivered record. */
  lemma {:induction false} ChainIsExact(log: set<Record>, offs: TopicOffsets, pages: seq<Page>)
    requires AreOffsetsOf(offs) && IsChain(log, offs, pages) && pages[0].opts.from != Unset
    requires AreWhole(pages) && Ordered(Scope(log, pages[0]))
    ensures Left(log, pages[|pages| - 1]) <= Scope(log, pages[0])
    ensures DeliverExactly(Scope(log, pages[0]) - Left(log, pages[|pages| - 1]), pages)
  {
    hide *;
    ChainHead(log, offs, pages);
    WholeHead(pages);
    var a, left := pages[0], Left(log, pages[|pages| - 1]);
    PageQuery(log, offs, a);
    if |pages| == 1 {
      OnePage(log, a);
      assert pages == [a];
    } else {
      ResumedScope(log, offs, a, pages[1]);
      LeftInside(log, a);
      OrderedSubset(Scope(log, pages[1]), Scope(log, a));
      ChainIsExact(log, offs, pages[1..]);
      assert pages[1..][|pages| - 2] == pages[|pages| - 1];
      JoinDelivered(log, a, pages[1..], left);
      assert pages == [a] + pages[1..];
    }
  }

  lemma OrderedSubset(s: set<Record>, log: set<Record>)
    requires Ordered(log) && s <= log
    ensures Ordered(s)
  {
  }

  lemma LeftInside(log: set<Record>, a: Page)
    ensures Left(log, a) <= Scope(log, a)
  {
  }

  lemma ChainHead(log: set<Record>, offs: TopicOffsets, pages: seq<Page>)
    requires IsChain(log, offs, pages)
    ensures pages != []
    ensures IsPage(log, offs, pages[0].opts, pages[0].ranges, pages[0].result, pages[0].polls)
    ensures |pages| > 1 ==> Follows(pages[0], pages[1]) && IsChain(log, offs, pages[1..]) && pages[1].opts.from != Unset
    ensures |pages| > 1 ==> IsPage(log, offs, pages[1].opts, pages[1].ranges, pages[1].result, pages[1].polls)
  {
    hide IsPage;
  }

  lemma WholeHead(pages: seq<Page>)
    requires AreWhole(pages) && pages != []
    ensures IsWhole(pages[0]) && AreWhole(pages[1..])
  {
    hide IsWhole;
  }

  lemma MorePages(a: Page, pages: seq<Page>)
    ensures Messages([a] + pages) == a.result.messages + Messages(pages)
  {
    assert ([a] + pages)[1..] == pages;
  }

  lemma OnePage(log: set<Record>, a: Page)
    requires ToSet(a.result.messages) <= Scope(log, a) && NoDup(a.result.messages)
    ensures Left(log, a) <= Scope(log, a) && DeliverExactly(Scope(log, a) - Left(log, a), [a])
  {
    MorePages(a, []);
    assert [a] + [] == [a];
  }

  lemma JoinDelivered(log: set<Record>, a: Page, pages: seq<Page>, left: set<Record>)
    requires ToSet(a.result.messages) <= Scope(log, a) && NoDup(a.result.messages)
    requires left <= Left(log, a) && DeliverExactly(Left(log, a) - left, pages)
    ensures left <= Scope(log, a) && DeliverExactly(Scope(log, a) - left, [a] + pages)
  {
    MorePages(a, pages);
    hide Messages, Scope, NoDup;
    forall x | x in a.result.messages ensures x !in Messages(pages) {
      assert x in ToSet(a.result.messages);
      assert x in Messages(pages) ==> x in ToSet(Messages(pages));
    }
    NoDupConcat(a.result.messages, Messages(pages));
    forall x ensures x in ToSet(Messages([a] + pages)) <==> x in Scope(log, a) - left {
      assert x in a.result.messages <==> x in ToSet(a.result.messages);
      assert x in Messages(pages) <==> x in ToSet(Messages(pages));
    }
  }

  /** A nonempty page without HasMore leaves nothing, so a chain that ends on one
      delivered every record of its ranges once. */
  lemma FinishedChainIsComplete(log: set<Record>, offs: TopicOffsets, pages: seq<Page>)
    requires AreOffsetsOf(offs) && IsChain(log, offs, pages) && pages[0].opts.from != Unset
    requires AreWhole(pages) && Ordered(Scope(log, pages[0]))
    requires var last := pages[|pages| - 1].result; last.messages != [] && !last.hasMore
    ensures DeliverExactly(Scope(log, pages[0]), pages)
  {
    hide *;
    ChainHead(log, offs, pages);
    WholeHead(pages);
    ChainIsExact(log, offs, pages);
    LastPage(log, offs, pages);
    NothingLeft(log, offs, pages[|pages| - 1]);
    assert Scope(log, pages[0]) - {} == Scope(log, pages[0]);
  }

  lemma {:induction false} LastPage(log: set<Record>, offs: TopicOffsets, pages: seq<Page>)
    requires AreOffsetsOf(offs) && IsChain(log, offs, pages) && pages[0].opts.from != Unset
    requires AreWhole(pages) && Ordered(Scope(log, pages[0]))
    ensures
      var last := pages[|pages| - 1];
      && Ordered(Scope(log, last)) && IsWhole(last)
      && IsPage(log, offs, last.opts, last.ranges, last.result, last.polls)
  {
    hide *;
    ChainHead(log, offs, pages);
    WholeHead(pages);
    if |pages| > 1 {
      ResumedScope(log, offs, pages[0], pages[1]);
      LeftInside(log, pages[0]);
      OrderedSubset(Scope(log, pages[1]), Scope(log, pages[0]));
      LastPage(log, offs, pages[1..]);
    }
  }

  lemma NothingLeft(log: set<Record>, offs: TopicOffsets, a: Page)
    requires IsPage(log, offs, a.opts, a.ranges, a.result, a.polls) && Ordered(Scope(log, a)) && IsWhole(a)
    requires a.result.messages != [] && !a.result.hasMore
    ensures Left(log, a) == {}
  {
    hide IsQuery, Ordered, CarriesOver, FirstOf, SortedBefore;
    var next :| IsExactPage(log, a.ranges, a.opts, a.result, next);
    assert !LeavesMore(a.ranges, IsBackward(a.opts), next);
  }

  lemma LeftShrinks(log: set<Record>, a: Page)
    requires a.result.messages != [] && ToSet(a.result.messages) <= Scope(log, a)
    ensures |Left(log, a)| < |Scope(log, a)|
  {
    assert a.result.messages[0] in ToSet(a.result.messages);
    SubsetSize(Left(log, a), Scope(log, a));
  }

  ghost predicate AllSettled(log: set<Record>, pages: seq<Page>) {
    forall i :: 0 <= i < |pages| ==> IsSettled(log, pages[i].opts, pages[i].ranges, pages[i].result, pages[i].polls)
  }

  /** Settled pages sort: put one after the other they are the newest (backward) or
      oldest records of the whole range in page order. */
  lemma {:induction false} SettledPagesSort(log: set<Record>, offs: TopicOffsets, pages: seq<Page>)
    requires AreOffsetsOf(offs) && IsChain(log, offs, pages) && pages[0].opts.from != Unset
    requires AreWhole(pages) && Ordered(Scope(log, pages[0]))
    requires AllSettled(log, pages)
    ensures FirstOf(Messages(pages), Scope(log, pages[0]), |Messages(pages)|, IsBackward(pages[0].opts))
  {
    hide *;
    ChainHead(log, offs, pages);
    WholeHead(pages);
    SettledHead(log, pages);
    var a := pages[0];
    var first, rest := a.result.messages, Messages(pages[1..]);
    FirstPage(log, offs, a);
    MorePages(a, pages[1..]);
    assert pages == [a] + pages[1..];
    if |pages| == 1 {
      NoPages();
      assert Messages(pages) == first;
    } else {
      ResumedScope(log, offs, a, pages[1]);
      LeftIs(log, a);
      OrderedSubset(Scope(log, pages[1]), Scope(log, a));
      SettledPagesSort(log, offs, pages[1..]);
      JoinPages(first, rest, Scope(log, a), a.opts.limit, IsBackward(a.opts));
    }
  }

  lemma SettledHead(log: set<Record>, pages: seq<Page>)
    requires AllSettled(log, pages) && pages != []
    ensures IsSettled(log, pages[0].opts, pages[0].ranges, pages[0].result, pages[0].polls)
        && AllSettled(log, pages[1..])
  {
    hide IsSettled;
  }

  lemma LeftIs(log: set<Record>, a: Page)
    ensures Left(log, a) == Scope(log, a) - ToSet(a.result.messages) <= Scope(log, a)
  {
    hide Scope;
  }

  lemma FirstPage(log: set<Record>, offs: TopicOffsets, a: Page)
    requires IsPage(log, offs, a.opts, a.ranges, a.result, a.polls) && Ordered(Scope(log, a))
        && IsSettled(log, a.opts, a.ranges, a.result, a.polls)
    ensures a.opts.limit > 0
    ensures FirstOf(a.result.messages, Scope(log, a), a.opts.limit, IsBackward(a.opts))
    ensures FirstOf(a.result.messages, Scope(log, a), |a.result.messages|, IsBackward(a.opts))
  {
    hide Ordered, InRanges, Before, IsQuery, IsExactPage;
  }
}
