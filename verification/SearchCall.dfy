/** SearchMessages of internal/kafka/search.go: from the options of a call to its page. */
module SearchCall {
  import opened Sets
  import opened Records
  import opened RecordSource
  import opened TimeMerge
  import opened ParseErrors
  import opened SearchState
  import opened SearchScan
  import opened SearchWalk
  import opened Search

  datatype SearchOptions = SearchOptions(limit: int, budget: int, newestFirst: bool, stopOnLimit: bool,
                                         cursors: map<Partition, int>)

  /** Partitions of a topic with their offsets; fromTS and toTS hold the offsets of
      the time bounds, and are empty when the bound is unset. */
  datatype TopicOffsets = TopicOffsets(parts: seq<Partition>, start: map<Partition, int>, end: map<Partition, int>,
                                       fromTS: map<Partition, int>, toTS: map<Partition, int>)

  const DEFAULT_LIMIT := 50
  const MAX_LIMIT := 500
  const DEFAULT_BUDGET := 10000
  const MAX_BUDGET := 500000
  const CHUNK_SIZE := 4000

  function WithDefaults(opts: SearchOptions): (o: SearchOptions)
    ensures 0 < o.limit <= MAX_LIMIT && 0 < o.budget <= MAX_BUDGET
    ensures 0 < opts.limit <= MAX_LIMIT ==> o.limit == opts.limit
    ensures (opts.limit <= 0 ==> o.limit == 50) && (opts.limit > MAX_LIMIT ==> o.limit == 500)
    ensures 0 < opts.budget <= MAX_BUDGET ==> o.budget == opts.budget
    ensures (opts.budget <= 0 ==> o.budget == 10000) && (opts.budget > MAX_BUDGET ==> o.budget == 500000)
    ensures o.newestFirst == opts.newestFirst && o.stopOnLimit == opts.stopOnLimit && o.cursors == opts.cursors
  {
    opts.(limit := Min(if opts.limit <= 0 then DEFAULT_LIMIT else opts.limit, MAX_LIMIT),
          budget := Min(if opts.budget <= 0 then DEFAULT_BUDGET else opts.budget, MAX_BUDGET))
  }

  /** The offset recorded for p, 0 when there is none. */
  function OffsetOf(offsets: map<Partition, int>, p: Partition): int {
    if p in offsets then offsets[p] else 0
  }

  /** Narrows [start, end) of p to the offsets in fromOff and toOff. */
  function ClampRange(p: Partition, start: int, end: int, fromOff: map<Partition, int>,
                      toOff: map<Partition, int>): Range {
    Range(if p in fromOff && fromOff[p] > start then fromOff[p] else start,
          if p in toOff && toOff[p] < end then toOff[p] else end)
  }

  function Bounds(offs: TopicOffsets, p: Partition): Range {
    ClampRange(p, OffsetOf(offs.start, p), OffsetOf(offs.end, p), offs.fromTS, offs.toTS)
  }

  /** A continuation cursor overrides the end (newest-first) or the start (oldest-first). */
  function Resumed(newestFirst: bool, cursors: map<Partition, int>, p: Partition, bounds: Range): Range {
    if p !in cursors then bounds
    else if newestFirst then Range(bounds.start, Min(bounds.end, cursors[p]))
    else Range(Max(bounds.start, cursors[p]), bounds.end)
  }

  /** ranges holds the nonempty range of every partition. */
  ghost predicate IsResolved(newestFirst: bool, cursors: map<Partition, int>, offs: TopicOffsets,
                             ranges: map<Partition, Range>) {
    && (forall p ::
      p in ranges <==> p in offs.parts && var r := Resumed(newestFirst, cursors, p, Bounds(offs, p)); r.start < r.end)
    && (forall p :: p in ranges ==> ranges[p] == Resumed(newestFirst, cursors, p, Bounds(offs, p)))
  }

  /** The offsets of resolved ranges: those of the topic within the time bounds that are
      not behind the cursor. */
  lemma ResolvedCovers(newestFirst: bool, cursors: map<Partition, int>, offs: TopicOffsets,
                       ranges: map<Partition, Range>)
    requires IsResolved(newestFirst, cursors, offs, ranges)
    ensures forall p, o :: Covers(ranges, p, o) <==>
              && p in offs.parts
              && (if p in offs.start then offs.start[p] else 0) <= o < (if p in offs.end then offs.end[p] else 0)
              && (p in offs.fromTS ==> offs.fromTS[p] <= o)
              && (p in offs.toTS ==> o < offs.toTS[p])
              && (p in cursors ==> if newestFirst then o < cursors[p] else cursors[p] <= o)
  {
  }

  method ResolveSearchRange(opts: SearchOptions, offs: TopicOffsets) returns (out: map<Partition, Range>)
    ensures IsResolved(opts.newestFirst, opts.cursors, offs, out) && ValidRanges(out)
    ensures forall p, o :: Covers(out, p, o) <==>
              && p in offs.parts
              && (if p in offs.start then offs.start[p] else 0) <= o < (if p in offs.end then offs.end[p] else 0)
              && (p in offs.fromTS ==> offs.fromTS[p] <= o)
              && (p in offs.toTS ==> o < offs.toTS[p])
              && (p in opts.cursors ==> if opts.newestFirst then o < opts.cursors[p] else opts.cursors[p] <= o)
  {
    out := map[];
    for i := 0 to |offs.parts|
      invariant forall p ::
          p in out <==>
            p in offs.parts[..i] && var r := Resumed(opts.newestFirst, opts.cursors, p, Bounds(offs, p));
              r.start < r.end
      invariant forall p :: p in out ==> out[p] == Resumed(opts.newestFirst, opts.cursors, p, Bounds(offs, p))
    {
      var p := offs.parts[i];
      assert offs.parts[..i + 1] == offs.parts[..i] + [p];
      var bounds := Bounds(offs, p);
      var begin, finish := bounds.start, bounds.end;
      if p in opts.cursors {
        if opts.newestFirst {
          finish := Min(finish, opts.cursors[p]);
        } else {
          begin := Max(begin, opts.cursors[p]);
        }
      }
      if finish > begin {
        out := out[p := Range(begin, finish)];
      }
    }
    assert offs.parts[..|offs.parts|] == offs.parts;
    ResolvedCovers(opts.newestFirst, opts.cursors, offs, out);
  }

  /** Chunk size of a newest-first search: as many offsets of every partition as the
      budget allows, but at least one and at most CHUNK_SIZE. */
  function SearchChunk(budget: nat, partitions: nat): (chunk: nat)
    ensures 0 < chunk <= 4000
    ensures 0 < partitions && chunk > 1 ==> partitions * chunk <= budget
    ensures 0 < partitions && chunk < 4000 ==> budget < partitions * (chunk + 1)
    ensures 0 < budget && 0 < partitions ==> partitions * (chunk - 1) < budget
  {
    var share := budget / Max(1, partitions);
    var chunk := Max(1, Min(CHUNK_SIZE, share));
    ChunkFits(budget, Max(1, partitions), chunk);
    chunk
  }

  lemma ChunkFits(budget: nat, partitions: nat, chunk: nat)
    requires partitions > 0 && chunk == Max(1, Min(CHUNK_SIZE, budget / partitions))
    ensures chunk > 1 ==> partitions * chunk <= budget
    ensures chunk < CHUNK_SIZE ==> budget < partitions * (chunk + 1)
    ensures 0 < budget ==> partitions * (chunk - 1) < budget
  {
    var share := budget / partitions;
    assert budget == partitions * share + budget % partitions;
    if chunk > 1 {
      MulMonotone(partitions, chunk, share);
      MulMonotone(partitions, chunk - 1, chunk - 1);
    }
    if chunk < CHUNK_SIZE {
      MulMonotone(partitions, share, chunk);
      MulMonotone(partitions, share, share);
    }
  }

  lemma MulMonotone(a: nat, b: int, c: int)
    requires b <= c
    ensures a * b <= a * c
    ensures a * c == a * (c + 1) - a
  {
  }

  /** The cursors of partitions an earlier call finished stay with the follow-up. */
  ghost predicate IsCarried(next: map<Partition, int>, cursors: map<Partition, int>, parts: seq<Partition>,
                            out: map<Partition, int>) {
    && (forall p :: p in out <==> p in next || (p in parts && p in cursors))
    && (forall p :: p in out ==> out[p] == if p in next then next[p] else cursors[p])
  }

  method CarryDoneCursors(next: map<Partition, int>, cursors: map<Partition, int>, parts: seq<Partition>)
    returns (out: map<Partition, int>)
    ensures IsCarried(next, cursors, parts, out)
  {
    out := next;
    for i := 0 to |parts|
      invariant forall p :: p in out <==> p in next || (p in parts[..i] && p in cursors)
      invariant forall p :: p in out ==> out[p] == if p in next then next[p] else cursors[p]
    {
      var p := parts[i];
      assert parts[..i + 1] == parts[..i] + [p];
      if p !in out && p in cursors {
        out := out[p := cursors[p]];
      }
    }
    assert parts[..|parts|] == parts;
  }

  /** What a call returns: `page.next` are the cursors of its ranges, `next` those
      it hands out, with the finished partitions' carried along. */
  datatype SearchResult = SearchResult(page: SearchPage, next: map<Partition, int>, ranges: map<Partition, Range>,
                                       read: nat, budgetExhausted: bool, timedOut: bool)

  datatype SearchOutcome = SearchFailed | Found(result: SearchResult)

  /** Some cursor moved past an offset of this call's ranges. */
  ghost predicate Progresses(ranges: map<Partition, Range>, newestFirst: bool, next: map<Partition, int>) {
    exists p :: p in ranges && p in next && if newestFirst then next[p] < ranges[p].end else ranges[p].start < next[p]
  }

  /** The page is the first `limit` matches of the call's whole range. */
  ghost predicate IsFirstPage(matcher: Matcher, log: set<Record>, ranges: map<Partition, Range>, newestFirst: bool,
                              limit: nat, messages: seq<Record>) {
    FirstOf(messages, Hits(matcher, InRanges(log, ranges)), limit, newestFirst)
  }

  /** What the polls of a call answered, and what that means for its result: with a
      record in every answer nothing is given up. */
  ghost predicate IsSearch(matcher: Matcher, log: set<Record>, offs: TopicOffsets, opts: SearchOptions,
                           r: SearchResult, polls: seq<PollResult>) {
    && IsCall(matcher, log, offs, opts, r)
    && (!EmptyRun(polls, 1) ==> IsDiligent(matcher, log, opts, r))
    && (r.timedOut ==> SomeFailed(polls))
  }

  /** One search call over a fixed log. */
  method SearchMessages(broker: Broker, matcher: Matcher, options: SearchOptions, offs: TopicOffsets)
    returns (res: SearchOutcome)
    requires IsLog(broker.log)
    modifies broker
    ensures old(broker.polls) <= broker.polls
    ensures res.Found? ==>
        IsSearch(matcher, broker.log, offs, WithDefaults(options), res.result, broker.polls[|old(broker.polls)|..])
    ensures res.SearchFailed? ==> SomeFailed(broker.polls[|old(broker.polls)|..])
  {
    hide *;
    var opts := WithDefaults(options);
    var ranges := ResolveSearchRange(opts, offs);
    ghost var log, begin := broker.log, |broker.polls|;
    if ranges == map[] {
      res := Found(SearchResult(SearchPage([], map[], false, 0, 0, 0, []), map[], ranges, 0, false, false));
      EmptyCall(matcher, log, offs, opts, ranges);
      MakeSearch(matcher, log, offs, opts, res.result, broker.polls[begin..]);
      return;
    }
    var chunk := if opts.newestFirst then SearchChunk(opts.budget, |ranges|) else 0;
    var scan := new RecordScan(broker, ranges, chunk, 1);
    var sc := new SearchScan(matcher, log, ranges, opts.newestFirst);
    StartsCoupled(scan, sc, opts.limit, opts.stopOnLimit);
    NoPollYet(broker.polls);
    var stop := RunSearch(scan, sc, opts.limit, opts.budget, opts.stopOnLimit);
    SinceIs(broker.polls, begin, 1);
    if stop == Failed {
      return SearchFailed;
    }
    var pg := sc.Page(opts.limit);
    var next := CarryDoneCursors(pg.next, opts.cursors, offs.parts);
    res := Found(SearchResult(pg, next, ranges, sc.read, stop == BudgetExhausted, stop == TimedOut));
    CallReports(sc, offs, opts, res.result);
    HasPageFacts(sc, opts.limit, pg);
    if NothingGivenUp(sc) {
      CallIsDiligent(sc, opts, chunk, stop, res.result);
    }
    MakeSearch(matcher, log, offs, opts, res.result, broker.polls[begin..]);
  }

  lemma MakeSearch(matcher: Matcher, log: set<Record>, offs: TopicOffsets, opts: SearchOptions, r: SearchResult,
                   polls: seq<PollResult>)
    requires IsCall(matcher, log, offs, opts, r) && opts.limit > 0
    requires EmptyRun(polls, 1) || IsDiligent(matcher, log, opts, r)
    requires r.timedOut ==> SomeFailed(polls)
    ensures IsSearch(matcher, log, offs, opts, r, polls)
  {
    hide IsCall, IsDiligent, EmptyRun;
  }

  lemma HasPageFacts(sc: SearchScan, limit: nat, pg: SearchPage)
    requires sc.Valid() && IsReport(sc.matcher, sc.log, sc.ranges, sc.newestFirst, limit, pg)
    requires ToSet(pg.messages) == PageSet(sc.Reportable(), limit, sc.newestFirst)
        && |pg.messages| == Min(limit, sc.confirmed)
    requires |pg.messages| == sc.confirmed ==>
        forall p :: p in sc.ranges && p in sc.frontier ==> p in pg.next && pg.next[p] == sc.NextOf(p)
    ensures PageFacts(sc, limit, pg)
  {
    hide IsReport, ToSet, PageSet;
    FrontierKeys(sc.log, sc.ranges, sc.seen, sc.frontier);
  }

  /** What every call returns: the exact content behind its cursors. */
  ghost predicate IsCall(matcher: Matcher, log: set<Record>, offs: TopicOffsets, opts: SearchOptions, r: SearchResult) {
    && opts.limit > 0
    && IsResolved(opts.newestFirst, opts.cursors, offs, r.ranges)
    && IsReport(matcher, log, r.ranges, opts.newestFirst, opts.limit, r.page)
    && r.page.scanned <= r.read <= opts.budget && r.read <= |InRanges(log, r.ranges)|
    && (r.budgetExhausted ==> r.read == opts.budget)
    && (if r.ranges == map[] then r.next == map[] else IsCarried(r.page.next, opts.cursors, offs.parts, r.next))
  }

  /** What a call adds that gave nothing up. One that also ended by itself returns
      the first matches of its whole range; one that ran into no timeout and leaves
      something to read has moved a cursor. */
  ghost predicate IsDiligent(matcher: Matcher, log: set<Record>, opts: SearchOptions, r: SearchResult)
    requires opts.limit > 0
  {
    && (!r.budgetExhausted && !r.timedOut ==>
          && (Ordered(InRanges(log, r.ranges)) ==>
            IsFirstPage(matcher, log, r.ranges, opts.newestFirst, opts.limit, r.page.messages))
          && (!opts.stopOnLimit ==>
                ToSet(r.page.messages) == PageSet(Hits(matcher, InRanges(log, r.ranges)), opts.limit,
                                                  opts.newestFirst)))
    && (!r.timedOut && r.page.more ==> Progresses(r.ranges, opts.newestFirst, r.page.next))
  }

  lemma EmptyCall(matcher: Matcher, log: set<Record>, offs: TopicOffsets, opts: SearchOptions,
                  ranges: map<Partition, Range>)
    requires ranges == map[] && opts.limit > 0 && opts.budget > 0
        && IsResolved(opts.newestFirst, opts.cursors, offs, ranges)
    ensures IsCall(matcher, log, offs, opts, SearchResult(SearchPage([], map[], false, 0, 0, 0, []), map[], ranges, 0,
                                                          false, false))
    ensures IsDiligent(matcher, log, opts, SearchResult(SearchPage([], map[], false, 0, 0, 0, []), map[], ranges, 0,
                                                        false, false))
  {
    assert InRanges(log, ranges) == {} && Behind(log, ranges, opts.newestFirst, map[]) == {};
    assert Hits(matcher, {}) == {} && Errors(matcher, {}) == {};
  }

  lemma StartsCoupled(scan: RecordScan, sc: SearchScan, limit: nat, stopOnLimit: bool)
    requires scan.client.log == sc.log && scan.ranges == sc.ranges && (sc.newestFirst <==> scan.chunk > 0)
    requires scan.Idle() && sc.Valid() && limit > 0 && sc.lastAt == 0
    requires sc.seen == {} && sc.stuck == {} && sc.drained == {} && sc.parked == {}
    requires scan.cursors.Keys == scan.ranges.Keys
    requires forall p ::
        p in scan.ranges ==>
          scan.cursors[p].upper == scan.ranges[p].end && p in sc.frontier && sc.frontier[p] == scan.ranges[p].end
    requires forall p :: p in scan.ranges ==> p in scan.client.next && scan.client.next[p] == scan.cursors[p].pos
    ensures Searching(scan, sc, limit, stopOnLimit) && sc.read == 0 && NothingGivenUp(sc)
  {
    hide AreDetails, AreMatches, AreOffsets, ArePending, AreLowest, AreLowestTS, AreHighest;
    assert sc.Reportable() == {};
    forall p | p in sc.ranges ensures CoupledAt(WalkOf(scan, sc), p) {
    }
  }

  lemma CallReports(sc: SearchScan, offs: TopicOffsets, opts: SearchOptions, r: SearchResult)
    requires sc.Valid() && opts.newestFirst == sc.newestFirst && opts.limit > 0
    requires IsResolved(opts.newestFirst, opts.cursors, offs, sc.ranges) && sc.ranges != map[]
    requires r.ranges == sc.ranges && IsReport(sc.matcher, sc.log, sc.ranges, sc.newestFirst, opts.limit, r.page)
    requires r.read == sc.read <= opts.budget && (r.budgetExhausted ==> r.read == opts.budget)
        && IsCarried(r.page.next, opts.cursors, offs.parts, r.next)
    requires Behind(sc.log, sc.ranges, sc.newestFirst, r.page.next) <= sc.seen
    ensures IsCall(sc.matcher, sc.log, offs, opts, r)
  {
    SubsetSize(Behind(sc.log, sc.ranges, sc.newestFirst, r.page.next), sc.seen);
    SubsetSize(sc.seen, InRanges(sc.log, sc.ranges));
  }

  /** What page reports, as far as the next lemmas need it. */
  ghost predicate PageFacts(sc: SearchScan, limit: nat, pg: SearchPage)
    reads sc
  {
    && IsReport(sc.matcher, sc.log, sc.ranges, sc.newestFirst, limit, pg)
    && ToSet(pg.messages) == PageSet(sc.Reportable(), limit, sc.newestFirst)
    && |pg.messages| == Min(limit, sc.confirmed)
    && sc.frontier.Keys == sc.ranges.Keys
    && (|pg.messages| == sc.confirmed ==> forall p :: p in sc.ranges && p in sc.frontier ==> pg.next[p] == sc.NextOf(p))
  }

  lemma CallIsDiligent(sc: SearchScan, opts: SearchOptions, chunk: nat, stop: Stop, r: SearchResult)
    requires 0 < opts.limit && 0 < opts.budget
    requires sc.Valid() && sc.ParkedBehind(opts.limit) && NothingGivenUp(sc) && ValidRanges(sc.ranges)
    requires opts.newestFirst == sc.newestFirst && sc.ranges != map[]
    requires sc.newestFirst ==> chunk == SearchChunk(opts.budget, |sc.ranges|)
    requires stop == BudgetExhausted ==> sc.read == opts.budget && (sc.newestFirst ==> SpentBudget(sc, chunk))
    requires stop == Complete ==> CompletePage(sc, opts.limit, opts.stopOnLimit)
    requires r.ranges == sc.ranges && r.budgetExhausted == (stop == BudgetExhausted)
        && r.timedOut == (stop == TimedOut) && stop != Failed
    requires PageFacts(sc, opts.limit, r.page)
    ensures IsDiligent(sc.matcher, sc.log, opts, r)
  {
    hide *;
    if stop == Complete {
      CompleteIsFirst(sc, opts, r.page, r.page.messages);
    }
    if !r.timedOut && r.page.more {
      if r.page.messages != [] {
        MessagesMove(sc, opts.limit, r.page);
      } else {
        NothingPaged(sc, opts.limit, r.page);
        if stop == Complete {
          CompleteLeavesNothing(sc, opts.limit, opts.stopOnLimit, r.page);
        } else if sc.newestFirst {
          NewestMoves(sc, opts.limit, opts.budget, chunk, r.page);
        } else {
          OldestMoves(sc, opts.limit, opts.budget, r.page);
        }
      }
    }
    Diligent(sc.matcher, sc.log, opts, r);
  }

  lemma Diligent(matcher: Matcher, log: set<Record>, opts: SearchOptions, r: SearchResult)
    requires 0 < opts.limit
    requires !r.budgetExhausted && !r.timedOut && Ordered(InRanges(log, r.ranges)) ==>
      IsFirstPage(matcher, log, r.ranges, opts.newestFirst, opts.limit, r.page.messages)
    requires !r.budgetExhausted && !r.timedOut && !opts.stopOnLimit ==>
      ToSet(r.page.messages) == PageSet(Hits(matcher, InRanges(log, r.ranges)), opts.limit, opts.newestFirst)
    requires !r.timedOut && r.page.more ==> Progresses(r.ranges, opts.newestFirst, r.page.next)
    ensures IsDiligent(matcher, log, opts, r)
  {
    hide Ordered, InRanges, IsFirstPage, ToSet, PageSet, Progresses;
  }

  lemma CompleteIsFirst(sc: SearchScan, opts: SearchOptions, pg: SearchPage, messages: seq<Record>)
    requires 0 < opts.limit && sc.Valid() && NothingGivenUp(sc) && CompletePage(sc, opts.limit, opts.stopOnLimit)
    requires PageFacts(sc, opts.limit, pg) && messages == pg.messages
    ensures Ordered(InRanges(sc.log, sc.ranges)) ==>
              IsFirstPage(sc.matcher, sc.log, sc.ranges, sc.newestFirst, opts.limit, messages)
    ensures !opts.stopOnLimit ==>
              ToSet(messages) == PageSet(Hits(sc.matcher, InRanges(sc.log, sc.ranges)), opts.limit, sc.newestFirst)
  {
    hide AreDetails, AreMatches, AreOffsets, AreCounts, ArePending, AreLowest, AreLowestTS, AreHighest, AreEnded,
      IsFrontier, Confirmed,
      Errors, Below, AtOrAbove, IsGapFree, Before, Kept, IsLog, Ordered, InRanges, SortedBefore;
    AllIsLog(sc.matcher, sc.log, sc.ranges, sc.seen);
    if Ordered(InRanges(sc.log, sc.ranges)) {
      PageIsFirst(AllMatches(sc), opts.limit, sc.newestFirst, messages);
    }
  }

  lemma PageIsFirst(all: set<Record>, limit: nat, newestFirst: bool, messages: seq<Record>)
    requires IsLog(all) && Ordered(all) && SortedBefore(messages, newestFirst)
        && ToSet(messages) == Kept(all, limit, newestFirst)
    ensures FirstOf(messages, all, limit, newestFirst)
  {
    hide IsLog, Ordered, Before;
    SortedNoDup(messages, newestFirst);
    NoDupCardinality(messages);
    KeptIsFirst(all, limit, newestFirst);
    assert forall r :: r in messages <==> r in ToSet(messages);
  }

  /** A returned match lies behind its partition's cursor. */
  lemma MessagesMove(sc: SearchScan, limit: nat, pg: SearchPage)
    requires PageFacts(sc, limit, pg) && pg.messages != []
    ensures Progresses(sc.ranges, sc.newestFirst, pg.next)
  {
    hide SortedBefore, PageSet;
    var m := pg.messages[0];
    assert m in ToSet(pg.messages);
    assert m.part in sc.ranges;
  }

  lemma NothingPaged(sc: SearchScan, limit: nat, pg: SearchPage)
    requires sc.Valid() && PageFacts(sc, limit, pg) && pg.messages == [] && 0 < limit
    ensures sc.confirmed == 0 && sc.Reportable() == {}
    ensures forall p :: p in sc.ranges ==> p in pg.next && p in sc.frontier && pg.next[p] == sc.NextOf(p)
  {
    hide AreDetails, AreMatches, AreOffsets, ArePending, AreLowest, AreLowestTS, AreHighest, AreEnded, IsFrontier,
      Confirmed,
      Errors, Below, AtOrAbove, IsGapFree, PageSet, SortedBefore, Behind;
    CountsAreSizes(sc.matcher, sc.newestFirst, sc.seen, sc.frontier, sc.confirmed, sc.confirmedIn);
  }

  lemma CompleteLeavesNothing(sc: SearchScan, limit: nat, stopOnLimit: bool, pg: SearchPage)
    requires CompletePage(sc, limit, stopOnLimit) && NothingGivenUp(sc) && 0 < limit && sc.Reportable() == {}
    requires PageFacts(sc, limit, pg) && forall p ::
        p in sc.ranges ==> p in pg.next && p in sc.frontier && pg.next[p] == sc.NextOf(p)
    ensures !pg.more
  {
    hide SortedBefore, PageSet, Behind;
  }

  lemma NewestMoves(sc: SearchScan, limit: nat, budget: nat, chunk: nat, pg: SearchPage)
    requires sc.Valid() && sc.newestFirst && sc.ParkedBehind(limit) && NothingGivenUp(sc) && sc.Reportable() == {}
        && 0 < limit && 0 < budget
    requires chunk == SearchChunk(budget, |sc.ranges|) && sc.read == budget && SpentBudget(sc, chunk)
        && sc.ranges != map[]
    requires forall p :: p in sc.ranges ==> p in pg.next && p in sc.frontier && pg.next[p] == sc.NextOf(p)
    ensures Progresses(sc.ranges, sc.newestFirst, pg.next)
  {
    hide AreDetails, AreMatches, AreOffsets, ArePending, AreLowest, AreLowestTS, IsFrontier, Errors, Below, AtOrAbove,
      SearchChunk, MovedOn;
    FrontierKeys(sc.log, sc.ranges, sc.seen, sc.frontier);
    assert |sc.ranges| == |sc.ranges.Keys|;
    SomeCursorMoves(sc.ranges, chunk, sc.seen, sc.frontier);
  }

  lemma OldestMoves(sc: SearchScan, limit: nat, budget: nat, pg: SearchPage)
    requires sc.Valid() && !sc.newestFirst && sc.read == budget && 0 < budget && ValidRanges(sc.ranges)
    requires forall p :: p in sc.ranges ==> p in pg.next && p in sc.frontier && pg.next[p] == sc.NextOf(p)
    ensures Progresses(sc.ranges, sc.newestFirst, pg.next)
  {
    hide AreDetails, AreMatches, AreOffsets, IsFrontier, Errors, Confirmed, IsGapFree, AreEnded, AreCounts;
    assert sc.seen != {};
    var r :| r in sc.seen;
    HighestInRanges(sc.log, sc.ranges, sc.seen, sc.highest, sc.highestTS);
    assert r.part in sc.highest && r.part in sc.ranges;
  }
}
