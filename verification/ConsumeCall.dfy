/** One page of ConsumeMessages: internal/kafka/consumer.go. */
module ConsumeCall {
  import opened Options
  import opened Records
  import opened RecordSource
  import opened SearchState
  import opened SearchCall
  import opened ConsumeState
  import opened ConsumeTails
  import opened ConsumePages
  import opened Consumer

  datatype ConsumeFrom = Unset | FromEnd | FromStart | FromOffset | FromTimestamp

  /** `timed` tells whether a time bound is set; the offsets of the bounds come
      with the topic's. Empty maps stand for unset ones. */
  datatype ConsumeOptions = ConsumeOptions(limit: int, from: ConsumeFrom, timed: bool, offset: int,
                                           partitionOffsets: map<Partition, int>,
                                             cursorUpperBounds: map<Partition, int>)

  function ConsumeDefaults(opts: ConsumeOptions): (o: ConsumeOptions)
    ensures 0 < o.limit <= MAX_LIMIT && (0 < opts.limit <= MAX_LIMIT ==> o.limit == opts.limit)
    ensures (opts.limit <= 0 ==> o.limit == 50) && (opts.limit > MAX_LIMIT ==> o.limit == 500)
    ensures opts.from != Unset ==> o.from == opts.from
    // Without a position a time bound is where to start, otherwise the end.
    ensures opts.from == Unset ==> o.from == if opts.timed then FromTimestamp else FromEnd
    ensures o == opts.(limit := o.limit, from := o.from)
  {
    opts.(limit := Min(if opts.limit <= 0 then DEFAULT_LIMIT else opts.limit, MAX_LIMIT),
          from := if opts.from != Unset then opts.from else if opts.timed then FromTimestamp else FromEnd)
  }

  /** Backward pages run from the end. */
  predicate IsBackward(opts: ConsumeOptions) {
    !(opts.from == FromStart || opts.from == FromOffset || opts.from == FromTimestamp)
  }

  /** The offsets a from=offset read starts at; without explicit ones the single partition's. */
  function StartOffsets(opts: ConsumeOptions, offs: TopicOffsets): map<Partition, int> {
    if opts.partitionOffsets != map[] then opts.partitionOffsets
    else if |offs.parts| == 1 then map[offs.parts[0] := opts.offset]
    else map[]
  }

  predicate CanSeek(opts: ConsumeOptions, offs: TopicOffsets) {
    opts.from != FromOffset || opts.partitionOffsets != map[] || |offs.parts| == 1
  }

  /** The offset range a query covers in p, before windows are cut from it. */
  function QueryRange(opts: ConsumeOptions, offs: TopicOffsets, p: Partition): Range {
    if opts.from == FromOffset then
      if p in StartOffsets(opts, offs) && p in offs.end then
        var b := StartOffsets(opts, offs)[p];
        ClampRange(p, if p in offs.start then Max(b, offs.start[p]) else b, offs.end[p], offs.fromTS, offs.toTS)
      else Range(0, 0)
    else
      var r := Bounds(offs, p);
      if opts.from == FromStart || opts.from == FromTimestamp then r
      else ClampRange(p, r.start, r.end, map[], opts.cursorUpperBounds)
  }

  /** ranges holds the nonempty query ranges. */
  ghost predicate IsQuery(opts: ConsumeOptions, offs: TopicOffsets, ranges: map<Partition, Range>) {
    && (forall p :: p in ranges <==> p in offs.parts && QueryRange(opts, offs, p).start < QueryRange(opts, offs, p).end)
    && (forall p :: p in ranges ==> ranges[p] == QueryRange(opts, offs, p))
  }

  /** The options ask for offset o of partition p: it is in the topic and within the time
      bounds, from the start offset on if there is one, and below the upper bound of a
      backward cursor. */
  ghost predicate InQuery(opts: ConsumeOptions, offs: TopicOffsets, p: Partition, o: int) {
    && p in offs.parts
    && (p in offs.fromTS ==> offs.fromTS[p] <= o) && (p in offs.toTS ==> o < offs.toTS[p])
    && if opts.from == FromOffset
       then
         && p in offs.end && o < offs.end[p] && (p in offs.start ==> offs.start[p] <= o)
         && (if opts.partitionOffsets == map[] then |offs.parts| == 1 && opts.offset <= o
             else p in opts.partitionOffsets && opts.partitionOffsets[p] <= o)
       else
         && (if p in offs.start then offs.start[p] else 0) <= o < (if p in offs.end then offs.end[p] else 0)
         && (opts.from == FromEnd && p in opts.cursorUpperBounds ==> o < opts.cursorUpperBounds[p])
  }

  /** The ranges of a query hold exactly these offsets. */
  lemma QueryCovers(opts: ConsumeOptions, offs: TopicOffsets, ranges: map<Partition, Range>)
    requires IsQuery(opts, offs, ranges) && opts.from != Unset
    ensures forall p, o :: Covers(ranges, p, o) <==> InQuery(opts, offs, p, o)
  {
    hide QueryRange, InQuery;
    forall p: Partition, o: int ensures Covers(ranges, p, o) <==> InQuery(opts, offs, p, o) {
      RangeCovers(opts, offs, p, o);
    }
  }

  lemma RangeCovers(opts: ConsumeOptions, offs: TopicOffsets, p: Partition, o: int)
    requires opts.from != Unset
    ensures InQuery(opts, offs, p, o) <==>
              p in offs.parts && QueryRange(opts, offs, p).start <= o < QueryRange(opts, offs, p).end
  {
    assert |offs.parts| == 1 && p in offs.parts ==> p == offs.parts[0];
  }

  /** The windows of the first fetch: the whole range forward, a fair share of its end backward. */
  ghost predicate AreFirstWindows(opts: ConsumeOptions, windows: Windows) {
    && AreWindows(windows)
    && forall p :: p in windows ==>
         var w := windows[p];
         w.begin == if IsBackward(opts) then Max(w.trueBegin, w.stop - FairShare(opts.limit, |windows|))
           else w.trueBegin
  }

  method BuildWindows(opts: ConsumeOptions, offs: TopicOffsets) returns (ok: bool, windows: Windows)
    requires opts.limit > 0 && opts.from != Unset
    ensures ok <==> CanSeek(opts, offs)
    ensures ok ==> IsQuery(opts, offs, FullRanges(windows)) && AreFirstWindows(opts, windows)
    ensures ok ==> forall p, o :: Covers(FullRanges(windows), p, o) <==> InQuery(opts, offs, p, o)
  {
    hide QueryRange, FairShare;
    if opts.from == FromOffset && opts.partitionOffsets == map[] && |offs.parts| != 1 {
      return false, map[];
    }
    var whole := WholeWindows(opts, offs);
    ok := true;
    windows := if IsBackward(opts) then CutShares(whole, FairShare(opts.limit, |whole|)) else whole;
    FirstWindows(opts, offs, whole, windows);
    hide *;
    QueryCovers(opts, offs, FullRanges(windows));
  }

  /** Every nonempty query range as one window. */
  method WholeWindows(opts: ConsumeOptions, offs: TopicOffsets) returns (windows: Windows)
    ensures IsQuery(opts, offs, FullRanges(windows))
    ensures forall p :: p in windows ==> windows[p].begin == windows[p].trueBegin < windows[p].stop
  {
    hide QueryRange;
    windows := map[];
    var todo := set p | p in offs.parts;
    while todo != {}
      invariant forall p :: p in todo ==> p in offs.parts
      invariant forall p :: p in windows <==>
        p in offs.parts && p !in todo && QueryRange(opts, offs, p).start < QueryRange(opts, offs, p).end
      invariant forall p :: p in windows ==>
        var r := QueryRange(opts, offs, p); windows[p] == PageWindow(r.start, r.end, r.start)
    {
      var p :| p in todo;
      todo := todo - {p};
      var r := QueryRange(opts, offs, p);
      if r.end > r.start {
        windows := windows[p := PageWindow(r.start, r.end, r.start)];
      }
    }
  }

  function CutShares(whole: Windows, share: int): (windows: Windows)
    ensures windows.Keys == whole.Keys
    ensures forall p ::
        p in windows ==> windows[p] == whole[p].(begin := Max(whole[p].trueBegin, whole[p].stop - share))
  {
    map p | p in whole :: whole[p].(begin := Max(whole[p].trueBegin, whole[p].stop - share))
  }

  lemma FirstWindows(opts: ConsumeOptions, offs: TopicOffsets, whole: Windows, windows: Windows)
    requires opts.limit > 0
    requires IsQuery(opts, offs, FullRanges(whole)) && forall p ::
        p in whole ==> whole[p].begin == whole[p].trueBegin < whole[p].stop
    requires windows == if IsBackward(opts) then CutShares(whole, FairShare(opts.limit, |whole|)) else whole
    ensures IsQuery(opts, offs, FullRanges(windows)) && AreFirstWindows(opts, windows)
  {
    hide QueryRange, FairShare, IsQuery, CutShares;
    assert |windows| == |windows.Keys| == |whole.Keys| == |whole|;
    assert FullRanges(windows) == FullRanges(whole);
    if windows != map[] {
      assert windows.Keys != {};
    }
  }

  /** Lowest (backward) or highest offset of every partition on the page. */
  method PageBounds(page: seq<Record>, backward: bool) returns (bounds: map<Partition, int>)
    ensures if backward then AreLowestOn(page, bounds) else AreHighestOn(page, bounds)
  {
    bounds := map[];
    for i := 0 to |page|
      invariant if backward then AreLowestOn(page[..i], bounds) else AreHighestOn(page[..i], bounds)
    {
      var m := page[i];
      assert page[..i + 1] == page[..i] + [m];
      ghost var before := bounds;
      if m.part !in bounds || (if backward then m.off < bounds[m.part] else m.off > bounds[m.part]) {
        bounds := bounds[m.part := m.off];
      }
      BoundsGrow(page[..i], m, backward, before, bounds);
    }
    assert page[..|page|] == page;
  }

  lemma BoundsGrow(page: seq<Record>, m: Record, backward: bool, before: map<Partition, int>,
                   bounds: map<Partition, int>)
    requires if backward then AreLowestOn(page, before) else AreHighestOn(page, before)
    requires bounds == if m.part !in before || (if backward then m.off < before[m.part] else m.off > before[m.part])
                       then before[m.part := m.off] else before
    ensures if backward then AreLowestOn(page + [m], bounds) else AreHighestOn(page + [m], bounds)
  {
    assert m in page + [m];
    forall p | p in bounds ensures exists r :: r in page + [m] && r.part == p && r.off == bounds[p] {
      if p in before && bounds[p] == before[p] {
        var r :| r in page && r.part == p && r.off == before[p];
        assert r in page + [m];
      }
    }
  }

  /** The cursor of every window, and whether records remain in the page's direction. */
  ghost predicate IsNext(backward: bool, windows: Windows, collected: Collected, bounds: map<Partition, int>,
                         next: map<Partition, int>) {
    && next.Keys == windows.Keys
    && forall p :: p in windows ==>
         next[p] == if backward then BackwardNext(windows[p], Got(collected, p), bounds, p)
           else ForwardNext(windows[p], bounds, p)
  }

  /** Cursors of partitions that dropped out of the windows stay as they were. */
  ghost predicate CarriesOver(next: map<Partition, int>, prev: map<Partition, int>, cursor: map<Partition, int>) {
    && (forall p :: p in cursor <==> p in next || p in prev)
    && (forall p :: p in cursor ==> cursor[p] == if p in next then next[p] else prev[p])
  }

  /** The cursor at the next page boundary, None when nothing remains. */
  method BuildNextCursor(backward: bool, windows: Windows, page: seq<Record>, collected: Collected,
                         prev: map<Partition, int>)
    returns (cursor: Option<map<Partition, int>>, hasMore: bool, ghost next: map<Partition, int>,
             ghost bounds: map<Partition, int>)
    requires forall p :: p in windows ==> windows[p].trueBegin <= windows[p].begin < windows[p].stop
    ensures if backward then AreLowestOn(page, bounds) else AreHighestOn(page, bounds)
    ensures IsNext(backward, windows, collected, bounds, next)
    ensures page == [] ==> cursor == None && !hasMore
    ensures page != [] ==>
        (hasMore <==>
          exists p :: p in windows && if backward then next[p] > windows[p].trueBegin else next[p] < windows[p].stop)
    ensures hasMore <==> cursor.Some?
    ensures hasMore ==> CarriesOver(next, prev, cursor.value)
  {
    hide AreLowestOn, AreHighestOn;
    var found := PageBounds(page, backward);
    bounds := found;
    next := map p | p in windows ::
      if backward then BackwardNext(windows[p], Got(collected, p), bounds, p) else ForwardNext(windows[p], bounds, p);
    if |page| == 0 {
      return None, false, next, bounds;
    }
    var partitions: map<Partition, int> := map[];
    hasMore := false;
    var todo := windows.Keys;
    while todo != {}
      invariant todo <= windows.Keys && partitions.Keys == windows.Keys - todo
      invariant forall p :: p in partitions ==> partitions[p] == next[p]
      invariant hasMore <==>
          exists p :: p in partitions && if backward then next[p] > windows[p].trueBegin else next[p] < windows[p].stop
    {
      var p :| p in todo;
      todo := todo - {p};
      var w := windows[p];
      if backward {
        if p in found {
          if found[p] > w.trueBegin {
            hasMore := true;
          }
          partitions := partitions[p := found[p]];
        } else if |Got(collected, p)| > 0 {
          partitions := partitions[p := w.stop];
          hasMore := true;
        } else {
          partitions := partitions[p := w.begin];
          if w.begin > w.trueBegin {
            hasMore := true;
          }
        }
      } else {
        var after := if p in found then found[p] + 1 else w.begin;
        if after < w.stop {
          hasMore := true;
        }
        partitions := partitions[p := after];
      }
    }
    assert partitions == next;
    var carried := CarryOver(partitions, prev, windows);
    cursor := if hasMore then Some(carried) else None;
  }

  method CarryOver(next: map<Partition, int>, prev: map<Partition, int>, windows: Windows)
    returns (cursor: map<Partition, int>)
    requires next.Keys == windows.Keys
    ensures CarriesOver(next, prev, cursor)
  {
    cursor := next;
    var todo := prev.Keys;
    while todo != {}
      invariant todo <= prev.Keys
      invariant forall p :: p in cursor <==> p in next || (p in prev && p !in todo)
      invariant forall p :: p in cursor ==> cursor[p] == if p in next then next[p] else prev[p]
    {
      var p :| p in todo;
      todo := todo - {p};
      if p !in windows && p !in cursor {
        cursor := cursor[p := prev[p]];
      }
    }
  }

  datatype ConsumeResult = ConsumeResult(messages: seq<Record>, cursor: Option<map<Partition, int>>, hasMore: bool,
                                         partial: bool)

  /** A from=offset query of several partitions needs their offsets. */
  datatype ConsumeError = OffsetsRequired | ReadFailed

  datatype ConsumeOutcome = ConsumeFailed(error: ConsumeError) | Consumed(result: ConsumeResult)

  /** The page lies behind its cursors, and HasMore tells whether anything lies in front. */
  ghost predicate IsCursorOf(log: set<Record>, ranges: map<Partition, Range>, opts: ConsumeOptions, r: ConsumeResult,
                             next: map<Partition, int>) {
    && AreCursors(ranges, next)
    && ToSet(r.messages) <= Behind(log, ranges, IsBackward(opts), next)
    && (r.hasMore <==> LeavesMore(ranges, IsBackward(opts), next))
    && (r.hasMore ==>
      r.cursor.Some? && CarriesOver(next, if IsBackward(opts) then opts.cursorUpperBounds
        else opts.partitionOffsets, r.cursor.value))
  }

  /** A page that left no gap is exactly what lies behind its cursors. */
  ghost predicate IsExactPage(log: set<Record>, ranges: map<Partition, Range>, opts: ConsumeOptions, r: ConsumeResult,
                              next: map<Partition, int>) {
    IsCursorOf(log, ranges, opts, r, next) && ToSet(r.messages) == Behind(log, ranges, IsBackward(opts), next)
  }

  /** The page is the newest `limit` records of the tails a backward page reads. */
  ghost predicate IsOfTails(log: set<Record>, ranges: map<Partition, Range>, limit: int, messages: seq<Record>) {
    limit > 0 && ValidRanges(ranges) && FirstOf(messages, InRanges(log, TailsOf(log, ranges, limit)), limit, true)
  }

  /** Backward: a complete page whose tails suffice; forward: one no poll disturbed. */
  ghost predicate IsSettled(log: set<Record>, opts: ConsumeOptions, ranges: map<Partition, Range>, r: ConsumeResult,
                            polls: seq<PollResult>) {
    if IsBackward(opts)
    then !r.partial && opts.limit > 0 && ValidRanges(ranges)
      && Suffice(log, ranges, TailsOf(log, ranges, opts.limit), opts.limit)
    else !Disturbed(polls, 2)
  }

  /** What a page of the ranges is, given the answers to its polls. */
  ghost predicate IsPage(log: set<Record>, offs: TopicOffsets, opts: ConsumeOptions, ranges: map<Partition, Range>,
                         r: ConsumeResult, polls: seq<PollResult>) {
    && opts.limit > 0
    && IsQuery(opts, offs, ranges)
    && SortedBefore(r.messages, IsBackward(opts)) && |r.messages| <= opts.limit
    && ToSet(r.messages) <= InRanges(log, ranges)
    && (r.hasMore <==> r.cursor.Some?) && (r.hasMore ==> r.messages != [])
    && (r.partial ==> IsBackward(opts) && Disturbed(polls, 2))
    && (IsBackward(opts) && !r.partial ==> IsOfTails(log, ranges, opts.limit, r.messages))
    && (r.messages != [] ==> exists next :: IsCursorOf(log, ranges, opts, r, next))
    && (Ordered(InRanges(log, ranges)) ==>
          && (!r.partial && r.messages != [] ==> exists next :: IsExactPage(log, ranges, opts, r, next))
          && (IsSettled(log, opts, ranges, r, polls) ==>
            FirstOf(r.messages, InRanges(log, ranges), opts.limit, IsBackward(opts))))
  }

  /** Pages from the end are newest first; without a position they are if no time bound is set. */
  lemma PageOrder(log: set<Record>, offs: TopicOffsets, options: ConsumeOptions, ranges: map<Partition, Range>,
                  r: ConsumeResult, polls: seq<PollResult>)
    requires IsPage(log, offs, ConsumeDefaults(options), ranges, r, polls)
    ensures SortedBefore(r.messages, options.from == FromEnd || (options.from == Unset && !options.timed))
    ensures |r.messages| <= 500 && (0 < options.limit <= 500 ==> |r.messages| <= options.limit)
  {
    hide IsQuery, SortedBefore, InRanges, IsCursorOf, IsExactPage, IsSettled, IsOfTails, FirstOf, Ordered, Disturbed;
  }

  method ConsumeMessages(broker: Broker, options: ConsumeOptions, offs: TopicOffsets)
    returns (res: ConsumeOutcome, ghost ranges: map<Partition, Range>)
    requires IsLog(broker.log)
    modifies broker
    ensures old(broker.polls) <= broker.polls
    ensures res == ConsumeFailed(OffsetsRequired) <==> !CanSeek(ConsumeDefaults(options), offs)
    ensures res == ConsumeFailed(ReadFailed) ==> SomeFailed(broker.polls[|old(broker.polls)|..])
    ensures res.Consumed? ==>
        IsPage(broker.log, offs, ConsumeDefaults(options), ranges, res.result, broker.polls[|old(broker.polls)|..])
  {
    hide *;
    ghost var log, polls := broker.log, broker.polls;
    var opts := ConsumeDefaults(options);
    ranges := map[];
    var ok, windows := BuildWindows(opts, offs);
    if !ok {
      return ConsumeFailed(OffsetsRequired), ranges;
    }
    ranges := FullRanges(windows);
    if windows == map[] {
      EmptyPage(log, offs, opts, ranges, broker.polls[|polls|..]);
      res := Consumed(ConsumeResult([], None, false, false));
      return;
    }
    var backward := IsBackward(opts);
    FirstAreWindows(opts, windows);
    ghost var first := windows;
    var failed, collected, complete;
    ghost var upto;
    failed, collected, complete, upto := CollectWindows(broker, windows, opts.limit, !backward);
    if failed {
      return ConsumeFailed(ReadFailed), ranges;
    }
    if backward && complete {
      ghost var polls0, rounds := broker.polls, 0;
      failed, windows, collected, complete, rounds := RefillWindows(broker, windows, collected, opts.limit);
      LaterPolls(polls0, broker.polls, |polls|, 2);
      if failed {
        return ConsumeFailed(ReadFailed), ranges;
      }
      FullIsUpTo(log, windows, collected);
      upto := Stops(windows);
      if complete {
        FirstTailsOf(opts, first);
        TailsAre(log, ranges, opts.limit, WindowRanges(windows));
      }
    }
    ReadGroups(log, windows, collected, upto);
    var messages := MergePage(collected, backward, opts.limit);
    WindowBounds(windows);
    var cursor, hasMore; ghost var next, bounds;
    cursor, hasMore, next, bounds := BuildNextCursor(backward, windows, messages, collected,
      if backward then opts.cursorUpperBounds else opts.partitionOffsets);
    res := Consumed(ConsumeResult(messages, cursor, hasMore, backward && !complete));
    ghost var settled := IsSettled(log, opts, ranges, res.result, broker.polls[|polls|..]);
    if messages != [] {
      PageHasCursor(log, opts, windows, collected, upto, messages, bounds, next, res.result);
    }
    if backward && complete {
      PageOfTails(log, ranges, opts.limit, windows, collected, messages);
    }
    SettledIs(log, opts, ranges, res.result, broker.polls[|polls|..]);
    if Ordered(InRanges(log, ranges)) {
      if (backward ==> complete) && messages != [] {
        PageIsExact(log, opts, windows, collected, upto, messages, bounds, next, res.result);
      }
      if settled {
        PageIsWhole(log, opts, windows, collected, upto, messages);
      }
    }
    MakePage(log, offs, opts, ranges, windows, collected, upto, messages, next, res.result, broker.polls[|polls|..]);
  }

  lemma SettledIs(log: set<Record>, opts: ConsumeOptions, ranges: map<Partition, Range>, r: ConsumeResult,
                  polls: seq<PollResult>)
    ensures IsBackward(opts) && IsSettled(log, opts, ranges, r, polls) ==>
              !r.partial && opts.limit > 0 && ValidRanges(ranges)
                && Suffice(log, ranges, TailsOf(log, ranges, opts.limit), opts.limit)
    ensures !IsBackward(opts) && IsSettled(log, opts, ranges, r, polls) ==> !Disturbed(polls, 2)
  {
    hide Suffice, TailsOf, ValidRanges, Disturbed, IsBackward;
  }

  /** The first windows are the first tails. */
  lemma FirstTailsOf(opts: ConsumeOptions, first: Windows)
    requires IsBackward(opts) && opts.limit > 0 && AreFirstWindows(opts, first)
    ensures WindowRanges(first) == FirstTails(FullRanges(first), opts.limit) && ValidRanges(FullRanges(first))
  {
    hide FairShare;
    assert |FullRanges(first)| == |FullRanges(first).Keys| == |first.Keys| == |first|;
    hide IsBackward;
  }

  lemma TailsAre(log: set<Record>, ranges: Tails, limit: nat, tails: Tails)
    requires limit > 0 && ValidRanges(ranges) && AreTails(ranges, FirstTails(ranges, limit))
    requires tails == TailsFrom(log, ranges, limit, FirstTails(ranges, limit), MAX_REFILL_ROUNDS)
    ensures tails == TailsOf(log, ranges, limit)
  {
  }

  /** A complete backward page is cut from the tails of the ranges. */
  lemma PageOfTails(log: set<Record>, ranges: Tails, limit: nat, windows: Windows, collected: Collected,
                    messages: seq<Record>)
    requires limit > 0 && ValidRanges(ranges) && AreWindows(windows)
        && WindowRanges(windows) == TailsOf(log, ranges, limit)
    requires AllFullyRead(log, windows, collected) && FirstOf(messages, Everything(collected), limit, true)
    ensures IsOfTails(log, ranges, limit, messages)
  {
    hide FirstOf, Everything, AllFullyRead, AreWindows, ValidRanges, InRanges;
    FullIsUpTo(log, windows, collected);
    WindowsAreTails(log, windows);
  }

  lemma EmptyPage(log: set<Record>, offs: TopicOffsets, opts: ConsumeOptions, ranges: map<Partition, Range>,
                  polls: seq<PollResult>)
    requires IsQuery(opts, offs, ranges) && ranges == map[] && opts.limit > 0
    ensures IsPage(log, offs, opts, ranges, ConsumeResult([], None, false, false), polls)
  {
    hide IsQuery, Disturbed, FairShare, TailsFrom;
    assert InRanges(log, ranges) == {} && InRanges(log, TailsOf(log, ranges, opts.limit)) == {};
  }

  lemma FirstAreWindows(opts: ConsumeOptions, windows: Windows)
    requires AreFirstWindows(opts, windows)
    ensures AreWindows(windows) && (!IsBackward(opts) ==>
        forall p :: p in windows ==> windows[p].begin == windows[p].trueBegin)
  {
    hide FairShare;
  }

  lemma WindowBounds(windows: Windows)
    requires AreWindows(windows)
    ensures forall p :: p in windows ==> windows[p].trueBegin <= windows[p].begin < windows[p].stop
  {
  }

  lemma PageHasCursor(log: set<Record>, opts: ConsumeOptions, windows: Windows, collected: Collected,
                      upto: map<Partition, int>,
                      messages: seq<Record>, bounds: map<Partition, int>, next: map<Partition, int>, r: ConsumeResult)
    requires AreWindows(windows) && AllReadUpTo(log, windows, collected, upto)
    requires opts.limit >= 0 && FirstOf(messages, Everything(collected), opts.limit, IsBackward(opts))
    requires if IsBackward(opts) then AreLowestOn(messages, bounds) else AreHighestOn(messages, bounds)
    requires IsNext(IsBackward(opts), windows, collected, bounds, next)
    requires r.messages == messages
    requires r.hasMore <==>
        exists p ::
          p in windows && if IsBackward(opts) then next[p] > windows[p].trueBegin else next[p] < windows[p].stop
    requires r.hasMore ==>
        r.cursor.Some? && CarriesOver(next, if IsBackward(opts) then opts.cursorUpperBounds
          else opts.partitionOffsets, r.cursor.value)
    ensures IsCursorOf(log, FullRanges(windows), opts, r, next)
  {
    hide AllReadUpTo, FirstOf, Everything, AreLowestOn, AreHighestOn, Behind, InRanges, CarriesOver, AreWindows;
    PageIsBehind(log, windows, collected, upto, opts.limit, IsBackward(opts), messages, bounds, next);
    MoreIsLeft(windows, IsBackward(opts), next);
  }

  lemma PageIsExact(log: set<Record>, opts: ConsumeOptions, windows: Windows, collected: Collected,
                    upto: map<Partition, int>,
                    messages: seq<Record>, bounds: map<Partition, int>, next: map<Partition, int>, r: ConsumeResult)
    requires IsLog(log) && AreWindows(windows) && AllReadUpTo(log, windows, collected, upto)
        && Ordered(InRanges(log, FullRanges(windows)))
    requires if IsBackward(opts) then AllFullyRead(log, windows, collected)
             else forall p :: p in windows ==> windows[p].begin == windows[p].trueBegin
    requires opts.limit >= 0 && FirstOf(messages, Everything(collected), opts.limit, IsBackward(opts)) && messages != []
    requires if IsBackward(opts) then AreLowestOn(messages, bounds) else AreHighestOn(messages, bounds)
    requires IsNext(IsBackward(opts), windows, collected, bounds, next)
    requires r.messages == messages && IsCursorOf(log, FullRanges(windows), opts, r, next)
    ensures IsExactPage(log, FullRanges(windows), opts, r, next)
  {
    hide IsCursorOf, IsLog, Ordered, AllReadUpTo, AllFullyRead, FirstOf, Everything, AreLowestOn, AreHighestOn, Behind,
      InRanges, CarriesOver, AreWindows;
    OrderedWindows(log, windows);
    if IsBackward(opts) {
      BackwardDelivers(log, windows, collected, opts.limit, messages, bounds, next);
    } else {
      ForwardDelivers(log, windows, collected, upto, opts.limit, messages, bounds, next);
    }
  }

  lemma OrderedWindows(log: set<Record>, windows: Windows)
    requires AreWindows(windows) && Ordered(InRanges(log, FullRanges(windows)))
    ensures Ordered(InWindows(log, windows))
  {
    WindowsAreTails(log, windows);
  }

  lemma MoreIsLeft(windows: Windows, newestFirst: bool, next: map<Partition, int>)
    requires AreCursors(FullRanges(windows), next)
    ensures LeavesMore(FullRanges(windows), newestFirst, next) <==>
            exists p ::
              p in windows && if newestFirst then next[p] > windows[p].trueBegin else next[p] < windows[p].stop
  {
  }

  lemma PageIsWhole(log: set<Record>, opts: ConsumeOptions, windows: Windows, collected: Collected,
                    upto: map<Partition, int>, messages: seq<Record>)
    requires opts.limit > 0 && IsLog(log) && AreWindows(windows) && upto.Keys == windows.Keys
        && AllReadUpTo(log, windows, collected, upto)
    requires Ordered(InRanges(log, FullRanges(windows)))
        && FirstOf(messages, Everything(collected), opts.limit, IsBackward(opts))
    requires IsBackward(opts) ==>
        AllFullyRead(log, windows, collected) && Suffice(log, FullRanges(windows), WindowRanges(windows), opts.limit)
    requires !IsBackward(opts) ==>
        Settles(windows, collected, upto, opts.limit) && forall p ::
          p in windows ==> windows[p].begin == windows[p].trueBegin
    ensures FirstOf(messages, InRanges(log, FullRanges(windows)), opts.limit, IsBackward(opts))
  {
    hide IsLog, Ordered, AllReadUpTo, AllFullyRead, FirstOf, Everything, AreWindows, ForwardSettled, Suffice;
    if IsBackward(opts) {
      FullIsUpTo(log, windows, collected);
      WindowsAreTails(log, windows);
      SufficientIsNewest(log, FullRanges(windows), WindowRanges(windows), opts.limit, messages);
    } else {
      OrderedWindows(log, windows);
      ForwardSettledIsFirst(log, windows, collected, upto, ReadOut(windows, upto), opts.limit, messages);
      assert InWindows(log, windows) == InRanges(log, FullRanges(windows));
    }
  }

  /** A complete backward page is settled iff what it read decides it: it is then the
      newest `limit` records of every log that shows the same there, and else there is
      one of which it is not, though a page of that log is cut from the same tails. */
  lemma CompletePageIsExact(log: set<Record>, offs: TopicOffsets, opts: ConsumeOptions, ranges: map<Partition, Range>,
                            r: ConsumeResult, polls: seq<PollResult>)
    requires IsLog(log) && IsPage(log, offs, opts, ranges, r, polls) && IsBackward(opts) && !r.partial
    requires ValidRanges(ranges) && Ordered(InRanges(log, TailsOf(log, ranges, opts.limit)))
    ensures IsSettled(log, opts, ranges, r, polls) <==>
            forall other :: ShowsSame(log, ranges, TailsOf(log, ranges, opts.limit), other) ==>
              FirstOf(r.messages, InRanges(other, ranges), opts.limit, true)
    ensures forall other :: ShowsSame(log, ranges, TailsOf(log, ranges, opts.limit), other) ==>
              TailsOf(other, ranges, opts.limit) == TailsOf(log, ranges, opts.limit)
  {
    var tails := TailsOf(log, ranges, opts.limit);
    assert IsOfTails(log, ranges, opts.limit, r.messages);
    hide IsPage, TailsOf, Suffice, FirstOf, Ordered, IsLog, InRanges;
    SufficeIsExact(log, ranges, tails, opts.limit, r.messages);
    forall other | ShowsSame(log, ranges, tails, other) ensures TailsOf(other, ranges, opts.limit) == tails {
      ReadsSameTails(log, other, ranges, opts.limit);
    }
  }

  lemma MakePage(log: set<Record>, offs: TopicOffsets, opts: ConsumeOptions, ranges: map<Partition, Range>,
                 windows: Windows,
                 collected: Collected, upto: map<Partition, int>, messages: seq<Record>, next: map<Partition, int>,
                 r: ConsumeResult, polls: seq<PollResult>)
    requires opts.limit > 0 && ranges == FullRanges(windows) && IsQuery(opts, offs, ranges) && AreWindows(windows)
    requires AllReadUpTo(log, windows, collected, upto)
        && FirstOf(messages, Everything(collected), opts.limit, IsBackward(opts))
    requires r.messages == messages && (r.hasMore <==> r.cursor.Some?) && (r.hasMore ==> messages != [])
    requires r.partial ==> IsBackward(opts) && Disturbed(polls, 2)
    requires IsBackward(opts) && !r.partial ==> IsOfTails(log, ranges, opts.limit, messages)
    requires messages != [] ==> IsCursorOf(log, ranges, opts, r, next)
    requires Ordered(InRanges(log, ranges)) && !r.partial && messages != [] ==> IsExactPage(log, ranges, opts, r, next)
    requires Ordered(InRanges(log, ranges)) && IsSettled(log, opts, ranges, r, polls) ==>
               FirstOf(messages, InRanges(log, ranges), opts.limit, IsBackward(opts))
    ensures IsPage(log, offs, opts, ranges, r, polls)
  {
    MessagesAre(log, opts, windows, collected, upto, messages);
    hide IsQuery, Ordered, AllReadUpTo, AreWindows, InRanges, Everything, FirstOf, SortedBefore, ToSet, IsExactPage,
      IsCursorOf,
      IsOfTails, IsSettled, Disturbed;
  }

  lemma MessagesAre(log: set<Record>, opts: ConsumeOptions, windows: Windows, collected: Collected,
                    upto: map<Partition, int>,
                    messages: seq<Record>)
    requires opts.limit > 0 && AreWindows(windows) && AllReadUpTo(log, windows, collected, upto)
    requires FirstOf(messages, Everything(collected), opts.limit, IsBackward(opts))
    ensures SortedBefore(messages, IsBackward(opts)) && |messages| <= opts.limit
    ensures ToSet(messages) <= InRanges(log, FullRanges(windows))
  {
    CollectedInside(log, windows, collected, upto);
    WindowsAreTails(log, windows);
    hide AllReadUpTo, AreWindows, InRanges, InWindows, Everything, Before;
  }
}
