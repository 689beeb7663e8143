/** Chains of search calls, each resuming from the cursors of the one before. */
module SearchChain {
  import opened Sets
  import opened Records
  import opened Sorting
  import opened RecordSource
  import opened SearchState
  import opened SearchCall

  /** A call and the answers of the broker to its polls. */
  datatype Call = Call(opts: SearchOptions, result: SearchResult, polls: seq<PollResult>)

  /** Every call returns what SearchMessages promises on a fixed log, and resumes
      the one before, which had more to offer. */
  ghost predicate IsChain(matcher: Matcher, log: set<Record>, offs: TopicOffsets, newestFirst: bool, calls: seq<Call>) {
    && calls != []
    && calls[0].opts.newestFirst == newestFirst
    && IsSearch(matcher, log, offs, calls[0].opts, calls[0].result, calls[0].polls)
    && (|calls| > 1 ==>
          && calls[0].result.page.more
          && calls[1].opts.cursors == calls[0].result.next
          && IsChain(matcher, log, offs, newestFirst, calls[1..]))
  }

  /** The records the ranges of a call show. */
  ghost function Scope(log: set<Record>, call: Call): set<Record> {
    InRanges(log, call.result.ranges)
  }

  /** The records a call settles: no later call reads them again. */
  ghost function Settles(log: set<Record>, newestFirst: bool, call: Call): set<Record> {
    Behind(log, call.result.ranges, newestFirst, call.result.page.next)
  }

  /** What a chain leaves unread of its first call's ranges. */
  ghost function Unread(log: set<Record>, newestFirst: bool, calls: seq<Call>): set<Record>
    requires calls != []
  {
    var last := calls[|calls| - 1];
    Scope(log, last) - Settles(log, newestFirst, last)
  }

  ghost function Messages(calls: seq<Call>): seq<Record> {
    if calls == [] then [] else calls[0].result.page.messages + Messages(calls[1..])
  }

  ghost function TotalScanned(calls: seq<Call>): nat {
    if calls == [] then 0 else calls[0].result.page.scanned + TotalScanned(calls[1..])
  }

  ghost function TotalMatched(calls: seq<Call>): nat {
    if calls == [] then 0 else calls[0].result.page.matched + TotalMatched(calls[1..])
  }

  ghost function TotalParseErrors(calls: seq<Call>): nat {
    if calls == [] then 0 else calls[0].result.page.parseErrors + TotalParseErrors(calls[1..])
  }

  /** b reads of p what a left in front of its cursor. */
  ghost predicate Resumes(newestFirst: bool, a: Call, b: Call, p: Partition) {
    var left := if p !in a.result.ranges || p !in a.result.page.next then Range(0, 0)
                else if newestFirst then Range(a.result.ranges[p].start, a.result.page.next[p])
                else Range(a.result.page.next[p], a.result.ranges[p].end);
    if p in b.result.ranges then b.result.ranges[p] == left else left.start >= left.end
  }

  /** The follow-up's range of a partition is what the call left of it. */
  lemma ResumedRange(matcher: Matcher, log: set<Record>, offs: TopicOffsets, newestFirst: bool, a: Call, b: Call,
                     p: Partition)
    requires IsCall(matcher, log, offs, a.opts, a.result) && a.opts.newestFirst == newestFirst && a.result.page.more
    requires IsCall(matcher, log, offs, b.opts, b.result) && b.opts.newestFirst == newestFirst
        && b.opts.cursors == a.result.next
    ensures Resumes(newestFirst, a, b, p)
  {
    hide *;
    CallIs(matcher, log, offs, a);
    CallIs(matcher, log, offs, b);
    RangeLeft(offs, newestFirst, a, b, p);
  }

  lemma CallIs(matcher: Matcher, log: set<Record>, offs: TopicOffsets, a: Call)
    requires IsCall(matcher, log, offs, a.opts, a.result)
    ensures IsResolved(a.opts.newestFirst, a.opts.cursors, offs, a.result.ranges)
    ensures AreCursors(a.result.ranges, a.result.page.next)
    ensures a.result.page.more ==> a.result.ranges != map[]
    ensures a.result.ranges != map[] ==> IsCarried(a.result.page.next, a.opts.cursors, offs.parts, a.result.next)
  {
    hide IsResolved, IsReport, AreCursors;
    ReportCursors(matcher, log, a.result.ranges, a.opts.newestFirst, a.opts.limit, a.result.page);
  }

  lemma RangeLeft(offs: TopicOffsets, newestFirst: bool, a: Call, b: Call, p: Partition)
    requires a.opts.newestFirst == newestFirst == b.opts.newestFirst && b.opts.cursors == a.result.next
    requires IsResolved(newestFirst, a.opts.cursors, offs, a.result.ranges)
        && AreCursors(a.result.ranges, a.result.page.next)
    requires IsCarried(a.result.page.next, a.opts.cursors, offs.parts, a.result.next)
    requires IsResolved(newestFirst, b.opts.cursors, offs, b.result.ranges)
    ensures Resumes(newestFirst, a, b, p)
  {
    hide Bounds;
  }

  lemma ReportCursors(matcher: Matcher, log: set<Record>, ranges: map<Partition, Range>, newestFirst: bool, limit: nat,
                      pg: SearchPage)
    requires IsReport(matcher, log, ranges, newestFirst, limit, pg)
    ensures AreCursors(ranges, pg.next)
    ensures pg.more ==> ranges != map[]
  {
    hide SortedBefore, Behind;
  }

  /** So a follow-up reads exactly what is left. */
  lemma ResumedScope(matcher: Matcher, log: set<Record>, offs: TopicOffsets, newestFirst: bool, a: Call, b: Call)
    requires IsCall(matcher, log, offs, a.opts, a.result) && a.opts.newestFirst == newestFirst && a.result.page.more
    requires IsCall(matcher, log, offs, b.opts, b.result) && b.opts.newestFirst == newestFirst
        && b.opts.cursors == a.result.next
    ensures Scope(log, b) == Scope(log, a) - Settles(log, newestFirst, a)
  {
    hide *;
    CallCursors(matcher, log, offs, a);
    forall p: Partition ensures Resumes(newestFirst, a, b, p) {
      ResumedRange(matcher, log, offs, newestFirst, a, b, p);
    }
    RemainderIsLeft(log, newestFirst, a, b);
  }

  lemma RemainderIsLeft(log: set<Record>, newestFirst: bool, a: Call, b: Call)
    requires AreCursors(a.result.ranges, a.result.page.next) && forall p: Partition :: Resumes(newestFirst, a, b, p)
    ensures Scope(log, b) == Scope(log, a) - Settles(log, newestFirst, a)
  {
    forall r ensures r in Scope(log, b) <==> r in Scope(log, a) - Settles(log, newestFirst, a) {
      assert Resumes(newestFirst, a, b, r.part);
    }
  }

  lemma CallCursors(matcher: Matcher, log: set<Record>, offs: TopicOffsets, a: Call)
    requires IsCall(matcher, log, offs, a.opts, a.result)
    ensures AreCursors(a.result.ranges, a.result.page.next)
  {
    ReportCursors(matcher, log, a.result.ranges, a.opts.newestFirst, a.opts.limit, a.result.page);
  }

  /** The calls return the matches of s, each once, and count each record of s once. */
  ghost predicate ReportExactly(matcher: Matcher, s: set<Record>, calls: seq<Call>) {
    && NoDup(Messages(calls)) && ToSet(Messages(calls)) == Hits(matcher, s)
    && TotalScanned(calls) == |s|
    && TotalMatched(calls) == |Messages(calls)|
    && TotalParseErrors(calls) == |Errors(matcher, s)|
  }

  /** Nothing is lost and nothing is counted twice, whatever ended each call: the
      matches returned along a chain are distinct and are exactly the matches of
      all records settled, and the counts add up to theirs. */
  lemma {:induction false} ChainIsExact(matcher: Matcher, log: set<Record>, offs: TopicOffsets, newestFirst: bool,
                                        calls: seq<Call>)
    requires IsChain(matcher, log, offs, newestFirst, calls)
    ensures Unread(log, newestFirst, calls) <= Scope(log, calls[0])
    ensures ReportExactly(matcher, Scope(log, calls[0]) - Unread(log, newestFirst, calls), calls)
  {
    hide *;
    ChainHead(matcher, log, offs, newestFirst, calls);
    var a := calls[0];
    CallIsExact(matcher, log, offs, newestFirst, a);
    var scope, settled, unread := Scope(log, a), Settles(log, newestFirst, a), Unread(log, newestFirst, calls);
    UnreadOf(log, newestFirst, calls);
    if |calls| == 1 {
      SplitSets(scope, settled, unread, unread);
      assert calls == [a];
    } else {
      ResumedScope(matcher, log, offs, newestFirst, a, calls[1]);
      ChainIsExact(matcher, log, offs, newestFirst, calls[1..]);
      SplitSets(scope, settled, Scope(log, calls[1]), unread);
      JoinExact(matcher, settled, Scope(log, calls[1]) - unread, a, calls[1..]);
      assert calls == [a] + calls[1..];
    }
  }

  lemma SplitSets<T>(scope: set<T>, settled: set<T>, rest: set<T>, unread: set<T>)
    requires settled <= scope && rest == scope - settled && unread <= rest
    ensures unread <= scope && settled !! (rest - unread)
    ensures scope - unread == settled + (rest - unread)
    ensures unread == rest ==> scope - unread == settled
  {
  }

  lemma ChainHead(matcher: Matcher, log: set<Record>, offs: TopicOffsets, newestFirst: bool, calls: seq<Call>)
    requires IsChain(matcher, log, offs, newestFirst, calls)
    ensures calls != [] && calls[0].opts.newestFirst == newestFirst
        && IsCall(matcher, log, offs, calls[0].opts, calls[0].result)
    ensures |calls| > 1 ==> calls[0].result.page.more && calls[1].opts.cursors == calls[0].result.next
    ensures |calls| > 1 ==> IsChain(matcher, log, offs, newestFirst, calls[1..])
    ensures |calls| > 1 ==>
        calls[1].opts.newestFirst == newestFirst && IsCall(matcher, log, offs, calls[1].opts, calls[1].result)
  {
    hide IsCall, IsDiligent, EmptyRun;
  }

  lemma UnreadOf(log: set<Record>, newestFirst: bool, calls: seq<Call>)
    requires calls != []
    ensures |calls| == 1 ==>
        Unread(log, newestFirst, calls) == Scope(log, calls[0]) - Settles(log, newestFirst, calls[0])
    ensures |calls| > 1 ==> Unread(log, newestFirst, calls) == Unread(log, newestFirst, calls[1..])
  {
    hide Scope, Settles;
    if |calls| > 1 {
      assert calls[1..][|calls| - 2] == calls[|calls| - 1];
    }
  }

  lemma CallIsExact(matcher: Matcher, log: set<Record>, offs: TopicOffsets, newestFirst: bool, a: Call)
    requires IsCall(matcher, log, offs, a.opts, a.result) && a.opts.newestFirst == newestFirst
    ensures Settles(log, newestFirst, a) <= Scope(log, a)
    ensures ReportExactly(matcher, Settles(log, newestFirst, a), [a])
    ensures ToSet(a.result.page.messages) == Hits(matcher, Settles(log, newestFirst, a))
  {
    SortedNoDup(a.result.page.messages, newestFirst);
    OneCall(a);
  }

  lemma OneCall(a: Call)
    ensures Messages([a]) == a.result.page.messages
    ensures TotalScanned([a]) == a.result.page.scanned && TotalMatched([a]) == a.result.page.matched
    ensures TotalParseErrors([a]) == a.result.page.parseErrors
  {
    MoreCalls(a, []);
    assert [a] + [] == [a];
  }

  lemma MoreCalls(a: Call, calls: seq<Call>)
    ensures Messages([a] + calls) == a.result.page.messages + Messages(calls)
    ensures TotalScanned([a] + calls) == a.result.page.scanned + TotalScanned(calls)
    ensures TotalMatched([a] + calls) == a.result.page.matched + TotalMatched(calls)
    ensures TotalParseErrors([a] + calls) == a.result.page.parseErrors + TotalParseErrors(calls)
  {
    assert ([a] + calls)[1..] == calls;
  }

  lemma JoinExact(matcher: Matcher, s: set<Record>, t: set<Record>, a: Call, calls: seq<Call>)
    requires s !! t && ReportExactly(matcher, s, [a]) && ReportExactly(matcher, t, calls)
    ensures ReportExactly(matcher, s + t, [a] + calls)
  {
    hide Messages, TotalScanned, TotalMatched, TotalParseErrors;
    OneCall(a);
    MoreCalls(a, calls);
    JoinMessages(matcher, s, t, a.result.page.messages, Messages(calls));
    assert Errors(matcher, s + t) == Errors(matcher, s) + Errors(matcher, t);
  }

  lemma JoinMessages(matcher: Matcher, s: set<Record>, t: set<Record>, a: seq<Record>, b: seq<Record>)
    requires s !! t && NoDup(a) && NoDup(b) && ToSet(a) == Hits(matcher, s) && ToSet(b) == Hits(matcher, t)
    ensures NoDup(a + b) && ToSet(a + b) == Hits(matcher, s + t)
  {
    forall x | x in a ensures x !in b {
      assert x in ToSet(a);
      assert x in b ==> x in ToSet(b);
    }
    NoDupConcat(a, b);
    forall x ensures x in ToSet(a + b) <==> x in Hits(matcher, s + t) {
      assert x in a <==> x in ToSet(a);
      assert x in b <==> x in ToSet(b);
    }
  }

  /** The parse errors the calls list. */
  ghost function Listed(calls: seq<Call>): seq<(Partition, int)> {
    if calls == [] then [] else calls[0].result.page.parseErrorOffsets + Listed(calls[1..])
  }

  /** Along a chain no parse error is listed twice, and only such of settled records. */
  lemma {:induction false} ErrorsListedOnce(matcher: Matcher, log: set<Record>, offs: TopicOffsets, newestFirst: bool,
                                            calls: seq<Call>)
    requires IsLog(log) && IsChain(matcher, log, offs, newestFirst, calls)
    ensures NoDup(Listed(calls)) && forall s :: s in Listed(calls) ==> s in Spots(Errors(matcher, Scope(log, calls[0])))
  {
    hide *;
    ChainHead(matcher, log, offs, newestFirst, calls);
    var a := calls[0];
    CallIsExact(matcher, log, offs, newestFirst, a);
    var listed := a.result.page.parseErrorOffsets;
    ListedByCall(matcher, log, offs, newestFirst, a);
    ListedMore(calls);
    if |calls| == 1 {
      assert calls[1..] == [];
      ListedNone();
      assert listed + [] == listed;
      ErrorsOfMore(matcher, log, Scope(log, a), Settles(log, newestFirst, a), listed, []);
    } else {
      ResumedScope(matcher, log, offs, newestFirst, a, calls[1]);
      ErrorsListedOnce(matcher, log, offs, newestFirst, calls[1..]);
      ScopesInLog(log, a);
      ErrorsOfMore(matcher, log, Scope(log, a), Settles(log, newestFirst, a), listed, Listed(calls[1..]));
    }
  }

  lemma ScopesInLog(log: set<Record>, a: Call)
    ensures Scope(log, a) <= log
  {
  }

  lemma ListedNone()
    ensures Listed([]) == [] && NoDup(Listed([]))
  {
  }

  lemma ListedMore(calls: seq<Call>)
    requires calls != []
    ensures Listed(calls) == calls[0].result.page.parseErrorOffsets + Listed(calls[1..])
  {
  }

  lemma ListedByCall(matcher: Matcher, log: set<Record>, offs: TopicOffsets, newestFirst: bool, a: Call)
    requires IsCall(matcher, log, offs, a.opts, a.result) && a.opts.newestFirst == newestFirst
    ensures NoDup(a.result.page.parseErrorOffsets) && Scope(log, a) <= log
    ensures forall s ::
        s in a.result.page.parseErrorOffsets ==> s in Spots(Errors(matcher, Settles(log, newestFirst, a)))
  {
    hide IsResolved, SortedBefore, AreCursors, LeavesMore;
  }

  lemma ErrorsOfMore(matcher: Matcher, log: set<Record>, scope: set<Record>, settled: set<Record>,
                     first: seq<(Partition, int)>, rest: seq<(Partition, int)>)
    requires IsLog(log) && settled <= scope <= log && NoDup(first) && NoDup(rest)
    requires forall s :: s in first ==> s in Spots(Errors(matcher, settled))
    requires forall s :: s in rest ==> s in Spots(Errors(matcher, scope - settled))
    ensures NoDup(first + rest) && forall s :: s in first + rest ==> s in Spots(Errors(matcher, scope))
  {
    hide NoDup;
    forall s | s in first ensures s !in rest && s in Spots(Errors(matcher, scope)) {
      var r :| r in Errors(matcher, settled) && (r.part, r.off) == s;
      assert r in Errors(matcher, scope);
      OneSpot(matcher, log, scope, settled, r);
    }
    forall s | s in rest ensures s in Spots(Errors(matcher, scope)) {
      var r :| r in Errors(matcher, scope - settled) && (r.part, r.off) == s;
      assert r in Errors(matcher, scope);
    }
    NoDupConcat(first, rest);
  }

  lemma OneSpot(matcher: Matcher, log: set<Record>, scope: set<Record>, settled: set<Record>, r: Record)
    requires IsLog(log) && settled <= scope <= log && r in Errors(matcher, settled)
    ensures (r.part, r.off) !in Spots(Errors(matcher, scope - settled))
  {
    assert forall q :: q in Errors(matcher, scope - settled) ==> q in log && q != r;
  }

  /** A chain whose last call has nothing more returned every match of the range,
      once, and counted every record once. */
  lemma FinishedChainIsComplete(matcher: Matcher, log: set<Record>, offs: TopicOffsets, newestFirst: bool,
                                calls: seq<Call>)
    requires IsChain(matcher, log, offs, newestFirst, calls) && !calls[|calls| - 1].result.page.more
    ensures ReportExactly(matcher, Scope(log, calls[0]), calls)
  {
    hide ReportExactly;
    ChainIsExact(matcher, log, offs, newestFirst, calls);
    LastIsCall(matcher, log, offs, newestFirst, calls);
    NothingLeft(matcher, log, offs, newestFirst, calls[|calls| - 1]);
    assert Scope(log, calls[0]) - {} == Scope(log, calls[0]);
  }

  lemma {:induction false} LastIsCall(matcher: Matcher, log: set<Record>, offs: TopicOffsets, newestFirst: bool,
                                      calls: seq<Call>)
    requires IsChain(matcher, log, offs, newestFirst, calls)
    ensures
      var last := calls[|calls| - 1];
      last.opts.newestFirst == newestFirst && IsCall(matcher, log, offs, last.opts, last.result)
  {
    hide IsCall, IsDiligent, EmptyRun;
    if |calls| > 1 {
      LastIsCall(matcher, log, offs, newestFirst, calls[1..]);
    }
  }

  lemma NothingLeft(matcher: Matcher, log: set<Record>, offs: TopicOffsets, newestFirst: bool, a: Call)
    requires IsCall(matcher, log, offs, a.opts, a.result) && a.opts.newestFirst == newestFirst && !a.result.page.more
    ensures Scope(log, a) - Settles(log, newestFirst, a) == {}
  {
    MoreMeansUnread(matcher, log, offs, a);
    hide SortedBefore, IsResolved, IsReport;
    var left := Scope(log, a) - Settles(log, newestFirst, a);
    forall r ensures r !in left {
      assert r in left ==> (r.part, r.off) in OffsetsLeft(a.result.ranges, newestFirst, a.result.page.next);
    }
  }

  /** There is more iff offsets are left to read. */
  lemma MoreMeansUnread(matcher: Matcher, log: set<Record>, offs: TopicOffsets, a: Call)
    requires IsCall(matcher, log, offs, a.opts, a.result)
    ensures a.result.page.more <==> OffsetsLeft(a.result.ranges, a.opts.newestFirst, a.result.page.next) != {}
  {
    hide SortedBefore, IsResolved, Behind;
    CallCursors(matcher, log, offs, a);
    var left := OffsetsLeft(a.result.ranges, a.opts.newestFirst, a.result.page.next);
    if a.result.page.more {
      var p :| p in a.result.ranges && if a.opts.newestFirst then a.result.ranges[p].start < a.result.page.next[p]
                                       else a.result.page.next[p] < a.result.ranges[p].end;
      var o := if a.opts.newestFirst then a.result.ranges[p].start else a.result.page.next[p];
      assert (p, o) in left;
    }
  }

  /** The offsets of the ranges in front of the cursors. */
  ghost function OffsetsLeft(ranges: map<Partition, Range>, newestFirst: bool,
                             next: map<Partition, int>): set<(Partition, int)> {
    set p, o | p in ranges && ranges[p].start <= o < ranges[p].end && !IsBehind(newestFirst, next, p, o) :: (p, o)
  }

  ghost function OffsetsIn(ranges: map<Partition, Range>): set<(Partition, int)> {
    set p, o | p in ranges && ranges[p].start <= o < ranges[p].end :: (p, o)
  }

  /** Every poll of every call returned a record, and none failed. */
  ghost predicate AnsweredWell(calls: seq<Call>) {
    forall i :: 0 <= i < |calls| ==> !EmptyRun(calls[i].polls, 1) && !SomeFailed(calls[i].polls)
  }

  lemma WellHead(matcher: Matcher, log: set<Record>, offs: TopicOffsets, newestFirst: bool, calls: seq<Call>)
    requires IsChain(matcher, log, offs, newestFirst, calls) && AnsweredWell(calls)
    ensures AnsweredWell(calls[1..])
    ensures calls[0].opts.limit > 0 && !calls[0].result.timedOut
        && IsDiligent(matcher, log, calls[0].opts, calls[0].result)
  {
    hide IsDiligent, EmptyRun, SomeFailed, IsReport, IsResolved;
  }

  /** Such a chain ends: each call but the last settles at least one offset. */
  lemma {:induction false} ChainTerminates(matcher: Matcher, log: set<Record>, offs: TopicOffsets, newestFirst: bool,
                                           calls: seq<Call>)
    requires IsChain(matcher, log, offs, newestFirst, calls) && AnsweredWell(calls)
    ensures |calls| <= |OffsetsIn(calls[0].result.ranges)| + 1
  {
    hide *;
    ChainHead(matcher, log, offs, newestFirst, calls);
    if |calls| > 1 {
      var a, b := calls[0], calls[1];
      WellHead(matcher, log, offs, newestFirst, calls);
      ResumedOffsets(matcher, log, offs, newestFirst, a, b);
      ChainTerminates(matcher, log, offs, newestFirst, calls[1..]);
      ProperSubsetSize(OffsetsIn(b.result.ranges), OffsetsIn(a.result.ranges));
    }
  }

  lemma ProperSubsetSize<T>(a: set<T>, b: set<T>)
    requires a < b
    ensures |a| < |b|
  {
    SubsetSize(a, b);
  }

  lemma ResumedOffsets(matcher: Matcher, log: set<Record>, offs: TopicOffsets, newestFirst: bool, a: Call, b: Call)
    requires IsCall(matcher, log, offs, a.opts, a.result) && a.opts.newestFirst == newestFirst && a.result.page.more
    requires IsCall(matcher, log, offs, b.opts, b.result) && b.opts.newestFirst == newestFirst
        && b.opts.cursors == a.result.next
    requires a.opts.limit > 0 && !a.result.timedOut && IsDiligent(matcher, log, a.opts, a.result)
    ensures OffsetsIn(b.result.ranges) < OffsetsIn(a.result.ranges)
  {
    hide SortedBefore, IsReport, IsCall, IsFirstPage;
    CallCursors(matcher, log, offs, a);
    forall spot | spot in OffsetsIn(b.result.ranges) ensures spot in OffsetsIn(a.result.ranges) {
      ResumedRange(matcher, log, offs, newestFirst, a, b, spot.0);
    }
    var p :| p in a.result.ranges && p in a.result.page.next &&
             if newestFirst then a.result.page.next[p] < a.result.ranges[p].end
               else a.result.ranges[p].start < a.result.page.next[p];
    ResumedRange(matcher, log, offs, newestFirst, a, b, p);
    var o := if newestFirst then a.result.ranges[p].end - 1 else a.result.ranges[p].start;
    assert (p, o) in OffsetsIn(a.result.ranges);
    assert (p, o) !in OffsetsIn(b.result.ranges);
  }

  /** Every call ended by itself. */
  ghost predicate AllComplete(calls: seq<Call>) {
    forall i :: 0 <= i < |calls| ==> !calls[i].result.budgetExhausted
  }

  /** Paging is sorting: with timestamps ordered within partitions the pages of
      calls that ended by themselves, put one after the other, are the first
      matches of the whole range in page order. */
  lemma {:induction false} CompletePagesSort(matcher: Matcher, log: set<Record>, offs: TopicOffsets, newestFirst: bool,
                                             calls: seq<Call>)
    requires IsChain(matcher, log, offs, newestFirst, calls) && AnsweredWell(calls) && AllComplete(calls)
    requires Ordered(Scope(log, calls[0]))
    ensures FirstOf(Messages(calls), Hits(matcher, Scope(log, calls[0])), |Messages(calls)|, newestFirst)
  {
    hide *;
    ChainHead(matcher, log, offs, newestFirst, calls);
    WellHead(matcher, log, offs, newestFirst, calls);
    CompleteHead(calls);
    var a := calls[0];
    var first, rest, all := a.result.page.messages, Messages(calls[1..]), Hits(matcher, Scope(log, a));
    CallIsExact(matcher, log, offs, newestFirst, a);
    FirstPage(matcher, log, newestFirst, a);
    MoreCalls(a, calls[1..]);
    assert calls == [a] + calls[1..];
    if |calls| == 1 {
      NoCalls();
      assert Messages(calls) == first;
    } else {
      ResumedScope(matcher, log, offs, newestFirst, a, calls[1]);
      OrderedSubset(Scope(log, calls[1]), Scope(log, a));
      CompletePagesSort(matcher, log, offs, newestFirst, calls[1..]);
      HitsOfRest(matcher, Scope(log, a), Settles(log, newestFirst, a), first);
      JoinPages(first, rest, all, a.opts.limit, newestFirst);
    }
  }

  lemma CompleteHead(calls: seq<Call>)
    requires AllComplete(calls) && calls != []
    ensures !calls[0].result.budgetExhausted && AllComplete(calls[1..])
  {
  }

  lemma NoCalls()
    ensures Messages([]) == []
  {
  }

  lemma HitsOfRest(matcher: Matcher, scope: set<Record>, settled: set<Record>, first: seq<Record>)
    requires settled <= scope && ToSet(first) == Hits(matcher, settled)
    ensures Hits(matcher, scope - settled) == Hits(matcher, scope) - ToSet(first)
  {
    hide ToSet;
  }

  lemma OrderedSubset(s: set<Record>, log: set<Record>)
    requires Ordered(log) && s <= log
    ensures Ordered(s)
  {
  }

  lemma FirstPage(matcher: Matcher, log: set<Record>, newestFirst: bool, a: Call)
    requires a.opts.limit > 0 && IsDiligent(matcher, log, a.opts, a.result) && a.opts.newestFirst == newestFirst
    requires Ordered(Scope(log, a)) && !a.result.budgetExhausted && !a.result.timedOut
    ensures FirstOf(a.result.page.messages, Hits(matcher, Scope(log, a)), a.opts.limit, newestFirst)
    ensures FirstOf(a.result.page.messages, Hits(matcher, Scope(log, a)), |a.result.page.messages|, newestFirst)
  {
    hide Ordered, InRanges, Before;
  }
}
