/** Whole copies: runCopy of internal/server/topic_copy.go, as the sequence of
    the pages it reads. */
module CopyRun {
  import opened Options
  import opened Sets
  import opened Records
  import opened RecordSource
  import opened SearchCall
  import opened ConsumeCall
  import opened ConsumeChain
  import opened CopyPages

  // --- the state of the loop after some pages ---

  /** All records read, in order. */
  ghost function Read(pages: seq<Page>): seq<Record> {
    if pages == [] then [] else Read(pages[..|pages| - 1]) + pages[|pages| - 1].result.messages
  }

  /** The answers to all polls. */
  ghost function Answers(pages: seq<Page>): seq<PollResult> {
    if pages == [] then [] else Answers(pages[..|pages| - 1]) + pages[|pages| - 1].polls
  }

  /** How many empty pages came last, in a row. */
  ghost function Blanks(pages: seq<Page>): nat {
    if pages == [] || pages[|pages| - 1].result.messages != [] then 0 else Blanks(pages[..|pages| - 1]) + 1
  }

  /** The partitions that showed a record at or past the end of the time range. */
  ghost function Past(toTS: int, s: seq<Record>): set<Partition> {
    set m | m in s && m.ts >= toTS :: m.part
  }

  /** The cursor to read on from, without the partitions past the range. */
  ghost function Cursor(job: CopyJob, pages: seq<Page>): Option<map<Partition, int>> {
    if pages == [] then None
    else
      var last := pages[|pages| - 1].result;
      if last.messages == [] then Cursor(job, pages[..|pages| - 1])
      else if last.cursor == None then None
      else Some(last.cursor.value - Past(job.toTS, Read(pages)))
  }

  ghost function Copied(job: CopyJob, ok: Reproducible, pages: seq<Page>): nat {
    |Sent(Read(pages), job.toTS, ok)|
  }

  function BatchLimit(limit: int, copied: int): int {
    if limit > 0 && limit - copied < COPY_BATCH_SIZE then limit - copied else COPY_BATCH_SIZE
  }

  /** What the page after these is asked for. */
  ghost function NextOptions(job: CopyJob, ok: Reproducible, pages: seq<Page>): ConsumeOptions {
    var limit := BatchLimit(job.limit, Copied(job, ok, pages));
    match Cursor(job, pages)
    case None => PageOptions(FirstFrom(job), map[], limit)
    case Some(cursor) => PageOptions(FromOffset, cursor, limit)
  }

  /** The last page was not empty, and its cursor leaves nothing to read. */
  ghost predicate ReadsNoFurther(job: CopyJob, pages: seq<Page>) {
    pages != [] && Blanks(pages) == 0 && (Cursor(job, pages) == None || Cursor(job, pages) == Some(map[]))
  }

  ghost predicate AtLimit(job: CopyJob, ok: Reproducible, pages: seq<Page>) {
    job.limit > 0 && Copied(job, ok, pages) >= job.limit
  }

  /** Empty pages are read again, but only so often. */
  ghost predicate GaveUp(pages: seq<Page>) {
    Blanks(pages) > MAX_EMPTY_PAGE_RETRIES
  }

  /** The copy ends here. */
  ghost predicate Over(job: CopyJob, ok: Reproducible, pages: seq<Page>) {
    AtLimit(job, ok, pages) || GaveUp(pages) || ReadsNoFurther(job, pages)
  }

  /** Each page is one a copy reads after the pages before it. */
  ghost predicate IsRun(log: set<Record>, offs: TopicOffsets, job: CopyJob, ok: Reproducible, pages: seq<Page>) {
    pages == [] ||
    var init, a := pages[..|pages| - 1], pages[|pages| - 1];
    && IsRun(log, offs, job, ok, init) && !Over(job, ok, init)
    && a.opts == NextOptions(job, ok, init) && IsPage(log, offs, a.opts, a.ranges, a.result, a.polls)
  }

  /** What the next page would cover. */
  ghost function Rest(log: set<Record>, offs: TopicOffsets, job: CopyJob, ok: Reproducible,
                      pages: seq<Page>): set<Record> {
    if ReadsNoFurther(job, pages) then {} else ScopeOf(log, NextOptions(job, ok, pages), offs)
  }

  // --- one more page ---

  /** A page is read forward, from a place the copy knows. */
  lemma NextIsForward(log: set<Record>, offs: TopicOffsets, job: CopyJob, ok: Reproducible, pages: seq<Page>)
    requires IsRun(log, offs, job, ok, pages) && !ReadsNoFurther(job, pages) && !AtLimit(job, ok, pages)
    ensures var opts := NextOptions(job, ok, pages);
      && IsForward(opts.from) && 0 < opts.limit <= MAX_LIMIT && ConsumeDefaults(opts) == opts && CanSeek(opts, offs)
      && (job.limit > 0 ==> Copied(job, ok, pages) + opts.limit <= job.limit)
  {
    CursorIsUsed(log, offs, job, ok, pages);
    hide Copied, Cursor, IsRun, ReadsNoFurther;
  }

  lemma {:induction false} CursorIsUsed(log: set<Record>, offs: TopicOffsets, job: CopyJob, ok: Reproducible,
                                        pages: seq<Page>)
    requires IsRun(log, offs, job, ok, pages) && !ReadsNoFurther(job, pages)
    ensures Cursor(job, pages) != Some(map[])
  {
    if pages != [] && Blanks(pages) > 0 {
      CursorIsUsed(log, offs, job, ok, pages[..|pages| - 1]);
    }
  }

  /** The last page of a run is read forward of all that was still to come. */
  lemma LastPage(log: set<Record>, offs: TopicOffsets, job: CopyJob, ok: Reproducible, pages: seq<Page>)
    requires pages != [] && IsRun(log, offs, job, ok, pages)
    ensures var init, a := pages[..|pages| - 1], pages[|pages| - 1];
      && IsRun(log, offs, job, ok, init) && !Over(job, ok, init) && a.opts == NextOptions(job, ok, init)
      && IsPage(log, offs, a.opts, a.ranges, a.result, a.polls)
      && !IsBackward(a.opts) && a.opts.from != Unset && Scope(log, a) == Rest(log, offs, job, ok, init)
      && (a.result.hasMore <==> a.result.cursor.Some?) && |a.result.messages| <= a.opts.limit
  {
    var init, a := pages[..|pages| - 1], pages[|pages| - 1];
    hide ReadsNoFurther, NextOptions, Cursor, Copied, IsQuery, IsExactPage, FirstOf, Ordered, SortedBefore, QueryRanges;
    NextIsForward(log, offs, job, ok, init);
    QueryIs(a.opts, offs, a.ranges);
  }

  /** An empty page changes nothing, another one may end the copy or say where to go on. */
  lemma AfterPage(log: set<Record>, offs: TopicOffsets, job: CopyJob, ok: Reproducible, pages: seq<Page>)
    requires AreOffsetsOf(offs) && pages != [] && IsRun(log, offs, job, ok, pages)
    ensures var init, a := pages[..|pages| - 1], pages[|pages| - 1];
      var left, rest := Left(log, a), Rest(log, offs, job, ok, pages);
      if a.result.messages == [] then Read(pages) == Read(init) && rest == Rest(log, offs, job, ok, init)
      else
        && Read(pages) == Read(init) + a.result.messages && rest <= left
        && (Ordered(log) ==> rest == set r | r in left && r.part !in Past(job.toTS, Read(pages)))
  {
    var init, a := pages[..|pages| - 1], pages[|pages| - 1];
    LastPage(log, offs, job, ok, pages);
    if a.result.messages == [] {
      SameRest(log, offs, job, ok, pages);
    } else if a.result.cursor.None? {
      NothingMore(log, offs, a);
    } else {
      var done := Past(job.toTS, Read(pages));
      var cursor := a.result.cursor.value - done;
      hide *;
      NextCursor(log, offs, job, ok, pages);
      if cursor == map[] {
        if Ordered(log) {
          AllDone(log, offs, a, done);
        }
      } else {
        NextScope(log, offs, a, done, cursor);
        AnyLimit(log, offs, cursor, BatchLimit(job.limit, Copied(job, ok, pages)));
      }
    }
  }

  lemma SameRest(log: set<Record>, offs: TopicOffsets, job: CopyJob, ok: Reproducible, pages: seq<Page>)
    requires pages != [] && pages[|pages| - 1].result.messages == [] && !ReadsNoFurther(job, pages[..|pages| - 1])
    ensures Read(pages) == Read(pages[..|pages| - 1]) && Rest(log, offs, job, ok, pages) ==
        Rest(log, offs, job, ok, pages[..|pages| - 1])
  {
    BlankState(job, ok, pages);
    hide ScopeOf, Read, Cursor, Copied, BatchLimit, ReadsNoFurther;
  }

  lemma BlankState(job: CopyJob, ok: Reproducible, pages: seq<Page>)
    requires pages != [] && pages[|pages| - 1].result.messages == []
    ensures var init := pages[..|pages| - 1];
      && Read(pages) == Read(init) && Copied(job, ok, pages) == Copied(job, ok, init)
        && Cursor(job, pages) == Cursor(job, init)
      && !ReadsNoFurther(job, pages)
  {
    hide Sent;
    assert Read(pages) == Read(pages[..|pages| - 1]) + [];
  }

  lemma NothingMore(log: set<Record>, offs: TopicOffsets, a: Page)
    requires IsPage(log, offs, a.opts, a.ranges, a.result, a.polls) && !IsBackward(a.opts) && a.result.messages != []
        && !a.result.hasMore
    ensures Ordered(log) ==> Left(log, a) == {}
  {
    if Ordered(log) {
      ScopeInLog(log, a);
      OrderedSubset(Scope(log, a), log);
      ForwardIsWhole(a);
      NothingLeft(log, offs, a);
    }
  }

  lemma NextCursor(log: set<Record>, offs: TopicOffsets, job: CopyJob, ok: Reproducible, pages: seq<Page>)
    requires pages != [] && pages[|pages| - 1].result.messages != [] && pages[|pages| - 1].result.cursor.Some?
    ensures var cursor := pages[|pages| - 1].result.cursor.value - Past(job.toTS, Read(pages));
      Rest(log, offs, job, ok, pages) ==
      if cursor == map[] then {} else ScopeOf(log, PageOptions(FromOffset, cursor,
          BatchLimit(job.limit, Copied(job, ok, pages))), offs)
    ensures Read(pages) == Read(pages[..|pages| - 1]) + pages[|pages| - 1].result.messages
  {
    hide Copied, ScopeOf;
  }

  lemma AnyLimit(log: set<Record>, offs: TopicOffsets, cursor: map<Partition, int>, limit: int)
    ensures ScopeOf(log, PageOptions(FromOffset, cursor, limit), offs) ==
        ScopeOf(log, PageOptions(FromOffset, cursor, 1), offs)
  {
    hide QueryRanges;
    SameQuery(offs, FromOffset, cursor, limit);
  }

  // --- what a run reads ---

  /** Whatever the timestamps, no record is read twice. With ordered timestamps all
      records in the time range are read or still to come. */
  lemma {:induction false} RunAccounts(log: set<Record>, offs: TopicOffsets, job: CopyJob, ok: Reproducible,
                                       pages: seq<Page>)
    requires IsLog(log) && AreOffsetsOf(offs) && IsRun(log, offs, job, ok, pages)
    ensures ReadsOnce(Source(log, offs, job), Read(pages), Rest(log, offs, job, ok, pages))
    ensures Ordered(log) ==> Accounts(Source(log, offs, job), job.toTS, Read(pages), Rest(log, offs, job, ok, pages))
    decreases |pages|
  {
    hide *;
    var all := Source(log, offs, job);
    if pages == [] {
      RunStarts(log, offs, job, ok);
      Nothing(all, job.toTS, ok);
    } else {
      var init, a := pages[..|pages| - 1], pages[|pages| - 1];
      LastPage(log, offs, job, ok, pages);
      RunAccounts(log, offs, job, ok, init);
      AfterPage(log, offs, job, ok, pages);
      if a.result.messages != [] {
        PageReadsOnce(log, offs, a, all, Read(init));
        ReadsLess(all, Read(pages), Left(log, a), Rest(log, offs, job, ok, pages));
        if Ordered(log) {
          PageAccounts(log, offs, a, all, job.toTS, Read(init));
          SourceInLog(log, offs, job);
          PastAreDone(Read(pages), job.toTS);
          DropDone(log, all, job.toTS, Read(pages), Left(log, a), Past(job.toTS, Read(pages)));
        }
      }
    }
  }

  lemma RunStarts(log: set<Record>, offs: TopicOffsets, job: CopyJob, ok: Reproducible)
    ensures Read([]) == [] && Rest(log, offs, job, ok, []) == Source(log, offs, job)
  {
    SameQuery(offs, FirstFrom(job), map[], BatchLimit(job.limit, 0));
    hide QueryRanges;
  }

  lemma SourceInLog(log: set<Record>, offs: TopicOffsets, job: CopyJob)
    ensures Source(log, offs, job) <= log
  {
    hide QueryRanges;
  }

  lemma PastAreDone(seen: seq<Record>, toTS: int)
    ensures AreDone(seen, toTS, Past(toTS, seen))
  {
  }

  lemma ReadsLess(all: set<Record>, seen: seq<Record>, left: set<Record>, scope: set<Record>)
    requires ReadsOnce(all, seen, left) && scope <= left
    ensures ReadsOnce(all, seen, scope)
  {
  }

  /** A run has copied everything iff nothing in the time range is still to come. */
  lemma RunIsCopy(log: set<Record>, offs: TopicOffsets, job: CopyJob, ok: Reproducible, pages: seq<Page>)
    requires IsLog(log) && AreOffsetsOf(offs) && Ordered(log) && IsRun(log, offs, job, ok, pages)
    ensures IsCopy(Source(log, offs, job), job.toTS, ok, Sent(Read(pages), job.toTS, ok),
                   Skipped(Read(pages), job.toTS, ok))
            <==> forall r :: r in Rest(log, offs, job, ok, pages) ==> r.ts >= job.toTS
  {
    hide *;
    RunAccounts(log, offs, job, ok, pages);
    AccountedIsCopy(Source(log, offs, job), job.toTS, ok, Read(pages), Rest(log, offs, job, ok, pages));
  }

  /** A run that ended without reaching its limit or giving up has copied everything. */
  lemma EndedIsCopy(log: set<Record>, offs: TopicOffsets, job: CopyJob, ok: Reproducible, pages: seq<Page>)
    requires IsLog(log) && AreOffsetsOf(offs) && Ordered(log) && IsRun(log, offs, job, ok, pages)
    requires Over(job, ok, pages) && !AtLimit(job, ok, pages) && !GaveUp(pages)
    ensures IsCopy(Source(log, offs, job), job.toTS, ok, Sent(Read(pages), job.toTS, ok),
                   Skipped(Read(pages), job.toTS, ok))
  {
    hide IsCopy, Sent, Skipped, Read, IsRun, AtLimit, Ordered;
    RunIsCopy(log, offs, job, ok, pages);
  }

  /** A run that gave up missed what was still to come; its last pages were empty, and
      if anything at all was, a failed poll or two empty ones in a row disturbed each. */
  lemma {:induction false} GaveUpIsDisturbed(log: set<Record>, offs: TopicOffsets, job: CopyJob, ok: Reproducible,
                                             pages: seq<Page>, i: nat)
    requires Ordered(log) && IsRun(log, offs, job, ok, pages) && |pages| - Blanks(pages) <= i < |pages|
    ensures pages[i].result.messages == []
    ensures Scope(log, pages[i]) == Rest(log, offs, job, ok, pages)
    ensures Rest(log, offs, job, ok, pages) != {} ==> Disturbed(pages[i].polls, 2)
    decreases |pages|
  {
    var init, a := pages[..|pages| - 1], pages[|pages| - 1];
    LastPage(log, offs, job, ok, pages);
    hide Disturbed, Rest, IsRun, Scope, Over, Ordered, IsPage, NextOptions;
    NotFurther(job, ok, init);
    SameRest(log, offs, job, ok, pages);
    if i == |pages| - 1 {
      if Rest(log, offs, job, ok, pages) != {} {
        EmptyIsDisturbed(log, offs, a);
      }
    } else {
      GaveUpIsDisturbed(log, offs, job, ok, init, i);
    }
  }

  lemma NotFurther(job: CopyJob, ok: Reproducible, pages: seq<Page>)
    requires !Over(job, ok, pages)
    ensures !ReadsNoFurther(job, pages) && !AtLimit(job, ok, pages) && !GaveUp(pages)
  {
  }

  /** A copy never exceeds its limit. */
  lemma {:induction false} LimitIsKept(log: set<Record>, offs: TopicOffsets, job: CopyJob, ok: Reproducible,
                                       pages: seq<Page>)
    requires IsRun(log, offs, job, ok, pages) && job.limit > 0
    ensures Copied(job, ok, pages) <= job.limit
    decreases |pages|
  {
    if pages == [] {
      assert Read(pages) == [];
    } else {
      var init, a := pages[..|pages| - 1], pages[|pages| - 1];
      LastPage(log, offs, job, ok, pages);
      NextIsForward(log, offs, job, ok, init);
      hide IsRun, IsPage, Over, NextOptions, Sent;
      SentConcat(Read(init), a.result.messages, job.toTS, ok);
      SentFewer(a.result.messages, job.toTS, ok);
    }
  }

  lemma {:induction false} SentFewer(s: seq<Record>, toTS: int, ok: Reproducible)
    ensures |Sent(s, toTS, ok)| <= |s|
  {
    if s != [] {
      SentFewer(s[..|s| - 1], toTS, ok);
    }
  }

  /** A copy ends: between records it reads at most two empty pages. */
  lemma {:induction false} RunIsBounded(log: set<Record>, offs: TopicOffsets, job: CopyJob, ok: Reproducible,
                                        pages: seq<Page>)
    requires IsLog(log) && AreOffsetsOf(offs) && IsRun(log, offs, job, ok, pages)
    ensures |pages| <= (MAX_EMPTY_PAGE_RETRIES + 1) * (|Source(log, offs, job)| + 1)
  {
    hide *;
    RunAccounts(log, offs, job, ok, pages);
    PagesOfRecords(log, offs, job, ok, pages);
    FewRecords(Source(log, offs, job), Read(pages), Rest(log, offs, job, ok, pages));
    Retries();
    assert Blanks(pages) <= 3 by {
      BlanksAreFew(log, offs, job, ok, pages);
    }
  }

  lemma Retries()
    ensures MAX_EMPTY_PAGE_RETRIES == 2
  {
  }

  lemma FewRecords(all: set<Record>, seen: seq<Record>, scope: set<Record>)
    requires ReadsOnce(all, seen, scope)
    ensures |seen| <= |all|
  {
    NoDupCardinality(seen);
    SubsetSize(ToSet(seen), all);
  }

  lemma BlanksAreFew(log: set<Record>, offs: TopicOffsets, job: CopyJob, ok: Reproducible, pages: seq<Page>)
    requires IsRun(log, offs, job, ok, pages)
    ensures Blanks(pages) <= MAX_EMPTY_PAGE_RETRIES + 1
  {
    hide AtLimit, ReadsNoFurther, IsPage, NextOptions;
  }

  lemma {:induction false} PagesOfRecords(log: set<Record>, offs: TopicOffsets, job: CopyJob, ok: Reproducible,
                                          pages: seq<Page>)
    requires IsRun(log, offs, job, ok, pages)
    ensures |pages| <= 3 * |Read(pages)| + Blanks(pages)
    decreases |pages|
  {
    hide AtLimit, ReadsNoFurther, IsPage, NextOptions;
    if pages != [] {
      PagesOfRecords(log, offs, job, ok, pages[..|pages| - 1]);
    }
  }

  // --- a copy that ends too early ---

  const LOST_OFFSETS := TopicOffsets([0], map[0 := 0], map[0 := 1], map[], map[])

  const LOST_JOB := CopyJob(0, false, 10)

  const LOST_RECORD := Record(0, 0, 1, false, "lost")

  /** An empty page of a topic of one record: two polls returned nothing. */
  const LOST_PAGE := Page(PageOptions(FromStart, map[], COPY_BATCH_SIZE), map[0 := Range(0, 1)],
                          ConsumeResult([], None, false, false), [Fetched([]), Fetched([])])

  /** After three such pages the copy of a topic of one record is over, and has copied nothing. */
  lemma ThreeBlanksLose(ok: Reproducible)
    ensures
      var pages := [LOST_PAGE, LOST_PAGE, LOST_PAGE];
      && AreOffsetsOf(LOST_OFFSETS) && IsLog({LOST_RECORD}) && Ordered({LOST_RECORD})
      && IsRun({LOST_RECORD}, LOST_OFFSETS, LOST_JOB, ok, pages) && Over(LOST_JOB, ok, pages) && Read(pages) == []
      && !IsCopy(Source({LOST_RECORD}, LOST_OFFSETS, LOST_JOB), LOST_JOB.toTS, ok, [], 0)
  {
    var one, two, three := [LOST_PAGE], [LOST_PAGE, LOST_PAGE], [LOST_PAGE, LOST_PAGE, LOST_PAGE];
    assert one[..0] == [] && two[..1] == one && three[..2] == two;
    LostPageIsPage();
    StartState(LOST_JOB, ok);
    BlankState(LOST_JOB, ok, one);
    BlankState(LOST_JOB, ok, two);
    BlankState(LOST_JOB, ok, three);
    assert Blanks(one) == 1 && Blanks(two) == 2 && Blanks(three) == 3;
    LostIsSource();
    hide IsPage, ScopeOf, Cursor, Read, Copied, Source;
    assert IsRun({LOST_RECORD}, LOST_OFFSETS, LOST_JOB, ok, []);
    assert IsRun({LOST_RECORD}, LOST_OFFSETS, LOST_JOB, ok, one);
    assert IsRun({LOST_RECORD}, LOST_OFFSETS, LOST_JOB, ok, two);
    NothingIsNoCopy({LOST_RECORD}, LOST_JOB.toTS, ok, LOST_RECORD);
  }

  lemma NothingIsNoCopy(all: set<Record>, toTS: int, ok: Reproducible, r: Record)
    requires r in all && r.ts < toTS
    ensures !IsCopy(all, toTS, ok, [], 0)
  {
    var skips := set x | x in all && x.ts < toTS && !ok(x);
    if !ok(r) {
      assert r in skips;
    }
  }

  lemma StartState(job: CopyJob, ok: Reproducible)
    ensures Read([]) == [] && Copied(job, ok, []) == 0 && Cursor(job, []) == None
  {
  }

  lemma LostPageIsPage()
    ensures IsPage({LOST_RECORD}, LOST_OFFSETS, LOST_PAGE.opts, LOST_PAGE.ranges, LOST_PAGE.result, LOST_PAGE.polls)
  {
    assert EmptyAt(LOST_PAGE.polls, 0, 2);
    hide FirstOf;
  }

  lemma LostIsSource()
    ensures Source({LOST_RECORD}, LOST_OFFSETS, LOST_JOB) == {LOST_RECORD}
  {
    assert QueryRanges(PageOptions(FromStart, map[], 1), LOST_OFFSETS) == map[0 := Range(0, 1)];
  }
}
