/** The copy loop of internal/server/topic_copy.go. */
module TopicCopy {
  import opened Records
  import opened RecordSource
  import opened SearchCall
  import opened ConsumeCall
  import opened ConsumeChain
  import opened CopyPages
  import opened CopyRun

  ghost predicate AreSome(acked: seq<Record>, batch: seq<Record>, n: nat) {
    |acked| == n && forall rec :: rec in acked ==> rec in batch
  }

  /** The destination topic: the records it acknowledged, in the order sent, and how often it failed. */
  class Destination {
    ghost var written: seq<Record>
    ghost var failures: nat

    /** The broker acknowledges some of a batch, all of it unless it fails. */
    method ProduceBatch(batch: seq<Record>) returns (produced: nat, failed: bool)
      modifies this
      ensures produced <= |batch| && old(written) <= written && |written| == |old(written)| + produced
      ensures forall rec :: rec in written[|old(written)|..] ==> rec in batch
      ensures !failed ==> written == old(written) + batch
      ensures failures == old(failures) + if failed then 1 else 0
    {
      failed := *;
      failures := failures + if failed then 1 else 0;
      ghost var before, acked := written, batch;
      produced := |batch|;
      if failed {
        produced :| 0 <= produced <= |batch|;
        assert AreSome(batch[..produced], batch, produced);
        ghost var some :| AreSome(some, batch, produced);
        acked := some;
      }
      written := before + acked;
      assert AreSome(acked, batch, produced);
      assert written[|before|..] == acked;
    }
  }

  /** Splits a page: what is sent, how much is skipped and which partitions are past the range. */
  method FilterPage(page: seq<Record>, toTS: int, ok: Reproducible, done0: set<Partition>)
    returns (batch: seq<Record>, skipped: nat, done: set<Partition>)
    ensures batch == Sent(page, toTS, ok) && skipped == Skipped(page, toTS, ok) && |batch| <= |page|
    ensures forall p :: p in done <==> p in done0 || exists m :: m in page && m.part == p && m.ts >= toTS
  {
    batch, skipped, done := [], 0, done0;
    for i := 0 to |page|
      invariant batch == Sent(page[..i], toTS, ok) && skipped == Skipped(page[..i], toTS, ok) && |batch| <= i
      invariant forall p :: p in done <==> p in done0 || exists m :: m in page[..i] && m.part == p && m.ts >= toTS
    {
      var msg := page[i];
      assert page[..i + 1][..i] == page[..i] && page[..i + 1] == page[..i] + [msg];
      if msg.ts >= toTS {
        done := done + {msg.part};
        continue;
      }
      if !ok(msg) {
        skipped := skipped + 1;
        continue;
      }
      batch := batch + [msg];
    }
    assert page[..|page|] == page;
  }

  /** Sends what a page holds in range, counts it, and notes the partitions past the range. */
  method SendPage(dest: Destination, page: seq<Record>, toTS: int, ok: Reproducible, copied0: int, skipped0: int,
                  done0: set<Partition>)
    returns (copied: int, skipped: int, done: set<Partition>, failed: bool)
    modifies dest
    ensures old(dest.written) <= dest.written && |dest.written| == |old(dest.written)| + copied - copied0
    ensures 0 <= copied - copied0 <= |Sent(page, toTS, ok)| && skipped == skipped0 + Skipped(page, toTS, ok)
    ensures forall rec :: rec in dest.written[|old(dest.written)|..] ==> rec in Sent(page, toTS, ok)
    ensures !failed ==> dest.written == old(dest.written) + Sent(page, toTS, ok)
    ensures forall p :: p in done <==> p in done0 || exists m :: m in page && m.part == p && m.ts >= toTS
    ensures dest.failures == old(dest.failures) + if failed then 1 else 0
  {
    hide *;
    var batch, more;
    batch, more, done := FilterPage(page, toTS, ok, done0);
    copied, skipped, failed := copied0, skipped0 + more, false;
    if |batch| > 0 {
      var produced;
      produced, failed := dest.ProduceBatch(batch);
      copied := copied + produced;
    }
  }

  /** What the loop counts and holds after the pages read so far. */
  ghost predicate IsAt(job: CopyJob, ok: Reproducible, pages: seq<Page>, copied: int, skipped: int, emptyPages: int,
                       from: ConsumeFrom, cursor: map<Partition, int>, done: set<Partition>)
  {
    && copied == Copied(job, ok, pages) && skipped == Skipped(Read(pages), job.toTS, ok) && emptyPages == Blanks(pages)
    && done == Past(job.toTS, Read(pages)) && !ReadsNoFurther(job, pages)
    && from == (if Cursor(job, pages).None? then FirstFrom(job) else FromOffset)
    && cursor == (if Cursor(job, pages).None? then map[] else Cursor(job, pages).value)
  }

  /** Copies page after page: the pages it reads are a run, which is over when it is done. */
  method RunCopy(broker: Broker, dest: Destination, offs: TopicOffsets, job: CopyJob, ok: Reproducible)
    returns (r: CopyOutcome, ghost pages: seq<Page>)
    requires IsLog(broker.log) && AreOffsetsOf(offs)
    modifies broker, dest
    ensures IsRun(broker.log, offs, job, ok, pages)
    ensures old(broker.polls) + Answers(pages) <= broker.polls && old(dest.written) <= dest.written
    ensures |dest.written| == |old(dest.written)| + r.copied && r.copied <= Copied(job, ok, pages)
    ensures r.CopyDone? ==> Over(job, ok, pages) && broker.polls == old(broker.polls) + Answers(pages)
    ensures r.CopyDone? ==> dest.written == old(dest.written) + Sent(Read(pages), job.toTS, ok)
    ensures r.CopyDone? ==> r.skipped == Skipped(Read(pages), job.toTS, ok)
    ensures job.limit > 0 ==> r.copied <= job.limit
    // With ordered timestamps it is complete iff nothing in the time range is still to come.
    ensures Ordered(broker.log) && r.CopyDone? ==>
              (IsCopy(Source(broker.log, offs, job), job.toTS, ok, dest.written[|old(dest.written)|..], r.skipped)
               <==> forall rec :: rec in Rest(broker.log, offs, job, ok, pages) ==> rec.ts >= job.toTS)
    ensures r.CopyFailed? ==> SomeFailed(broker.polls[|old(broker.polls)|..]) || dest.failures > old(dest.failures)
  {
    hide *;
    ghost var log, polls, written, failures := broker.log, broker.polls, dest.written, dest.failures;
    var copied, skipped, emptyPages := 0, 0, 0;
    var done: set<Partition> := {};
    var from, cursor := FirstFrom(job), map[];
    pages := [];
    Starts(log, offs, job, ok);
    RunFacts(log, offs, job, ok, pages);
    while job.limit <= 0 || copied < job.limit
      invariant IsRun(log, offs, job, ok, pages) && IsAt(job, ok, pages, copied, skipped, emptyPages, from, cursor,
                                                         done)
      invariant !GaveUp(pages) && broker.polls == polls + Answers(pages) && dest.failures == failures
      invariant dest.written == written + Sent(Read(pages), job.toTS, ok)
          && copied == Copied(job, ok, pages) == |dest.written| - |written|
      invariant skipped == Skipped(Read(pages), job.toTS, ok)
      decreases PagesAtMost(log, offs, job) - |pages|
    {
      var batchLimit := if job.limit > 0 && job.limit - copied < COPY_BATCH_SIZE then job.limit - copied
        else COPY_BATCH_SIZE;
      var opts := PageOptions(from, cursor, batchLimit);
      GoesOn(log, offs, job, ok, pages, copied, skipped, emptyPages, from, cursor, done, batchLimit);
      ghost var polls0 := broker.polls;
      var res; ghost var ranges;
      res, ranges := ConsumeMessages(broker, opts, offs);
      if res.ConsumeFailed? {
        OnlyReadFails(opts, offs, res, polls, polls0, broker.polls);
        return CopyFailed(copied, skipped), pages;
      }
      var page := res.result;
      ghost var a, init := Page(opts, ranges, page, broker.polls[|polls0|..]), pages;
      pages := pages + [a];
      OneMore(log, offs, job, ok, init, a);
      RunFacts(log, offs, job, ok, pages);
      if |page.messages| == 0 {
        BlankMore(job, ok, init, a, copied, skipped, emptyPages, from, cursor, done);
        if emptyPages >= MAX_EMPTY_PAGE_RETRIES {
          break;
        }
        emptyPages := emptyPages + 1;
        continue;
      }
      ghost var copied0, skipped0, emptyPages0, done0 := copied, skipped, emptyPages, done;
      emptyPages := 0;
      var failed;
      copied, skipped, done, failed := SendPage(dest, page.messages, job.toTS, ok, copied, skipped, done);
      SentMore(job, ok, init, a);
      PageMore(job, ok, init, a, copied0, skipped0, emptyPages0, from, cursor, done0, done);
      if failed {
        return CopyFailed(copied, skipped), pages;
      }
      assert dest.written == written + Sent(Read(pages), job.toTS, ok);
      IsOver(job, ok, pages);
      if !page.hasMore || page.cursor.None? {
        return CopyDone(copied, skipped), pages;
      }
      cursor := page.cursor.value - done;
      if cursor == map[] {
        return CopyDone(copied, skipped), pages;
      }
      from := FromOffset;
    }
    RunFacts(log, offs, job, ok, pages);
    IsOver(job, ok, pages);
    return CopyDone(copied, skipped), pages;
  }

  lemma IsOver(job: CopyJob, ok: Reproducible, pages: seq<Page>)
    ensures GaveUp(pages) || ReadsNoFurther(job, pages) || (job.limit > 0 && Copied(job, ok, pages) >= job.limit) ==>
        Over(job, ok, pages)
  {
    hide GaveUp, ReadsNoFurther, Copied;
  }

  ghost function PagesAtMost(log: set<Record>, offs: TopicOffsets, job: CopyJob): int {
    (MAX_EMPTY_PAGE_RETRIES + 1) * (|Source(log, offs, job)| + 1)
  }

  lemma Starts(log: set<Record>, offs: TopicOffsets, job: CopyJob, ok: Reproducible)
    ensures IsRun(log, offs, job, ok, []) && IsAt(job, ok, [], 0, 0, 0, FirstFrom(job), map[], {})
    ensures !GaveUp([]) && Answers([]) == [] && Sent(Read([]), job.toTS, ok) == []
  {
  }

  /** What the theorems about runs say of the pages so far. */
  lemma RunFacts(log: set<Record>, offs: TopicOffsets, job: CopyJob, ok: Reproducible, pages: seq<Page>)
    requires IsLog(log) && AreOffsetsOf(offs) && IsRun(log, offs, job, ok, pages)
    ensures job.limit > 0 ==> Copied(job, ok, pages) <= job.limit
    ensures Ordered(log) ==>
              (IsCopy(Source(log, offs, job), job.toTS, ok, Sent(Read(pages), job.toTS, ok),
                      Skipped(Read(pages), job.toTS, ok))
               <==> forall rec :: rec in Rest(log, offs, job, ok, pages) ==> rec.ts >= job.toTS)
    ensures |pages| <= PagesAtMost(log, offs, job)
    ensures Copied(job, ok, pages) == |Sent(Read(pages), job.toTS, ok)|
  {
    RunIsBounded(log, offs, job, ok, pages);
    hide *;
    CopiedIs(job, ok, pages);
    if job.limit > 0 {
      LimitIsKept(log, offs, job, ok, pages);
    }
    if Ordered(log) {
      RunIsCopy(log, offs, job, ok, pages);
    }
  }

  lemma CopiedIs(job: CopyJob, ok: Reproducible, pages: seq<Page>)
    ensures Copied(job, ok, pages) == |Sent(Read(pages), job.toTS, ok)|
  {
  }

  /** The options the loop reads its next page with. */
  lemma GoesOn(log: set<Record>, offs: TopicOffsets, job: CopyJob, ok: Reproducible, pages: seq<Page>, copied: int,
               skipped: int,
               emptyPages: int, from: ConsumeFrom, cursor: map<Partition, int>, done: set<Partition>, batchLimit: int)
    requires IsRun(log, offs, job, ok, pages) && IsAt(job, ok, pages, copied, skipped, emptyPages, from, cursor, done)
    requires !GaveUp(pages) && (job.limit <= 0 || copied < job.limit)
    requires batchLimit == if job.limit > 0 && job.limit - copied < COPY_BATCH_SIZE then job.limit - copied
        else COPY_BATCH_SIZE
    ensures !Over(job, ok, pages) && PageOptions(from, cursor, batchLimit) == NextOptions(job, ok, pages)
    ensures var opts := PageOptions(from, cursor, batchLimit); ConsumeDefaults(opts) == opts && CanSeek(opts, offs)
    ensures emptyPages <= MAX_EMPTY_PAGE_RETRIES
  {
    hide IsRun, ReadsNoFurther, Cursor, Copied, Read, Past;
    NextIsForward(log, offs, job, ok, pages);
  }

  lemma OneMore(log: set<Record>, offs: TopicOffsets, job: CopyJob, ok: Reproducible, init: seq<Page>, a: Page)
    requires IsRun(log, offs, job, ok, init) && !Over(job, ok, init)
    requires a.opts == NextOptions(job, ok, init) && IsPage(log, offs, a.opts, a.ranges, a.result, a.polls)
    ensures IsRun(log, offs, job, ok, init + [a]) && Answers(init + [a]) == Answers(init) + a.polls
    ensures a.result.hasMore <==> a.result.cursor.Some?
  {
    assert (init + [a])[..|init|] == init;
    hide Over, NextOptions, IsQuery, IsExactPage, FirstOf, Ordered, SortedBefore;
  }

  lemma BlankMore(job: CopyJob, ok: Reproducible, init: seq<Page>, a: Page, copied: int, skipped: int, emptyPages: int,
                  from: ConsumeFrom, cursor: map<Partition, int>, done: set<Partition>)
    requires IsAt(job, ok, init, copied, skipped, emptyPages, from, cursor, done) && a.result.messages == []
    ensures IsAt(job, ok, init + [a], copied, skipped, emptyPages + 1, from, cursor, done)
    ensures Read(init + [a]) == Read(init)
    ensures GaveUp(init + [a]) <==> emptyPages >= MAX_EMPTY_PAGE_RETRIES
  {
    assert (init + [a])[..|init|] == init;
    BlankState(job, ok, init + [a]);
  }

  lemma SentMore(job: CopyJob, ok: Reproducible, init: seq<Page>, a: Page)
    ensures Read(init + [a]) == Read(init) + a.result.messages
    ensures Sent(Read(init + [a]), job.toTS, ok) == Sent(Read(init), job.toTS, ok)
        + Sent(a.result.messages, job.toTS, ok)
    ensures Skipped(Read(init + [a]), job.toTS, ok) ==
        Skipped(Read(init), job.toTS, ok) + Skipped(a.result.messages, job.toTS, ok)
  {
    assert (init + [a])[..|init|] == init;
    SentConcat(Read(init), a.result.messages, job.toTS, ok);
  }

  /** Where the loop stands after a page that was not empty. */
  lemma PageMore(job: CopyJob, ok: Reproducible, init: seq<Page>, a: Page, copied0: int, skipped0: int, emptyPages: int,
                 from: ConsumeFrom, cursor: map<Partition, int>, done0: set<Partition>, done: set<Partition>)
    requires IsAt(job, ok, init, copied0, skipped0, emptyPages, from, cursor, done0) && a.result.messages != []
    requires forall p ::
        p in done <==> p in done0 || exists m :: m in a.result.messages && m.part == p && m.ts >= job.toTS
    ensures var pages := init + [a];
      && !GaveUp(pages) && (ReadsNoFurther(job, pages) <==>
        a.result.cursor.None? || a.result.cursor.value - done == map[])
      && (!ReadsNoFurther(job, pages) ==>
            IsAt(job, ok, pages, Copied(job, ok, pages), Skipped(Read(pages), job.toTS, ok), 0, FromOffset,
                 a.result.cursor.value - done, done))
  {
    var pages := init + [a];
    assert pages[..|init|] == init;
    hide Copied, Skipped;
    PastMore(job.toTS, Read(init), a.result.messages, done0, done);
  }

  lemma PastMore(toTS: int, seen: seq<Record>, page: seq<Record>, done0: set<Partition>, done: set<Partition>)
    requires done0 == Past(toTS, seen)
    requires forall p :: p in done <==> p in done0 || exists m :: m in page && m.part == p && m.ts >= toTS
    ensures done == Past(toTS, seen + page)
  {
    forall p ensures p in done <==> p in Past(toTS, seen + page) {
      if p in done {
        if p in done0 {
          var m :| m in seen && m.ts >= toTS && m.part == p;
          assert m in seen + page;
        } else {
          var m :| m in page && m.part == p && m.ts >= toTS;
          assert m in seen + page;
        }
      }
    }
  }

  /** A copy always says where to read from, so that a page fails only when a poll does. */
  lemma OnlyReadFails(opts: ConsumeOptions, offs: TopicOffsets, res: ConsumeOutcome,
                      start: seq<PollResult>, polls: seq<PollResult>, more: seq<PollResult>)
    requires start <= polls <= more && res.ConsumeFailed? && ConsumeDefaults(opts) == opts && CanSeek(opts, offs)
    requires res == ConsumeFailed(OffsetsRequired) <==> !CanSeek(ConsumeDefaults(opts), offs)
    requires res == ConsumeFailed(ReadFailed) ==> SomeFailed(more[|polls|..])
    ensures SomeFailed(more[|start|..])
  {
    assert res.error != OffsetsRequired && res == ConsumeFailed(ReadFailed);
    var last := more[|polls|..];
    var i :| 0 <= i < |last| && last[i].PollFailed?;
    assert more[|start|..][|polls| - |start| + i] == last[i];
  }
}
