/** What a page of a copy adds to it: the scopes of the pages of
    internal/server/topic_copy.go and what was read, sent and skipped of them. */
module CopyPages {
  import opened Sets
  import opened Records
  import opened Sorting
  import opened RecordSource
  import opened SearchState
  import opened SearchCall
  import opened ConsumeCall
  import opened ConsumeChain

  const COPY_BATCH_SIZE := 500

  const MAX_EMPTY_PAGE_RETRIES := 2

  /** A limit of zero or less is none; toTS is exclusive. */
  datatype CopyJob = CopyJob(limit: int, timed: bool, toTS: int)

  datatype CopyOutcome = CopyDone(copied: int, skipped: int) | CopyFailed(copied: int, skipped: int)

  /** What copyProduceRequest says of a record: whether its bytes can be reproduced. */
  type Reproducible = Record -> bool

  // --- scopes ---

  /** The options of a page: the whole range first, from the cursor afterwards. */
  function PageOptions(from: ConsumeFrom, cursor: map<Partition, int>, limit: int): ConsumeOptions {
    ConsumeOptions(limit, from, true, 0, cursor, map[])
  }

  function FirstFrom(job: CopyJob): ConsumeFrom {
    if job.timed then FromTimestamp else FromStart
  }

  predicate IsForward(from: ConsumeFrom) {
    from == FromStart || from == FromTimestamp || from == FromOffset
  }

  /** The records a copy is to reproduce, up to the end of the time range. */
  ghost function Source(log: set<Record>, offs: TopicOffsets, job: CopyJob): set<Record> {
    ScopeOf(log, PageOptions(FirstFrom(job), map[], 1), offs)
  }

  ghost function QueryRanges(opts: ConsumeOptions, offs: TopicOffsets): map<Partition, Range> {
    map p | p in offs.parts && QueryRange(opts, offs, p).start < QueryRange(opts, offs, p).end ::
      QueryRange(opts, offs, p)
  }

  /** The records a query covers. */
  ghost function ScopeOf(log: set<Record>, opts: ConsumeOptions, offs: TopicOffsets): set<Record> {
    InRanges(log, QueryRanges(opts, offs))
  }

  lemma QueryIs(opts: ConsumeOptions, offs: TopicOffsets, ranges: map<Partition, Range>)
    requires IsQuery(opts, offs, ranges)
    ensures ranges == QueryRanges(opts, offs)
  {
    hide QueryRange;
  }

  /** They are the records of the topic from the lower time bound on. */
  lemma SourceIs(log: set<Record>, offs: TopicOffsets, job: CopyJob, r: Record)
    ensures r in Source(log, offs, job) <==>
              && r in log && !r.control && r.part in offs.parts
              && (if r.part in offs.start then offs.start[r.part] else 0) <= r.off
              && r.off < (if r.part in offs.end then offs.end[r.part] else 0)
              && (r.part in offs.fromTS ==> offs.fromTS[r.part] <= r.off)
              && (r.part in offs.toTS ==> r.off < offs.toTS[r.part])
  {
    var opts := PageOptions(FirstFrom(job), map[], 1);
    QueryIsOne(opts, offs);
    QueryCovers(opts, offs, QueryRanges(opts, offs));
    hide QueryRanges, FirstFrom, PageOptions;
    ScopeCovers(log, QueryRanges(opts, offs), r);
    FirstIsForward(job);
    OptionsFrom(FirstFrom(job));
  }

  lemma ScopeCovers(log: set<Record>, ranges: map<Partition, Range>, r: Record)
    ensures r in InRanges(log, ranges) <==> r in log && !r.control && Covers(ranges, r.part, r.off)
  {
  }

  lemma OptionsFrom(from: ConsumeFrom)
    ensures PageOptions(from, map[], 1).from == from
  {
  }

  lemma FirstIsForward(job: CopyJob)
    ensures FirstFrom(job) == FromTimestamp || FirstFrom(job) == FromStart
  {
  }

  /** The options of the page after a, read from its cursor without the partitions of `done`. */
  ghost predicate Resumes(a: Page, done: set<Partition>, opts: ConsumeOptions) {
    && a.result.cursor.Some? && opts.from == FromOffset
    && opts.partitionOffsets == a.result.cursor.value - done && opts.partitionOffsets != map[]
  }

  /** The next page covers nothing page a delivered and no partition dropped; with
      ordered timestamps it covers all else page a left. */
  lemma ResumedWithout(log: set<Record>, offs: TopicOffsets, a: Page, done: set<Partition>, opts: ConsumeOptions)
    requires AreOffsetsOf(offs) && !IsBackward(a.opts) && a.opts.from != Unset && Resumes(a, done, opts)
    requires IsPage(log, offs, a.opts, a.ranges, a.result, a.polls)
    ensures ScopeOf(log, opts, offs) <= LeftWithout(log, a, done)
    ensures Ordered(Scope(log, a)) ==> ScopeOf(log, opts, offs) == LeftWithout(log, a, done)
  {
    var whole := opts.(partitionOffsets := a.result.cursor.value);
    var b := Page(whole, QueryRanges(whole, offs), a.result, a.polls);
    PageQuery(log, offs, a);
    QueryIsOne(whole, offs);
    WholeFollows(a, done, opts, b);
    hide *;
    WithoutDone(log, offs, opts, whole, done);
    ScopeIs(log, offs, whole, b);
    ResumedInside(log, offs, a, b);
    if Ordered(Scope(log, a)) {
      ForwardIsWhole(a);
      var next := ExactNext(log, offs, a);
      forall p: Partition ensures IsRemainder(a, b, next, p) {
        ResumedRange(log, offs, a, b, next, p);
      }
      RemainderIsLeft(log, a, b, next);
    }
    forall r | r in ScopeOf(log, opts, offs) ensures r in LeftWithout(log, a, done) {
      assert r in Scope(log, b) && r.part !in done;
      InLeftWithout(log, a, done, r);
    }
    forall r | r in LeftWithout(log, a, done) && Ordered(Scope(log, a)) ensures r in ScopeOf(log, opts, offs) {
      InLeftWithout(log, a, done, r);
    }
  }

  /** What a page leaves of the partitions not dropped. */
  ghost function LeftWithout(log: set<Record>, a: Page, done: set<Partition>): set<Record> {
    set r | r in Left(log, a) && r.part !in done
  }

  lemma InLeftWithout(log: set<Record>, a: Page, done: set<Partition>, r: Record)
    ensures r in LeftWithout(log, a, done) <==> r in Left(log, a) && r.part !in done
  {
    hide Left;
  }

  lemma WholeFollows(a: Page, done: set<Partition>, opts: ConsumeOptions, b: Page)
    requires Resumes(a, done, opts) && !IsBackward(a.opts) && b.opts == opts.(partitionOffsets := a.result.cursor.value)
    ensures Follows(a, b) && b.opts.from == FromOffset && b.opts.partitionOffsets != map[]
    ensures opts.partitionOffsets == b.opts.partitionOffsets - done
  {
    var p :| p in opts.partitionOffsets;
    assert p in a.result.cursor.value;
  }

  lemma ScopeIs(log: set<Record>, offs: TopicOffsets, opts: ConsumeOptions, b: Page)
    requires b.ranges == QueryRanges(opts, offs)
    ensures Scope(log, b) == ScopeOf(log, opts, offs)
  {
    hide QueryRanges;
  }

  lemma QueryIsOne(opts: ConsumeOptions, offs: TopicOffsets)
    ensures IsQuery(opts, offs, QueryRanges(opts, offs))
  {
    hide QueryRange;
  }

  lemma WithoutDone(log: set<Record>, offs: TopicOffsets, opts: ConsumeOptions, whole: ConsumeOptions,
                    done: set<Partition>)
    requires opts.from == FromOffset && whole == opts.(partitionOffsets := whole.partitionOffsets)
    requires opts.partitionOffsets == whole.partitionOffsets - done && opts.partitionOffsets != map[]
    ensures ScopeOf(log, opts, offs) == set r | r in ScopeOf(log, whole, offs) && r.part !in done
  {
    var q :| q in opts.partitionOffsets;
    assert q in whole.partitionOffsets;
    forall p: Partition ensures QueryRange(opts, offs, p) == if p in done then Range(0, 0)
      else QueryRange(whole, offs, p) {
    }
    hide QueryRange;
  }

  // --- what a copy accounts for ---

  /** Records of one partition appear in offset order. */
  ghost predicate InTurn(s: seq<Record>) {
    forall i, j :: 0 <= i < j < |s| && s[i].part == s[j].part ==> s[i].off < s[j].off
  }

  /** Of the records `all`, those in `seen` were read, each once, and none of them is still to come. */
  ghost predicate ReadsOnce(all: set<Record>, seen: seq<Record>, scope: set<Record>) {
    && NoDup(seen)
    && (forall r :: r in seen ==> r in all && r !in scope)
    && scope <= all
  }

  /** Moreover they were read in turn, and what was neither read nor is still to come
      lies past the end of the time range. */
  ghost predicate Accounts(all: set<Record>, toTS: int, seen: seq<Record>, scope: set<Record>) {
    && ReadsOnce(all, seen, scope) && InTurn(seen)
    && (forall r :: r in all && r !in seen && r !in scope ==> r.ts >= toTS)
    && (forall q, r :: q in seen && r in scope && q.part == r.part ==> q.off < r.off)
  }

  predicate Sends(rec: Record, toTS: int, ok: Reproducible) {
    rec.ts < toTS && ok(rec)
  }

  predicate Skips(rec: Record, toTS: int, ok: Reproducible) {
    rec.ts < toTS && !ok(rec)
  }

  /** The records sent of those read, in the order read. */
  function Sent(s: seq<Record>, toTS: int, ok: Reproducible): seq<Record> {
    if s == [] then []
    else Sent(s[..|s| - 1], toTS, ok) + if Sends(s[|s| - 1], toTS, ok) then [s[|s| - 1]] else []
  }

  function Skipped(s: seq<Record>, toTS: int, ok: Reproducible): nat {
    if s == [] then 0 else Skipped(s[..|s| - 1], toTS, ok) + if Skips(s[|s| - 1], toTS, ok) then 1 else 0
  }

  lemma {:induction false} SentConcat(s: seq<Record>, t: seq<Record>, toTS: int, ok: Reproducible)
    ensures Sent(s + t, toTS, ok) == Sent(s, toTS, ok) + Sent(t, toTS, ok)
    ensures Skipped(s + t, toTS, ok) == Skipped(s, toTS, ok) + Skipped(t, toTS, ok)
    decreases |t|
  {
    if t == [] {
      assert s + t == s;
    } else {
      var init := t[..|t| - 1];
      assert (s + t)[..|s + t| - 1] == s + init;
      SentConcat(s, init, toTS, ok);
    }
  }

  /** The records a complete copy sends: all reproducible ones in the time range, each
      once, those of a partition in order; the others in the range are counted. */
  ghost predicate IsCopy(all: set<Record>, toTS: int, ok: Reproducible, sent: seq<Record>, skipped: int) {
    && NoDup(sent) && InTurn(sent)
    && (forall r :: r in sent <==> r in all && r.ts < toTS && ok(r))
    && skipped == |set r | r in all && r.ts < toTS && !ok(r)|
  }

  lemma {:induction false} SentIs(s: seq<Record>, toTS: int, ok: Reproducible)
    requires NoDup(s) && InTurn(s)
    ensures var t := Sent(s, toTS, ok);
      NoDup(t) && InTurn(t) && (forall r :: r in t <==> r in s && Sends(r, toTS, ok))
    ensures Skipped(s, toTS, ok) == |set r | r in s && Skips(r, toTS, ok)|
    decreases |s|
  {
    if s == [] {
      assert (set r | r in s && Skips(r, toTS, ok)) == {};
    } else {
      var init, last := s[..|s| - 1], s[|s| - 1];
      InitIs(s);
      SentIs(init, toTS, ok);
      hide NoDup, InTurn, Sends, Skips;
      SkipsOneMore(s, init, last, toTS, ok);
      if Sends(last, toTS, ok) {
        InTurnMore(Sent(init, toTS, ok), last);
      }
    }
  }

  lemma InitIs(s: seq<Record>)
    requires NoDup(s) && InTurn(s) && s != []
    ensures
      var init, last := s[..|s| - 1], s[|s| - 1];
      && NoDup(init) && InTurn(init) && last !in init
      && (forall r :: r in s <==> r in init || r == last)
      && (forall r :: r in init && r.part == last.part ==> r.off < last.off)
  {
    var init, last := s[..|s| - 1], s[|s| - 1];
    assert s == init + [last];
    LastIsNew(s);
    forall r | r in init && r.part == last.part ensures r.off < last.off {
      var i :| 0 <= i < |init| && init[i] == r;
      assert s[i] == r;
    }
  }

  lemma SkipsOneMore(s: seq<Record>, init: seq<Record>, last: Record, toTS: int, ok: Reproducible)
    requires last !in init && forall r :: r in s <==> r in init || r == last
    ensures |set r | r in s && Skips(r, toTS, ok)| == |set r | r in init
        && Skips(r, toTS, ok)| + if Skips(last, toTS, ok) then 1 else 0
  {
    hide Skips;
    var before := set r | r in init && Skips(r, toTS, ok);
    assert (set r | r in s && Skips(r, toTS, ok)) == if Skips(last, toTS, ok) then before + {last} else before;
  }

  lemma InTurnMore(t: seq<Record>, last: Record)
    requires NoDup(t) && InTurn(t) && last !in t && forall r :: r in t && r.part == last.part ==> r.off < last.off
    ensures NoDup(t + [last]) && InTurn(t + [last])
  {
    var more := t + [last];
    forall i, j | 0 <= i < j < |more| && more[i].part == more[j].part ensures more[i].off < more[j].off {
      assert more[i] in t;
    }
  }

  lemma LastIsNew(s: seq<Record>)
    requires NoDup(s) && s != []
    ensures s[|s| - 1] !in s[..|s| - 1]
  {
  }

  /** What was sent is a complete copy iff nothing in the time range is still to come. */
  lemma AccountedIsCopy(all: set<Record>, toTS: int, ok: Reproducible, seen: seq<Record>, scope: set<Record>)
    requires Accounts(all, toTS, seen, scope)
    ensures IsCopy(all, toTS, ok, Sent(seen, toTS, ok), Skipped(seen, toTS, ok)) <==>
        forall r :: r in scope ==> r.ts >= toTS
  {
    SentIs(seen, toTS, ok);
    var skips, all_ := set r | r in seen && Skips(r, toTS, ok), set r | r in all && r.ts < toTS && !ok(r);
    hide Sent, Skipped;
    if forall r :: r in scope ==> r.ts >= toTS {
      assert all_ == skips;
    } else {
      var r :| r in scope && r.ts < toTS;
      if Skips(r, toTS, ok) {
        SubsetSize(skips + {r}, all_);
      }
    }
  }

  // --- one page ---

  lemma Nothing(all: set<Record>, toTS: int, ok: Reproducible)
    ensures Accounts(all, toTS, [], all) && ReadsOnce(all, [], all) && Sent([], toTS, ok) == []
        && Skipped([], toTS, ok) == 0
  {
  }

  /** A page is read on from where the copy is. */
  lemma PageAccounts(log: set<Record>, offs: TopicOffsets, a: Page, all: set<Record>, toTS: int, seen: seq<Record>)
    requires IsLog(log) && Ordered(log) && !IsBackward(a.opts) && a.result.messages != []
    requires IsPage(log, offs, a.opts, a.ranges, a.result, a.polls)
    requires Accounts(all, toTS, seen, Scope(log, a))
    ensures Accounts(all, toTS, seen + a.result.messages, Left(log, a))
    ensures !a.result.hasMore ==> Left(log, a) == {}
  {
    hide *;
    ScopeInLog(log, a);
    OrderedSubset(Scope(log, a), log);
    PageQuery(log, offs, a);
    var next := PageNext(log, offs, a);
    PageInTurn(log, offs, a);
    LeftBehind(log, a, next);
    LeftIs(log, a);
    AccountMore(all, toTS, seen, a.result.messages, Scope(log, a), Left(log, a));
    if !a.result.hasMore {
      ForwardIsWhole(a);
      NothingLeft(log, offs, a);
    }
  }

  /** Whatever the timestamps, a page reads nothing again, and leaves less. */
  lemma PageReadsOnce(log: set<Record>, offs: TopicOffsets, a: Page, all: set<Record>, seen: seq<Record>)
    requires IsPage(log, offs, a.opts, a.ranges, a.result, a.polls) && a.result.messages != []
    requires ReadsOnce(all, seen, Scope(log, a))
    ensures ReadsOnce(all, seen + a.result.messages, Left(log, a))
    ensures |Left(log, a)| < |Scope(log, a)|
  {
    PageQuery(log, offs, a);
    hide *;
    LeftShrinks(log, a);
    LeftIs(log, a);
    ReadsMore(all, seen, a.result.messages, Scope(log, a), Left(log, a));
  }

  lemma ReadsMore(all: set<Record>, seen: seq<Record>, page: seq<Record>, scope: set<Record>, left: set<Record>)
    requires ReadsOnce(all, seen, scope) && NoDup(page) && ToSet(page) <= scope && left == scope - ToSet(page)
    ensures ReadsOnce(all, seen + page, left)
  {
    hide NoDup;
    forall r | r in page ensures r in scope && r !in seen {
      assert r in ToSet(page);
    }
    NoDupConcat(seen, page);
  }

  lemma ForwardIsWhole(a: Page)
    requires !IsBackward(a.opts)
    ensures IsWhole(a)
  {
  }

  lemma ScopeInLog(log: set<Record>, a: Page)
    ensures Scope(log, a) <= log
  {
  }

  lemma PageNext(log: set<Record>, offs: TopicOffsets, a: Page) returns (next: map<Partition, int>)
    requires IsPage(log, offs, a.opts, a.ranges, a.result, a.polls) && Ordered(Scope(log, a)) && !IsBackward(a.opts)
    requires a.result.messages != []
    ensures AreCursors(a.ranges, next) && ToSet(a.result.messages) == SearchState.Behind(log, a.ranges, false, next)
  {
    hide IsQuery, Ordered, CarriesOver, FirstOf, SortedBefore;
    next :| IsExactPage(log, a.ranges, a.opts, a.result, next);
  }

  /** A page lists the records of a partition in offset order. */
  lemma PageInTurn(log: set<Record>, offs: TopicOffsets, a: Page)
    requires IsLog(log) && Ordered(log) && !IsBackward(a.opts)
    requires IsPage(log, offs, a.opts, a.ranges, a.result, a.polls)
    ensures InTurn(a.result.messages)
  {
    hide IsQuery, IsExactPage, FirstOf;
    var s := a.result.messages;
    assert SortedBefore(s, false);
    forall i, j | 0 <= i < j < |s| && s[i].part == s[j].part ensures s[i].off < s[j].off {
      assert s[i] in ToSet(s) && s[j] in ToSet(s);
      assert Before(s[i], s[j], false);
    }
  }

  lemma LeftBehind(log: set<Record>, a: Page, next: map<Partition, int>)
    requires AreCursors(a.ranges, next) && ToSet(a.result.messages) == SearchState.Behind(log, a.ranges, false, next)
    ensures forall q, r :: q in a.result.messages && r in Left(log, a) && q.part == r.part ==> q.off < r.off
  {
    forall q, r | q in a.result.messages && r in Left(log, a) && q.part == r.part ensures q.off < r.off {
      assert q in ToSet(a.result.messages);
      assert r !in ToSet(a.result.messages);
    }
  }

  lemma AccountMore(all: set<Record>, toTS: int, seen: seq<Record>, page: seq<Record>, scope: set<Record>,
                    left: set<Record>)
    requires Accounts(all, toTS, seen, scope) && NoDup(page) && InTurn(page) && ToSet(page) <= scope
        && left == scope - ToSet(page)
    requires forall q, r :: q in page && r in left && q.part == r.part ==> q.off < r.off
    ensures Accounts(all, toTS, seen + page, left)
  {
    forall r | r in page ensures r in scope && r !in seen {
      assert r in ToSet(page);
    }
    NoDupConcat(seen, page);
    var more := seen + page;
    forall i, j | 0 <= i < j < |more| && more[i].part == more[j].part ensures more[i].off < more[j].off {
      assert i < |seen| ==> more[i] in seen;
      assert j >= |seen| ==> more[j] in page;
    }
  }

  /** Every partition of `done` has shown a record at or past the end of the time range. */
  ghost predicate AreDone(seen: seq<Record>, toTS: int, done: set<Partition>) {
    forall p :: p in done ==> exists m :: m in seen && m.part == p && m.ts >= toTS
  }

  /** With ordered timestamps, dropping them loses nothing in the range. */
  lemma DropDone(log: set<Record>, all: set<Record>, toTS: int, seen: seq<Record>, scope: set<Record>,
                 done: set<Partition>)
    requires Ordered(log) && all <= log && Accounts(all, toTS, seen, scope) && AreDone(seen, toTS, done)
    ensures Accounts(all, toTS, seen, set r | r in scope && r.part !in done)
  {
    forall r | r in scope && r.part in done ensures r.ts >= toTS {
      var m :| m in seen && m.part == r.part && m.ts >= toTS;
      assert m in log && r in log && m.off < r.off;
    }
  }

  lemma SameQuery(offs: TopicOffsets, from: ConsumeFrom, cursor: map<Partition, int>, limit: int)
    ensures QueryRanges(PageOptions(from, cursor, limit), offs) == QueryRanges(PageOptions(from, cursor, 1), offs)
  {
    forall p: Partition ensures QueryRange(PageOptions(from, cursor, limit), offs, p) ==
      QueryRange(PageOptions(from, cursor, 1), offs, p) {
    }
    hide QueryRange;
  }

  /** With ordered timestamps only a disturbed read finds nothing where there is something. */
  lemma EmptyIsDisturbed(log: set<Record>, offs: TopicOffsets, a: Page)
    requires IsPage(log, offs, a.opts, a.ranges, a.result, a.polls) && !IsBackward(a.opts)
    requires Ordered(log) && a.result.messages == [] && Scope(log, a) != {}
    ensures Disturbed(a.polls, 2)
  {
    ScopeInLog(log, a);
    OrderedSubset(Scope(log, a), log);
    hide Scope, IsQuery, Ordered, Disturbed, IsExactPage, IsCursorOf, IsOfTails, FirstOf, SortedBefore;
    EmptyFirst(Scope(log, a), a.opts.limit, false);
  }

  lemma EmptyFirst(all: set<Record>, limit: int, newestFirst: bool)
    ensures limit > 0 && FirstOf([], all, limit, newestFirst) ==> all == {}
  {
  }

  lemma NextScope(log: set<Record>, offs: TopicOffsets, a: Page, done: set<Partition>, cursor: map<Partition, int>)
    requires IsPage(log, offs, a.opts, a.ranges, a.result, a.polls) && AreOffsetsOf(offs)
    requires !IsBackward(a.opts) && a.opts.from != Unset
    requires a.result.cursor.Some? && cursor == a.result.cursor.value - done && cursor != map[]
    ensures ScopeOf(log, PageOptions(FromOffset, cursor, 1), offs) <= Left(log, a)
    ensures Ordered(log) ==>
        ScopeOf(log, PageOptions(FromOffset, cursor, 1), offs) == set r | r in Left(log, a) && r.part !in done
    ensures IsForward(FromOffset)
  {
    hide IsPage, ScopeOf, Ordered, Left;
    ScopeInLog(log, a);
    if Ordered(log) {
      OrderedSubset(Scope(log, a), log);
    }
    ResumedWithout(log, offs, a, done, PageOptions(FromOffset, cursor, 1));
  }

  /** When every partition of the cursor is dropped, nothing is left but what lies past the range. */
  lemma AllDone(log: set<Record>, offs: TopicOffsets, a: Page, done: set<Partition>)
    requires IsPage(log, offs, a.opts, a.ranges, a.result, a.polls) && Ordered(log) && !IsBackward(a.opts)
    requires a.result.cursor.Some? && a.result.cursor.value - done == map[]
    ensures (set r | r in Left(log, a) && r.part !in done) == {}
  {
    ScopeInLog(log, a);
    OrderedSubset(Scope(log, a), log);
    var next := ExactNext(log, offs, a);
    hide IsPage, IsExactPage, Ordered;
    forall r | r in Left(log, a) ensures r.part in done {
      assert r.part in next && r.part in a.result.cursor.value;
      assert r.part !in a.result.cursor.value - done;
    }
  }
}
