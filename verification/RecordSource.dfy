/** Reading offset ranges of a topic from an unpredictable broker:
    internal/kafka/record_source.go. */
module RecordSource {
  import opened Records

  datatype ScanCursor = ScanCursor(lower: int, upper: int, pos: int, done: bool, forced: bool)

  /** A chunk a poll finished; `forced` when the reader gave up on it. */
  datatype FinishedChunk = FinishedChunk(lower: int, forced: bool)

  /** What one poll of a scan produced. Partitions are reported in no particular order. */
  datatype RecordBatch = RecordBatch(
    records: seq<Record>,
    drained: set<Partition>,
    ended: set<Partition>,
    chunks: map<Partition, FinishedChunk>)

  datatype PollError = DeadlineExceeded | Canceled | FetchFailed

  datatype PollResult = Fetched(records: seq<Record>) | PollFailed(error: PollError)

  datatype ScanEvent = Yield(batch: RecordBatch) | ScanFailed(error: PollError)

  /** What a fetch from the positions `next` may return, moving them to `after`:
      the records of each partition come in offset order and without a gap;
      how far each partition gets is arbitrary. */
  predicate FetchOf(log: set<Record>, next: map<Partition, int>, records: seq<Record>, after: map<Partition, int>) {
    && after.Keys == next.Keys
    && (forall p | p in next :: next[p] <= after[p])
    && (forall p | p in next :: after[p] == next[p] || exists r | r in records :: r.part == p && r.off == after[p] - 1)
    && (forall r | r in records :: r in log && r.part in next && next[r.part] <= r.off < after[r.part])
    && (forall r | r in log :: r.part in next && next[r.part] <= r.off < after[r.part] ==> r in records)
    && InOrder(records)
  }

  /** The broker and the answers it gave to all polls so far. */
  class Broker {
    const log: set<Record>
    ghost var polls: seq<PollResult>

    constructor (log: set<Record>)
      ensures this.log == log && polls == []
    {
      this.log := log;
      polls := [];
    }
  }

  /** n polls in a row, from i on, returned no record. */
  ghost predicate EmptyAt(polls: seq<PollResult>, i: nat, n: nat) {
    i + n <= |polls| && forall j :: i <= j < i + n ==> polls[j] == Fetched([])
  }

  /** At some point n polls in a row returned no record. */
  ghost predicate EmptyRun(polls: seq<PollResult>, n: nat) {
    exists i: nat :: EmptyAt(polls, i, n)
  }

  ghost predicate SomeFailed(polls: seq<PollResult>) {
    exists i :: 0 <= i < |polls| && polls[i].PollFailed?
  }

  /** The consumer client of one scan: `next` is the fetch position of every
      partition it consumes. */
  class FetchClient {
    const broker: Broker
    const log: set<Record>
    var next: map<Partition, int>

    constructor (broker: Broker, next: map<Partition, int>)
      ensures this.broker == broker && log == broker.log && this.next == next
    {
      this.broker := broker;
      this.log := broker.log;
      this.next := next;
    }

    method PollFetches() returns (res: PollResult)
      modifies this, broker
      ensures broker.polls == old(broker.polls) + [res]
      ensures res.Fetched? ==> FetchOf(log, old(next), res.records, next)
      ensures res.PollFailed? ==> next == old(next)
    {
      var fails: bool := *;
      if fails {
        var e: PollError := *;
        res := PollFailed(e);
      } else {
        assert FetchOf(log, next, [], next);
        var records: seq<Record>, after: map<Partition, int> :| FetchOf(log, next, records, after);
        next := after;
        res := Fetched(records);
      }
      broker.polls := broker.polls + [res];
    }

    method RemoveConsumePartitions(parts: set<Partition>)
      modifies this
      ensures next == old(next) - parts
    {
      next := next - parts;
    }

    method AddConsumePartitions(offsets: map<Partition, int>)
      modifies this
      ensures next == old(next) + offsets
    {
      next := next + offsets;
    }
  }

  ghost predicate ValidRanges(ranges: map<Partition, Range>) {
    forall p :: p in ranges ==> ranges[p].start < ranges[p].end
  }

  /** The last chunk of a range, or a forced chunk of a backward walk. */
  predicate IsLast(c: ScanCursor, chunk: nat) {
    c.pos <= c.lower || (chunk > 0 && c.forced)
  }

  /** Records of p seen so far in c's chunk are those in [c.pos, SeenUpTo). */
  function SeenUpTo(c: ScanCursor, next: int): int {
    Min(c.upper, next)
  }

  /** The cursor after advance, when its partition is not dropped. */
  function Advanced(c: ScanCursor, chunk: nat): ScanCursor {
    if c.done then c.(done := false, upper := c.pos, pos := Max(c.lower, c.pos - chunk)) else c
  }

  /** The last offset below `upper`, or a later one, of partition p is among `records`. */
  ghost predicate SawEnd(records: seq<Record>, p: Partition, lower: int, upper: int) {
    exists r :: r in records && r.part == p && r.off >= lower && r.off >= upper - 1
  }

  lemma SawEndAppend(records: seq<Record>, r: Record, p: Partition, lower: int, upper: int)
    ensures SawEnd(records + [r], p, lower, upper) ==
            (SawEnd(records, p, lower, upper) || (r.part == p && r.off >= lower && r.off >= upper - 1))
  {
    assert r in records + [r];
    if SawEnd(records, p, lower, upper) {
      var q :| q in records && q.part == p && q.off >= lower && q.off >= upper - 1;
      assert q in records + [r];
    }
  }

  ghost function Marked(c: ScanCursor, records: seq<Record>, p: Partition): ScanCursor {
    c.(done := c.done || SawEnd(records, p, c.lower, c.upper))
  }

  ghost predicate InChunk(r: Record, cursors: map<Partition, ScanCursor>) {
    r.part in cursors && !r.control && cursors[r.part].lower <= r.off < cursors[r.part].upper
  }

  predicate InOrder(records: seq<Record>) {
    forall i, j | 0 <= i < j < |records| :: records[i].part == records[j].part ==> records[i].off < records[j].off
  }

  /** Cursors after the records of a fetch marked the chunks they end. */
  ghost predicate MarkedBy(c0: map<Partition, ScanCursor>, records: seq<Record>, cursors: map<Partition, ScanCursor>) {
    cursors.Keys == c0.Keys && forall p :: p in cursors ==> cursors[p] == Marked(c0[p], records, p)
  }

  /** The records of a fetch inside their partition's chunk, in their order. */
  ghost predicate PickedFrom(c0: map<Partition, ScanCursor>, records: seq<Record>, batch: seq<Record>) {
    && InOrder(batch)
    && (forall r :: r in batch <==> r in records && InChunk(r, c0))
  }

  lemma MarkStep(c0: map<Partition, ScanCursor>, fetched: seq<Record>, i: nat, cursors: map<Partition, ScanCursor>)
    requires i < |fetched| && MarkedBy(c0, fetched[..i], cursors)
    ensures MarkedBy(c0, fetched[..i + 1],
              var rec := fetched[i];
              if rec.part in cursors && rec.off >= cursors[rec.part].lower && rec.off >= cursors[rec.part].upper - 1
              then cursors[rec.part := cursors[rec.part].(done := true)] else cursors)
  {
    assert fetched[..i + 1] == fetched[..i] + [fetched[i]];
    forall p | p in c0 {
      SawEndAppend(fetched[..i], fetched[i], p, c0[p].lower, c0[p].upper);
    }
  }

  lemma PickStep(c0: map<Partition, ScanCursor>, fetched: seq<Record>, i: nat, batch: seq<Record>)
    requires i < |fetched| && InOrder(fetched) && PickedFrom(c0, fetched[..i], batch)
    ensures PickedFrom(c0, fetched[..i + 1], if InChunk(fetched[i], c0) then batch + [fetched[i]] else batch)
  {
    assert fetched[..i + 1] == fetched[..i] + [fetched[i]];
    forall r | r in batch && r.part == fetched[i].part ensures r.off < fetched[i].off {
      assert r in fetched[..i];
    }
  }

  /** Cursors after a poll: done marks the chunks whose last offset, or a
      later one, was seen, forced the ones given up. */
  ghost predicate Polled(before: map<Partition, ScanCursor>, cursors: map<Partition, ScanCursor>,
                         next: map<Partition, int>) {
    && cursors.Keys == before.Keys
    && cursors.Keys <= next.Keys
    && (forall p :: p in cursors ==>
          var c := cursors[p];
          && c == before[p].(done := c.done, forced := c.forced)
          && c.pos <= next[p]
          && (next[p] >= c.upper ==> c.done && !c.forced)
          && (next[p] < c.upper ==> c.done == c.forced))
  }

  ghost predicate IsDrained(cursors: map<Partition, ScanCursor>, chunk: nat, drained: set<Partition>) {
    forall p :: p in drained <==> p in cursors && Dropped(cursors[p], chunk)
  }

  ghost predicate IsEnded(cursors: map<Partition, ScanCursor>, chunk: nat, ended: set<Partition>) {
    forall p :: p in ended <==> p in cursors && Dropped(cursors[p], chunk) && !cursors[p].forced
  }

  ghost predicate IsFinished(cursors: map<Partition, ScanCursor>, chunks: map<Partition, FinishedChunk>) {
    && (forall p :: p in chunks <==> p in cursors && cursors[p].done)
    && (forall p :: p in chunks ==> chunks[p] == FinishedChunk(cursors[p].pos, cursors[p].forced))
  }

  /** `records` are exactly the shown records of the current chunks between the
      old and the new fetch positions. */
  ghost predicate RecordsOf(log: set<Record>, cursors: map<Partition, ScanCursor>,
                            next0: map<Partition, int>, next: map<Partition, int>, records: seq<Record>)
  {
    && cursors.Keys <= next0.Keys && next0.Keys == next.Keys
    && (forall p :: p in next ==> next0[p] <= next[p])
    && InOrder(records)
    && (forall r :: r in records <==>
          && r in log && !r.control && r.part in cursors
          && next0[r.part] <= r.off < SeenUpTo(cursors[r.part], next[r.part]))
  }

  /** What the batch of a poll holds. */
  ghost predicate BatchOf(log: set<Record>, chunk: nat, cursors: map<Partition, ScanCursor>,
                          next0: map<Partition, int>, next: map<Partition, int>, batch: RecordBatch)
  {
    && RecordsOf(log, cursors, next0, next, batch.records)
    && IsDrained(cursors, chunk, batch.drained)
    && IsEnded(cursors, chunk, batch.ended)
    && IsFinished(cursors, batch.chunks)
  }

  /** The records still ahead of the fetch positions. */
  ghost function Unfetched(log: set<Record>, next: map<Partition, int>): set<Record> {
    set r | r in log && r.part in next && next[r.part] <= r.off
  }

  lemma FetchProgress(log: set<Record>, next: map<Partition, int>, fetched: seq<Record>, after: map<Partition, int>)
    requires FetchOf(log, next, fetched, after)
    ensures if fetched == [] then after == next else Unfetched(log, after) < Unfetched(log, next)
  {
    if fetched != [] {
      assert fetched[0] in fetched;
      assert fetched[0] in Unfetched(log, next) && fetched[0] !in Unfetched(log, after);
    }
  }

  /** Every cursor of `cursors` reads its chunk, from below its end. */
  ghost predicate Reading(cursors: map<Partition, ScanCursor>, next: map<Partition, int>) {
    && cursors.Keys <= next.Keys
    && forall p :: p in cursors ==>
         var c := cursors[p];
         c.lower <= c.pos <= next[p] < c.upper && !c.done && !c.forced
  }

  lemma PolledByFetch(log: set<Record>, c0: map<Partition, ScanCursor>, next: map<Partition, int>, fetched: seq<Record>,
                      after: map<Partition, int>, c1: map<Partition, ScanCursor>, force: bool,
                        c2: map<Partition, ScanCursor>)
    requires FetchOf(log, next, fetched, after) && Reading(c0, next) && MarkedBy(c0, fetched, c1)
    requires if force then IsForced(c1, c2) else c2 == c1
    ensures Polled(c0, c2, after)
  {
    forall p | p in c0
      ensures SawEnd(fetched, p, c0[p].lower, c0[p].upper) <==> after[p] >= c0[p].upper
    {
      if after[p] >= c0[p].upper {
        var r :| r in fetched && r.part == p && r.off == after[p] - 1;
      }
    }
  }

  /** Cursors after forceDone. */
  ghost predicate IsForced(c1: map<Partition, ScanCursor>, c2: map<Partition, ScanCursor>) {
    && c2.Keys == c1.Keys
    && forall p :: p in c1 ==> c2[p] == if c1[p].done then c1[p] else c1[p].(done := true, forced := true)
  }

  lemma PickedByFetch(log: set<Record>, c0: map<Partition, ScanCursor>, next: map<Partition, int>, fetched: seq<Record>,
                      after: map<Partition, int>, cursors: map<Partition, ScanCursor>, batch: seq<Record>)
    requires FetchOf(log, next, fetched, after) && Reading(c0, next) && PickedFrom(c0, fetched, batch)
    requires Polled(c0, cursors, after)
    ensures RecordsOf(log, cursors, next, after, batch)
  {
  }

  /** A poll ends a chunk, fetches a record, or spends one more of the few empty polls. */
  ghost predicate PollProgress(log: set<Record>, cursors: map<Partition, ScanCursor>,
                               next0: map<Partition, int>, next: map<Partition, int>,
                               empty0: nat, empty1: nat, drainAfter: nat)
  {
    || (exists p :: p in cursors && cursors[p].done)
    || cursors.Keys == {}
    || Unfetched(log, next) < Unfetched(log, next0)
    || (next == next0 && empty0 < empty1 < drainAfter)
  }

  /** Between polls every cursor is inside its range, below its chunk's end. */
  ghost predicate IdleAt(ranges: map<Partition, Range>, chunk: nat, drainAfter: nat,
                         cursors: map<Partition, ScanCursor>, next: map<Partition, int>)
  {
    && ValidRanges(ranges) && drainAfter > 0
    && cursors.Keys <= ranges.Keys
    && Reading(cursors, next)
    && (forall p :: p in cursors ==>
          var c := cursors[p];
          && c.lower == ranges[p].start && c.upper <= ranges[p].end
          && (chunk == 0 ==> c.pos == c.lower && c.upper == ranges[p].end)
          && (chunk > 0 ==> c.upper - c.pos <= chunk))
  }

  /** The last `empty` polls since the first `begin` ones returned no record. */
  ghost predicate CountedBy(polls: seq<PollResult>, begin: nat, empty: nat) {
    begin <= |polls| && empty <= |polls[begin..]| && EmptyAt(polls[begin..], |polls[begin..]| - empty, empty)
  }

  /** Since the first `begin` polls n in a row returned no record. */
  ghost predicate EmptySince(polls: seq<PollResult>, begin: nat, n: nat) {
    begin <= |polls| && EmptyRun(polls[begin..], n)
  }

  lemma CountedBegin(polls: seq<PollResult>, begin: nat, empty: nat)
    requires CountedBy(polls, begin, empty)
    ensures begin <= |polls|
  {
  }

  lemma SinceIs(polls: seq<PollResult>, begin: nat, n: nat)
    requires begin <= |polls|
    ensures EmptySince(polls, begin, n) <==> EmptyRun(polls[begin..], n)
  {
    hide EmptyRun;
  }

  lemma NoPollYet(polls: seq<PollResult>)
    ensures CountedBy(polls, |polls|, 0)
  {
  }

  lemma OnePollMore(polls0: seq<PollResult>, begin: nat, empty0: nat, res: PollResult, polls: seq<PollResult>,
                    empty: nat, drainAfter: nat)
    requires polls == polls0 + [res] && res.Fetched? && empty == if res.records != [] then 0 else empty0 + 1
    ensures polls0 <= polls
    ensures CountedBy(polls0, begin, empty0) ==> CountedBy(polls, begin, empty)
    ensures CountedBy(polls0, begin, empty0) && empty >= drainAfter ==> EmptySince(polls, begin, drainAfter)
  {
    if CountedBy(polls0, begin, empty0) {
      assert polls[begin..] == polls0[begin..] + [res];
      if empty >= drainAfter {
        assert EmptyAt(polls[begin..], |polls[begin..]| - drainAfter, drainAfter);
      }
    }
  }

  lemma LastFailed(polls0: seq<PollResult>, res: PollResult)
    requires res.PollFailed?
    ensures polls0 <= polls0 + [res] && SomeFailed((polls0 + [res])[|polls0|..])
  {
    assert (polls0 + [res])[|polls0|..] == [res];
    assert [res][0].PollFailed?;
  }

  lemma FetchedInOrder(log: set<Record>, next: map<Partition, int>, records: seq<Record>, after: map<Partition, int>)
    requires FetchOf(log, next, records, after)
    ensures InOrder(records)
  {
  }

  lemma NoneForced(c0: map<Partition, ScanCursor>, next: map<Partition, int>, records: seq<Record>,
                   c1: map<Partition, ScanCursor>)
    requires Reading(c0, next) && MarkedBy(c0, records, c1)
    ensures !Forces(c1)
  {
  }

  lemma EmptyRunStays(polls: seq<PollResult>, more: seq<PollResult>, n: nat)
    requires polls <= more && EmptyRun(polls, n)
    ensures EmptyRun(more, n)
  {
    var i: nat :| EmptyAt(polls, i, n);
    assert EmptyAt(more, i, n);
  }

  /** A chunk was given up. */
  ghost predicate Forces(cursors: map<Partition, ScanCursor>) {
    exists p :: p in cursors && cursors[p].forced
  }

  class RecordScan {
    const ranges: map<Partition, Range>
    const chunk: nat
    const drainAfter: nat
    const client: FetchClient
    var cursors: map<Partition, ScanCursor>
    var emptyPolls: nat
    /** How many polls the broker had answered when the scan began. */
    ghost const begin: nat

    constructor (broker: Broker, ranges: map<Partition, Range>, chunk: nat, drainAfter: nat)
      requires ValidRanges(ranges) && drainAfter > 0
      ensures Idle() && fresh(client) && client.broker == broker && begin == |broker.polls| && emptyPolls == 0
      ensures client.log == broker.log && this.ranges == ranges && this.chunk == chunk && this.drainAfter == drainAfter
      ensures cursors.Keys == ranges.Keys
      ensures forall p :: p in ranges ==> cursors[p].upper == ranges[p].end
      ensures forall p :: p in ranges ==> p in client.next && client.next[p] == cursors[p].pos
      ensures forall p :: p in ranges ==>
                cursors[p].pos == if chunk > 0 then Max(ranges[p].start, ranges[p].end - chunk) else ranges[p].start
    {
      var starts := map p | p in ranges ::
        ScanCursor(ranges[p].start, ranges[p].end,
                   if chunk > 0 then Max(ranges[p].start, ranges[p].end - chunk) else ranges[p].start, false, false);
      this.ranges := ranges;
      this.chunk := chunk;
      this.drainAfter := drainAfter;
      this.client := new FetchClient(broker, map p | p in starts :: starts[p].pos);
      this.cursors := starts;
      this.emptyPolls := 0;
      this.begin := |broker.polls|;
    }

    /** Between polls every cursor is inside its range, below its chunk's end. */
    ghost predicate Idle()
      reads this, client
    {
      IdleAt(ranges, chunk, drainAfter, cursors, client.next)
    }

    /** One round of scanRecords up to the yield. An empty batch is not yielded
        by the source; the caller then goes on at Advance. */
    method Poll() returns (ev: ScanEvent)
      requires Idle()
      modifies this, client, client.broker
      ensures ev.Yield? && old(CountedBy(client.broker.polls, begin, emptyPolls)) ==>
          CountedBy(client.broker.polls, begin, emptyPolls)
      ensures old(client.broker.polls) <= client.broker.polls
      // Chunks are only given up after drainAfter empty polls in a row.
      ensures Forces(cursors) && old(CountedBy(client.broker.polls, begin, emptyPolls)) ==>
          EmptySince(client.broker.polls, begin, drainAfter)
      ensures ev.ScanFailed? ==> SomeFailed(client.broker.polls[|old(client.broker.polls)|..])
      ensures ev.ScanFailed? ==> Idle() && cursors == old(cursors) && client.next == old(client.next)
      ensures ev.Yield? ==> Polled(old(cursors), cursors, client.next)
      ensures ev.Yield? ==> BatchOf(client.log, chunk, cursors, old(client.next), client.next, ev.batch)
      // Progress: a chunk ends, a record is fetched, or one more of the few empty polls is spent.
      ensures ev.Yield? ==> PollProgress(client.log, cursors, old(client.next), client.next,
                                         old(emptyPolls), emptyPolls, drainAfter)
    {
      var res, records := FetchChunks();
      if res.PollFailed? {
        return ScanFailed(res.error);
      }
      var drained := Exhausted();
      var ended := ReadToEnd(drained);
      var chunks := Finished();
      ev := Yield(RecordBatch(records, drained, ended, chunks));
    }

    method FetchChunks() returns (res: PollResult, records: seq<Record>)
      requires Idle()
      modifies this, client, client.broker
      ensures res.Fetched? && old(CountedBy(client.broker.polls, begin, emptyPolls)) ==>
          CountedBy(client.broker.polls, begin, emptyPolls)
      ensures old(client.broker.polls) <= client.broker.polls
      // Chunks are only given up after drainAfter empty polls in a row.
      ensures Forces(cursors) && old(CountedBy(client.broker.polls, begin, emptyPolls)) ==>
          EmptySince(client.broker.polls, begin, drainAfter)
      ensures res.PollFailed? ==> SomeFailed(client.broker.polls[|old(client.broker.polls)|..])
      ensures res.PollFailed? ==> Idle() && cursors == old(cursors) && client.next == old(client.next)
      ensures res.Fetched? ==> Polled(old(cursors), cursors, client.next)
      ensures res.Fetched? ==> RecordsOf(client.log, cursors, old(client.next), client.next, records)
      ensures res.Fetched? ==> PollProgress(client.log, cursors, old(client.next), client.next,
                                            old(emptyPolls), emptyPolls, drainAfter)
    {
      hide *;
      ghost var c0, next0 := cursors, client.next;
      ghost var polls0, empty0 := client.broker.polls, emptyPolls;
      IdleReads();
      records := [];
      res := client.PollFetches();
      if res.PollFailed? {
        LastFailed(polls0, res);
        IdleAgain(c0, next0);
        return;
      }
      FetchedInOrder(client.log, next0, res.records, client.next);
      records := InRange(res.records);
      ghost var c1 := cursors;
      NoneForced(c0, next0, res.records, c1);
      emptyPolls := if res.records != [] then 0 else emptyPolls + 1;
      if emptyPolls >= drainAfter {
        ForceDone();
        PolledByFetch(client.log, c0, next0, res.records, client.next, c1, true, cursors);
      } else {
        PolledByFetch(client.log, c0, next0, res.records, client.next, c1, false, c1);
      }
      PickedByFetch(client.log, c0, next0, res.records, client.next, cursors, records);
      FetchProgress(client.log, next0, res.records, client.next);
      OnePollMore(polls0, begin, empty0, res, client.broker.polls, emptyPolls, drainAfter);
      HasProgress(res.records, c1, next0, empty0);
    }

    lemma IdleReads()
      requires Idle()
      ensures !Forces(cursors)
      ensures Reading(cursors, client.next) && IdleAt(ranges, chunk, drainAfter, cursors, client.next)
    {
    }

    lemma IdleAgain(c0: map<Partition, ScanCursor>, next0: map<Partition, int>)
      requires IdleAt(ranges, chunk, drainAfter, c0, next0) && cursors == c0 && client.next == next0
      ensures Idle()
    {
      hide IdleAt;
    }

    lemma HasProgress(fetched: seq<Record>, c1: map<Partition, ScanCursor>, next0: map<Partition, int>, empty0: nat)
      requires if emptyPolls >= drainAfter then IsForced(c1, cursors) else cursors == c1
      requires emptyPolls == if fetched != [] then 0 else empty0 + 1
      requires if fetched == [] then client.next == next0
          else Unfetched(client.log, client.next) < Unfetched(client.log, next0)
      ensures PollProgress(client.log, cursors, next0, client.next, empty0, emptyPolls, drainAfter)
    {
      hide Unfetched;
      if emptyPolls >= drainAfter && cursors.Keys != {} {
        var p :| p in cursors;
        assert p in c1;
      }
    }

    /** Picks the records inside their partition's chunk and marks a chunk done
        once its last offset, or a later one, shows up. */
    method InRange(fetched: seq<Record>) returns (batch: seq<Record>)
      requires InOrder(fetched)
      modifies this`cursors
      ensures MarkedBy(old(cursors), fetched, cursors)
      ensures PickedFrom(old(cursors), fetched, batch)
    {
      batch := [];
      var i := 0;
      ghost var c0 := cursors;
      while i < |fetched|
        invariant 0 <= i <= |fetched|
        invariant MarkedBy(c0, fetched[..i], cursors)
        invariant PickedFrom(c0, fetched[..i], batch)
      {
        var rec := fetched[i];
        MarkStep(c0, fetched, i, cursors);
        PickStep(c0, fetched, i, batch);
        if rec.part in cursors && rec.off >= cursors[rec.part].lower {
          var c := cursors[rec.part];
          if rec.off >= c.upper - 1 {
            cursors := cursors[rec.part := c.(done := true)];
          }
          if rec.off < c.upper && !rec.control {
            batch := batch + [rec];
          }
        }
        i := i + 1;
      }
      assert fetched[..i] == fetched;
    }

    method ForceDone()
      modifies this`cursors
      ensures IsForced(old(cursors), cursors)
    {
      var todo := cursors.Keys;
      while todo != {}
        invariant todo <= cursors.Keys == old(cursors).Keys
        invariant forall p :: p in cursors ==>
          var c := old(cursors)[p];
          cursors[p] == if c.done || p in todo then c else c.(done := true, forced := true)
      {
        var p :| p in todo;
        todo := todo - {p};
        if !cursors[p].done {
          cursors := cursors[p := cursors[p].(done := true, forced := true)];
        }
      }
    }

    method Exhausted() returns (out: set<Partition>)
      ensures IsDrained(cursors, chunk, out)
    {
      out := {};
      var todo := cursors.Keys;
      while todo != {}
        invariant todo <= cursors.Keys
        invariant forall p :: p in out <==> p in cursors && p !in todo && Dropped(cursors[p], chunk)
      {
        var p :| p in todo;
        todo := todo - {p};
        if cursors[p].done && IsLast(cursors[p], chunk) {
          out := out + {p};
        }
      }
    }

    method ReadToEnd(drained: set<Partition>) returns (out: set<Partition>)
      requires IsDrained(cursors, chunk, drained)
      ensures IsEnded(cursors, chunk, out)
    {
      out := {};
      var todo := drained;
      while todo != {}
        invariant todo <= drained
        invariant forall p :: p in out <==> p in drained && p !in todo && !cursors[p].forced
      {
        var p :| p in todo;
        todo := todo - {p};
        if !cursors[p].forced {
          out := out + {p};
        }
      }
    }

    method Finished() returns (out: map<Partition, FinishedChunk>)
      ensures IsFinished(cursors, out)
    {
      out := map[];
      var todo := cursors.Keys;
      while todo != {}
        invariant todo <= cursors.Keys
        invariant forall p :: p in out <==> p in cursors && p !in todo && cursors[p].done
        invariant forall p :: p in out ==> out[p] == FinishedChunk(cursors[p].pos, cursors[p].forced)
      {
        var p :| p in todo;
        todo := todo - {p};
        if cursors[p].done {
          out := out[p := FinishedChunk(cursors[p].pos, cursors[p].forced)];
        }
      }
    }

    /** Moves every done partition to its next chunk, or drops it. */
    method Advance(ghost before: map<Partition, ScanCursor>, ghost next0: map<Partition, int>)
      requires IdleAt(ranges, chunk, drainAfter, before, next0) && Polled(before, cursors, client.next)
      modifies this`cursors, client
      ensures Idle()
      ensures AdvancedFrom(chunk, old(cursors), old(client.next), cursors, client.next)
    {
      ghost var c0 := cursors;
      var reseek, next := NextChunks();
      if reseek != {} {
        client.RemoveConsumePartitions(reseek);
      }
      if next != map[] {
        client.AddConsumePartitions(next);
      }
      SoughtTo(ranges, chunk, drainAfter, before, next0, c0, old(client.next), cursors, reseek, next, client.next);
    }

    /** The loop of advance: drops or moves the cursors and collects the seeks. */
    method NextChunks() returns (reseek: set<Partition>, next: map<Partition, int>)
      modifies this`cursors
      ensures AdvancedSoFar(chunk, old(cursors), {}, cursors, reseek, next)
    {
      reseek, next := {}, map[];
      var todo := cursors.Keys;
      ghost var c0 := cursors;
      while todo != {}
        invariant AdvancedSoFar(chunk, c0, todo, cursors, reseek, next)
      {
        var p :| p in todo;
        AdvanceStep(chunk, c0, todo, cursors, reseek, next, p);
        todo := todo - {p};
        var c := cursors[p];
        if c.done {
          if chunk > 0 {
            reseek := reseek + {p};
          }
          if IsLast(c, chunk) {
            cursors := cursors - {p};
          } else {
            cursors := cursors[p := Advanced(c, chunk)];
            next := next[p := Max(c.lower, c.pos - chunk)];
          }
        }
      }
    }
  }

  /** The state of advance's loop when the partitions of `todo` are left. */
  ghost predicate AdvancedSoFar(chunk: nat, c0: map<Partition, ScanCursor>, todo: set<Partition>,
                                cursors: map<Partition, ScanCursor>, reseek: set<Partition>, next: map<Partition, int>)
  {
    && (forall p :: p in todo ==> p in c0)
    && (forall p :: p in cursors <==> p in c0 && (p in todo || !Dropped(c0[p], chunk)))
    && (forall p :: p in cursors ==> cursors[p] == if p in todo then c0[p] else Advanced(c0[p], chunk))
    && (forall p :: p in reseek <==> p in c0 && p !in todo && c0[p].done && chunk > 0)
    && (forall p :: p in next <==> p in c0 && p !in todo && c0[p].done && !IsLast(c0[p], chunk))
    && (forall p :: p in next ==> next[p] == Advanced(c0[p], chunk).pos)
  }

  lemma AdvanceStep(chunk: nat, c0: map<Partition, ScanCursor>, todo: set<Partition>,
                    cursors: map<Partition, ScanCursor>, reseek: set<Partition>, next: map<Partition, int>,
                      p: Partition)
    requires AdvancedSoFar(chunk, c0, todo, cursors, reseek, next) && p in todo
    ensures p in cursors
    ensures
      var c := cursors[p];
      AdvancedSoFar(chunk, c0, todo - {p},
        if !c.done then cursors else if IsLast(c, chunk) then cursors - {p} else cursors[p := Advanced(c, chunk)],
        if c.done && chunk > 0 then reseek + {p} else reseek,
        if c.done && !IsLast(c, chunk) then next[p := Max(c.lower, c.pos - chunk)] else next)
  {
  }

  lemma SoughtTo(ranges: map<Partition, Range>, chunk: nat, drainAfter: nat,
                 before: map<Partition, ScanCursor>, nextBefore: map<Partition, int>,
                 c0: map<Partition, ScanCursor>, next0: map<Partition, int>,
                 c1: map<Partition, ScanCursor>, reseek: set<Partition>, next: map<Partition, int>,
                   next1: map<Partition, int>)
    requires IdleAt(ranges, chunk, drainAfter, before, nextBefore) && Polled(before, c0, next0)
    requires AdvancedSoFar(chunk, c0, {}, c1, reseek, next)
    requires next1 == (next0 - reseek) + next
    ensures IdleAt(ranges, chunk, drainAfter, c1, next1)
    ensures AdvancedFrom(chunk, c0, next0, c1, next1)
  {
    hide IdleAt, Polled, AdvancedSoFar, AdvancedFrom;
    PolledKeys(before, c0, next0);
    SoughtNext(chunk, c0, next0, c1, reseek, next, next1);
    SoughtIdle(ranges, chunk, drainAfter, before, nextBefore, c0, next0, c1, next1);
  }

  lemma PolledKeys(before: map<Partition, ScanCursor>, c0: map<Partition, ScanCursor>, next0: map<Partition, int>)
    requires Polled(before, c0, next0)
    ensures c0.Keys <= next0.Keys
  {
  }

  lemma SoughtNext(chunk: nat, c0: map<Partition, ScanCursor>, next0: map<Partition, int>,
                   c1: map<Partition, ScanCursor>, reseek: set<Partition>, next: map<Partition, int>,
                     next1: map<Partition, int>)
    requires AdvancedSoFar(chunk, c0, {}, c1, reseek, next) && c0.Keys <= next0.Keys
    requires next1 == (next0 - reseek) + next
    ensures AdvancedFrom(chunk, c0, next0, c1, next1)
  {
  }

  lemma SoughtIdle(ranges: map<Partition, Range>, chunk: nat, drainAfter: nat,
                   before: map<Partition, ScanCursor>, nextBefore: map<Partition, int>,
                   c0: map<Partition, ScanCursor>, next0: map<Partition, int>, c1: map<Partition, ScanCursor>,
                     next1: map<Partition, int>)
    requires IdleAt(ranges, chunk, drainAfter, before, nextBefore) && Polled(before, c0, next0)
    requires AdvancedFrom(chunk, c0, next0, c1, next1)
    ensures IdleAt(ranges, chunk, drainAfter, c1, next1)
  {
  }

  predicate Dropped(c: ScanCursor, chunk: nat) {
    c.done && IsLast(c, chunk)
  }

  ghost predicate AdvancedFrom(chunk: nat, c0: map<Partition, ScanCursor>, next0: map<Partition, int>,
                               c1: map<Partition, ScanCursor>, next1: map<Partition, int>)
  {
    && (forall p :: p in c1 <==> p in c0 && !Dropped(c0[p], chunk))
    && (forall p :: p in c1 ==> c1[p] == Advanced(c0[p], chunk))
    && c1.Keys <= next0.Keys
    && c1.Keys <= next1.Keys
    && (forall p :: p in c1 ==> next1[p] == if c0[p].done then c1[p].pos else next0[p])
    && ((forall p :: p in c0 ==> !c0[p].done) ==> next1 == next0)
  }

  /** The offsets no finished chunk covers yet. */
  ghost function OpenOffsets(cursors: map<Partition, ScanCursor>): set<(Partition, int)> {
    set p, o | p in cursors && cursors[p].lower <= o < cursors[p].upper :: (p, o)
  }

  /** A round that finished a chunk leaves fewer offsets open, so a scan is finite. */
  lemma AdvanceShrinks(chunk: nat, c0: map<Partition, ScanCursor>, next0: map<Partition, int>,
                       c1: map<Partition, ScanCursor>, next1: map<Partition, int>)
    requires AdvancedFrom(chunk, c0, next0, c1, next1)
    requires forall p :: p in c0 ==> c0[p].lower <= c0[p].pos < c0[p].upper
    ensures if exists p :: p in c0 && c0[p].done then OpenOffsets(c1) < OpenOffsets(c0) else c1 == c0 && next1 == next0
  {
    assert OpenOffsets(c1) <= OpenOffsets(c0);
    if exists p :: p in c0 && c0[p].done {
      var p :| p in c0 && c0[p].done;
      assert (p, c0[p].upper - 1) in OpenOffsets(c0);
      assert (p, c0[p].upper - 1) !in OpenOffsets(c1);
    }
  }

  /** Every round of a scan ends a chunk, fetches a record, or spends one of the few empty polls. */
  lemma RoundShrinks(log: set<Record>, ranges: map<Partition, Range>, chunk: nat, drainAfter: nat,
                     c0: map<Partition, ScanCursor>, next0: map<Partition, int>, empty0: nat,
                     c1: map<Partition, ScanCursor>, next1: map<Partition, int>,
                     c2: map<Partition, ScanCursor>, next2: map<Partition, int>, empty1: nat)
    requires IdleAt(ranges, chunk, drainAfter, c0, next0) && c0.Keys != {} && Polled(c0, c1, next1)
    requires AdvancedFrom(chunk, c1, next1, c2, next2)
    requires PollProgress(log, c1, next0, next1, empty0, empty1, drainAfter)
    ensures
      || OpenOffsets(c2) < OpenOffsets(c0)
      || (OpenOffsets(c2) == OpenOffsets(c0) && Unfetched(log, next2) < Unfetched(log, next0))
      || (OpenOffsets(c2) == OpenOffsets(c0) && next2 == next0 && empty0 < empty1 < drainAfter)
  {
    AdvanceShrinks(chunk, c1, next1, c2, next2);
    assert OpenOffsets(c1) == OpenOffsets(c0);
  }

  /** What is known of the polls since some point, as more are answered. */
  lemma LaterPolls(polls: seq<PollResult>, more: seq<PollResult>, begin: nat, n: nat)
    requires begin <= |polls| && polls <= more
    ensures begin <= |more|
    ensures EmptySince(polls, begin, n) ==> EmptySince(more, begin, n)
    ensures SomeFailed(more[|polls|..]) ==> SomeFailed(more[begin..])
    ensures Disturbed(polls[begin..], n) ==> Disturbed(more[begin..], n)
    ensures Disturbed(more[|polls|..], n) ==> Disturbed(more[begin..], n)
  {
    var late := more[|polls|..];
    assert polls[begin..] <= more[begin..] && more[begin..] == polls[begin..] + late;
    if EmptyRun(polls[begin..], n) {
      EmptyRunStays(polls[begin..], more[begin..], n);
    }
    if SomeFailed(late) {
      var i :| 0 <= i < |late| && late[i].PollFailed?;
      assert more[begin..][|polls| - begin + i].PollFailed?;
    }
    if SomeFailed(polls[begin..]) {
      var i :| 0 <= i < |polls[begin..]| && polls[begin..][i].PollFailed?;
      assert more[begin..][i].PollFailed?;
    }
    if EmptyRun(late, n) {
      var i: nat :| EmptyAt(late, i, n);
      assert EmptyAt(more[begin..], |polls| - begin + i, n);
    }
  }

  /** A poll failed, or n in a row returned no record. */
  ghost predicate Disturbed(polls: seq<PollResult>, n: nat) {
    SomeFailed(polls) || EmptyRun(polls, n)
  }
}
