/** Whole scans: scanRecords of internal/kafka/record_source.go, as the sequence
    of the batches it yields. */
module ScanRun {
  import opened Records
  import opened Sorting
  import opened RecordSource

  type Batches = seq<RecordBatch>

  /** Where the chunks of p finished so far end, walking down from the end of its range. */
  ghost function Floor(ranges: map<Partition, Range>, batches: Batches, p: Partition): int
    requires p in ranges
  {
    if batches == [] then ranges[p].end
    else
      var init, last := batches[..|batches| - 1], batches[|batches| - 1];
      if p in last.chunks then last.chunks[p].lower else Floor(ranges, init, p)
  }

  /** The lower end of the chunk below the finished ones. */
  ghost function ChunkLower(ranges: map<Partition, Range>, chunk: nat, batches: Batches, p: Partition): int
    requires p in ranges
  {
    if chunk > 0 then Max(ranges[p].start, Floor(ranges, batches, p) - chunk) else ranges[p].start
  }

  /** All records the batches hold, in the order they were yielded. */
  ghost function Yielded(batches: Batches): seq<Record> {
    if batches == [] then [] else Yielded(batches[..|batches| - 1]) + batches[|batches| - 1].records
  }

  ghost function DrainedBy(batches: Batches): set<Partition> {
    if batches == [] then {} else DrainedBy(batches[..|batches| - 1]) + batches[|batches| - 1].drained
  }

  ghost function EndedBy(batches: Batches): set<Partition> {
    if batches == [] then {} else EndedBy(batches[..|batches| - 1]) + batches[|batches| - 1].ended
  }

  /** The partitions one of whose chunks was given up. */
  ghost function ForcedBy(batches: Batches): set<Partition> {
    if batches == [] then {} else
      var last := batches[|batches| - 1];
      ForcedBy(batches[..|batches| - 1]) + (set p | p in last.chunks && last.chunks[p].forced)
  }

  /** The record belongs to the chunk its partition is at after `before`, and is new. */
  ghost predicate RecordFits(log: set<Record>, ranges: map<Partition, Range>, chunk: nat, before: Batches, r: Record) {
    && r in log && !r.control && r.part in ranges && r.part !in DrainedBy(before)
    && ChunkLower(ranges, chunk, before, r.part) <= r.off < Floor(ranges, before, r.part)
    && r !in Yielded(before)
  }

  /** A finished chunk lies right below the ones finished before; unless it was
      given up, all its records were yielded by now. */
  ghost predicate ChunkFits(log: set<Record>, ranges: map<Partition, Range>, chunk: nat, before: Batches,
                            b: RecordBatch, p: Partition) {
    && p in ranges && p in b.chunks && p !in DrainedBy(before)
    && b.chunks[p].lower == ChunkLower(ranges, chunk, before, p) < Floor(ranges, before, p)
    && (!b.chunks[p].forced ==>
          forall r ::
            r in Shown(log, p, b.chunks[p].lower, Floor(ranges, before, p)) ==> r in Yielded(before) || r in b.records)
  }

  /** What a scan may yield after the batches `before`. */
  ghost predicate BatchFits(log: set<Record>, ranges: map<Partition, Range>, chunk: nat, before: Batches,
                            b: RecordBatch) {
    && InOrder(b.records)
    && (forall r :: r in b.records ==> RecordFits(log, ranges, chunk, before, r))
    && (forall p :: p in b.chunks ==> ChunkFits(log, ranges, chunk, before, b, p))
    && (forall p :: p in b.drained <==>
          p in b.chunks && p in ranges && (b.chunks[p].lower <= ranges[p].start || (chunk > 0 && b.chunks[p].forced)))
    && (forall p :: p in b.ended <==> p in b.drained && p in b.chunks && !b.chunks[p].forced)
  }

  ghost predicate IsScan(log: set<Record>, ranges: map<Partition, Range>, chunk: nat, batches: Batches) {
    batches == [] ||
    (var init, last := batches[..|batches| - 1], batches[|batches| - 1];
     IsScan(log, ranges, chunk, init) && BatchFits(log, ranges, chunk, init, last))
  }

  /** How the cursors of a scan stand to what it yielded: a partition is read until it
      is drained, from the end of what it finished, and has yielded what it fetched. */
  ghost predicate Linked(log: set<Record>, ranges: map<Partition, Range>, chunk: nat, batches: Batches,
                         cursors: map<Partition, ScanCursor>, next: map<Partition, int>)
  {
    && cursors.Keys <= next.Keys
    && (forall p :: p in cursors <==> p in ranges && p !in DrainedBy(batches))
    && (forall p :: p in cursors ==> AtChunk(ranges, chunk, batches, p, cursors[p]))
    && (forall p, r :: p in cursors && r in Shown(log, p, cursors[p].pos, next[p]) ==> r in Yielded(batches))
    && (forall r :: r in Yielded(batches) ==>
          r.part in ranges && (r.part in cursors ==>
            cursors[r.part].pos <= r.off < next[r.part] || r.off >= cursors[r.part].upper))
  }

  ghost predicate AtChunk(ranges: map<Partition, Range>, chunk: nat, batches: Batches, p: Partition, c: ScanCursor) {
    p in ranges && c.lower == ranges[p].start && c.upper == Floor(ranges, batches, p)
      && c.pos == ChunkLower(ranges, chunk, batches, p)
  }

  /** Reads the ranges, forward in one chunk each or backward chunk by chunk, and
      collects what it yields, until the caller has taken enough batches; `whole` says
      that it was not cut short. */
  method ScanRecords(broker: Broker, ranges: map<Partition, Range>, chunk: nat, drainAfter: nat, take: nat)
    returns (batches: Batches, whole: bool)
    requires ValidRanges(ranges) && drainAfter > 0
    modifies broker
    ensures old(broker.polls) <= broker.polls
    ensures IsScan(broker.log, ranges, chunk, batches)
    ensures whole ==> DrainedBy(batches) == ranges.Keys
    ensures !whole ==> |batches| >= take || SomeFailed(broker.polls[|old(broker.polls)|..])
    // Chunks are only given up after drainAfter empty polls in a row.
    ensures ForcedBy(batches) != {} ==> EmptySince(broker.polls, |old(broker.polls)|, drainAfter)
  {
    hide *;
    ghost var log, polls := broker.log, broker.polls;
    var scan := new RecordScan(broker, ranges, chunk, drainAfter);
    batches, whole := [], false;
    ScanStarts(log, ranges, chunk, scan);
    NoPollYet(polls);
    while scan.cursors.Keys != {}
      invariant scan.Idle() && CountedBy(broker.polls, |polls|, scan.emptyPolls) && fresh(scan) && fresh(scan.client)
          && scan.client.broker == broker
      invariant scan.client.log == log && scan.begin == |polls| && polls <= broker.polls
      invariant scan.ranges == ranges && scan.chunk == chunk && scan.drainAfter == drainAfter
      invariant IsScan(log, ranges, chunk, batches) && Linked(log, ranges, chunk, batches, scan.cursors,
          scan.client.next)
      invariant ForcedBy(batches) != {} ==> EmptySince(broker.polls, |polls|, drainAfter)
      decreases OpenOffsets(scan.cursors), Unfetched(scan.client.log, scan.client.next),
          scan.drainAfter - scan.emptyPolls
    {
      ghost var c0, next0, empty0, polls0 := scan.cursors, scan.client.next, scan.emptyPolls, broker.polls;
      ScanIsIdle(scan);
      var ev := scan.Poll();
      LaterPolls(polls0, broker.polls, |polls|, drainAfter);
      if ev.ScanFailed? {
        return;
      }
      var batch := ev.batch;
      ghost var c1, next1, before := scan.cursors, scan.client.next, batches;
      if batch.records != [] || batch.drained != {} || batch.chunks != map[] {
        BatchIsNext(log, ranges, chunk, drainAfter, batches, c0, next0, c1, next1, batch);
        ForcedMore(log, chunk, batches, batch, c1, next0, next1);
        batches := batches + [batch];
        if |batches| >= take {
          return;
        }
      }
      scan.Advance(c0, next0);
      StaysLinked(log, ranges, chunk, drainAfter, before, c0, next0, c1, next1, batch, scan.cursors, scan.client.next);
      RoundShrinks(log, ranges, chunk, drainAfter, c0, next0, empty0, c1, next1, scan.cursors, scan.client.next,
                   scan.emptyPolls);
    }
    whole := true;
    AllDrained(log, ranges, chunk, batches, scan.cursors, scan.client.next);
  }

  lemma ForcedMore(log: set<Record>, chunk: nat, batches: Batches, b: RecordBatch, c1: map<Partition, ScanCursor>,
                   next0: map<Partition, int>, next1: map<Partition, int>)
    requires BatchOf(log, chunk, c1, next0, next1, b)
    ensures ForcedBy(batches + [b]) != {} ==> ForcedBy(batches) != {} || Forces(c1)
  {
    var all := batches + [b];
    assert all[..|all| - 1] == batches;
    hide RecordsOf, IsDrained, IsEnded;
    if p :| p in ForcedBy(all) && p !in ForcedBy(batches) {
      assert c1[p].forced;
    }
  }

  lemma ScanStarts(log: set<Record>, ranges: map<Partition, Range>, chunk: nat, scan: RecordScan)
    requires scan.Idle() && scan.ranges == ranges && scan.chunk == chunk && scan.cursors.Keys == ranges.Keys
    requires forall p :: p in ranges ==> p in scan.cursors && scan.cursors[p].upper == ranges[p].end
    requires forall p :: p in ranges ==> p in scan.client.next && scan.client.next[p] == scan.cursors[p].pos
    requires forall p ::
        p in ranges ==>
          p in scan.cursors && scan.cursors[p].pos == if chunk > 0 then Max(ranges[p].start, ranges[p].end - chunk)
            else ranges[p].start
    ensures IsScan(log, ranges, chunk, []) && Linked(log, ranges, chunk, [], scan.cursors, scan.client.next)
        && ForcedBy([]) == {}
  {
    forall p | p in scan.cursors ensures AtChunk(ranges, chunk, [], p, scan.cursors[p]) {
    }
  }

  lemma ScanIsIdle(scan: RecordScan)
    requires scan.Idle()
    ensures IdleAt(scan.ranges, scan.chunk, scan.drainAfter, scan.cursors, scan.client.next)
  {
    hide IdleAt;
  }

  lemma AllDrained(log: set<Record>, ranges: map<Partition, Range>, chunk: nat, batches: Batches,
                   cursors: map<Partition, ScanCursor>, next: map<Partition, int>)
    requires IsScan(log, ranges, chunk, batches) && Linked(log, ranges, chunk, batches, cursors, next)
        && cursors.Keys == {}
    ensures DrainedBy(batches) == ranges.Keys
  {
    DrainedInRanges(log, ranges, chunk, batches);
  }

  lemma {:induction false} DrainedInRanges(log: set<Record>, ranges: map<Partition, Range>, chunk: nat,
                                           batches: Batches)
    requires IsScan(log, ranges, chunk, batches)
    ensures DrainedBy(batches) <= ranges.Keys
  {
    if batches != [] {
      DrainedInRanges(log, ranges, chunk, batches[..|batches| - 1]);
    }
  }

  /** The batch of a poll goes on where the yielded batches left off. */
  lemma BatchIsNext(log: set<Record>, ranges: map<Partition, Range>, chunk: nat, drainAfter: nat, batches: Batches,
                    c0: map<Partition, ScanCursor>, next0: map<Partition, int>,
                    c1: map<Partition, ScanCursor>, next1: map<Partition, int>, b: RecordBatch)
    requires IsScan(log, ranges, chunk, batches) && Linked(log, ranges, chunk, batches, c0, next0)
    requires IdleAt(ranges, chunk, drainAfter, c0, next0) && Polled(c0, c1, next1)
        && BatchOf(log, chunk, c1, next0, next1, b)
    ensures BatchFits(log, ranges, chunk, batches, b) && IsScan(log, ranges, chunk, batches + [b])
  {
    hide Linked, IdleAt, Polled, RecordsOf, RecordFits, ChunkFits;
    var all := batches + [b];
    assert all[..|all| - 1] == batches && all[|all| - 1] == b;
    forall r | r in b.records ensures RecordFits(log, ranges, chunk, batches, r) {
      RecordIsNext(log, ranges, chunk, drainAfter, batches, c0, next0, c1, next1, b, r);
    }
    forall p | p in b.chunks ensures ChunkFits(log, ranges, chunk, batches, b, p) {
      ChunkIsNext(log, ranges, chunk, drainAfter, batches, c0, next0, c1, next1, b, p);
    }
    BatchInOrder(log, c1, next0, next1, b);
    LinkedCursors(log, ranges, chunk, drainAfter, batches, c0, next0, c1, next1);
  }

  lemma BatchInOrder(log: set<Record>, c1: map<Partition, ScanCursor>, next0: map<Partition, int>,
                     next1: map<Partition, int>, b: RecordBatch)
    requires RecordsOf(log, c1, next0, next1, b.records)
    ensures InOrder(b.records)
  {
  }

  lemma LinkedCursors(log: set<Record>, ranges: map<Partition, Range>, chunk: nat, drainAfter: nat, batches: Batches,
                      c0: map<Partition, ScanCursor>, next0: map<Partition, int>, c1: map<Partition, ScanCursor>,
                        next1: map<Partition, int>)
    requires Linked(log, ranges, chunk, batches, c0, next0) && IdleAt(ranges, chunk, drainAfter, c0, next0)
        && Polled(c0, c1, next1)
    ensures forall p :: p in c1 ==> p in ranges && c1[p].lower == ranges[p].start
  {
  }

  lemma RecordIsNext(log: set<Record>, ranges: map<Partition, Range>, chunk: nat, drainAfter: nat, batches: Batches,
                     c0: map<Partition, ScanCursor>, next0: map<Partition, int>,
                     c1: map<Partition, ScanCursor>, next1: map<Partition, int>, b: RecordBatch, r: Record)
    requires Linked(log, ranges, chunk, batches, c0, next0) && IdleAt(ranges, chunk, drainAfter, c0, next0)
    requires Polled(c0, c1, next1) && RecordsOf(log, c1, next0, next1, b.records) && r in b.records
    ensures RecordFits(log, ranges, chunk, batches, r)
  {
    hide Floor, ChunkLower, DrainedBy, Yielded;
    assert r.part in c0 && AtChunk(ranges, chunk, batches, r.part, c0[r.part]);
    assert next0[r.part] <= r.off < c0[r.part].upper;
  }

  lemma ChunkIsNext(log: set<Record>, ranges: map<Partition, Range>, chunk: nat, drainAfter: nat, batches: Batches,
                    c0: map<Partition, ScanCursor>, next0: map<Partition, int>,
                    c1: map<Partition, ScanCursor>, next1: map<Partition, int>, b: RecordBatch, p: Partition)
    requires Linked(log, ranges, chunk, batches, c0, next0) && IdleAt(ranges, chunk, drainAfter, c0, next0)
    requires Polled(c0, c1, next1) && BatchOf(log, chunk, c1, next0, next1, b) && p in b.chunks
    ensures ChunkFits(log, ranges, chunk, batches, b, p)
  {
    hide Floor, ChunkLower, DrainedBy, Yielded, IsDrained, IsEnded;
    assert p in c0 && AtChunk(ranges, chunk, batches, p, c0[p]);
    if !b.chunks[p].forced {
      forall r | r in Shown(log, p, c0[p].pos, c0[p].upper) ensures r in Yielded(batches) || r in b.records {
        if r.off < next0[p] {
          assert r in Shown(log, p, c0[p].pos, next0[p]);
        }
      }
    }
  }

  /** Advancing the cursors keeps the link, whether or not the batch was empty. */
  lemma StaysLinked(log: set<Record>, ranges: map<Partition, Range>, chunk: nat, drainAfter: nat, batches: Batches,
                    c0: map<Partition, ScanCursor>, next0: map<Partition, int>,
                    c1: map<Partition, ScanCursor>, next1: map<Partition, int>, b: RecordBatch,
                    c2: map<Partition, ScanCursor>, next2: map<Partition, int>)
    requires Linked(log, ranges, chunk, batches, c0, next0) && IdleAt(ranges, chunk, drainAfter, c0, next0)
    requires Polled(c0, c1, next1) && BatchOf(log, chunk, c1, next0, next1, b)
        && AdvancedFrom(chunk, c1, next1, c2, next2)
    ensures Linked(log, ranges, chunk, batches + [b], c2, next2)
    ensures b.records == [] && b.drained == {} && b.chunks == map[] ==> Linked(log, ranges, chunk, batches, c2, next2)
  {
    var all := batches + [b];
    assert all[..|all| - 1] == batches;
    CursorsAtChunks(log, ranges, chunk, drainAfter, batches, c0, next0, c1, next1, b, c2, next2, all);
    RecordsStayLinked(log, ranges, chunk, drainAfter, batches, c0, next0, c1, next1, b, c2, next2, all);
    if b.records == [] && b.drained == {} && b.chunks == map[] {
      assert Yielded(all) == Yielded(batches);
      assert forall p :: p in c2 ==> AtChunk(ranges, chunk, batches, p, c2[p]);
    }
  }

  lemma CursorsAtChunks(log: set<Record>, ranges: map<Partition, Range>, chunk: nat, drainAfter: nat, batches: Batches,
                        c0: map<Partition, ScanCursor>, next0: map<Partition, int>,
                        c1: map<Partition, ScanCursor>, next1: map<Partition, int>, b: RecordBatch,
                        c2: map<Partition, ScanCursor>, next2: map<Partition, int>, all: Batches)
    requires Linked(log, ranges, chunk, batches, c0, next0) && IdleAt(ranges, chunk, drainAfter, c0, next0)
    requires Polled(c0, c1, next1) && BatchOf(log, chunk, c1, next0, next1, b)
        && AdvancedFrom(chunk, c1, next1, c2, next2)
    requires all == batches + [b] && all[..|all| - 1] == batches
    ensures c2.Keys <= next2.Keys
    ensures forall p :: p in c2 <==> p in ranges && p !in DrainedBy(all)
    ensures forall p :: p in c2 ==> AtChunk(ranges, chunk, all, p, c2[p])
  {
    hide RecordsOf, Yielded;
    forall p | p in c2 ensures AtChunk(ranges, chunk, all, p, c2[p]) {
      assert AtChunk(ranges, chunk, batches, p, c0[p]);
    }
  }

  lemma RecordsStayLinked(log: set<Record>, ranges: map<Partition, Range>, chunk: nat, drainAfter: nat,
                          batches: Batches,
                          c0: map<Partition, ScanCursor>, next0: map<Partition, int>,
                          c1: map<Partition, ScanCursor>, next1: map<Partition, int>, b: RecordBatch,
                          c2: map<Partition, ScanCursor>, next2: map<Partition, int>, all: Batches)
    requires Linked(log, ranges, chunk, batches, c0, next0) && IdleAt(ranges, chunk, drainAfter, c0, next0)
    requires Polled(c0, c1, next1) && BatchOf(log, chunk, c1, next0, next1, b)
        && AdvancedFrom(chunk, c1, next1, c2, next2)
    requires all == batches + [b] && all[..|all| - 1] == batches
    ensures forall p, r :: p in c2 && r in Shown(log, p, c2[p].pos, next2[p]) ==> r in Yielded(all)
    ensures forall r :: r in Yielded(all) ==>
              r.part in ranges && (r.part in c2 ==>
                c2[r.part].pos <= r.off < next2[r.part] || r.off >= c2[r.part].upper)
  {
    hide IsDrained, IsEnded, IsFinished, DrainedBy, AtChunk;
    assert forall r :: r in Yielded(all) <==> r in Yielded(batches) || r in b.records;
  }

  // --- what the batches of a scan hold ---

  /** No record is yielded twice, and none from outside the ranges. */
  lemma {:induction false} YieldsOnce(log: set<Record>, ranges: map<Partition, Range>, chunk: nat, batches: Batches)
    requires ValidRanges(ranges) && IsScan(log, ranges, chunk, batches)
    ensures NoDup(Yielded(batches))
    ensures forall r ::
        r in Yielded(batches) ==> r.part in ranges && r in Shown(log, r.part, ranges[r.part].start, ranges[r.part].end)
    ensures forall p :: p in ranges ==> ranges[p].start <= Floor(ranges, batches, p) <= ranges[p].end
  {
    if batches != [] {
      var init, last := batches[..|batches| - 1], batches[|batches| - 1];
      YieldsOnce(log, ranges, chunk, init);
      InOrderNoDup(last.records);
      NoDupConcat(Yielded(init), last.records);
    }
  }

  lemma InOrderNoDup(records: seq<Record>)
    requires InOrder(records)
    ensures NoDup(records)
  {
  }

  /** A partition is reported as read to its end exactly when it was drained without
      a chunk being given up; what lies above its finished chunks was yielded. */
  lemma {:induction false} EndedIsUnforced(log: set<Record>, ranges: map<Partition, Range>, chunk: nat,
                                           batches: Batches, p: Partition)
    requires ValidRanges(ranges) && IsScan(log, ranges, chunk, batches) && p in ranges
    ensures p in EndedBy(batches) <==> p in DrainedBy(batches) && p !in ForcedBy(batches)
    ensures p in EndedBy(batches) ==> Floor(ranges, batches, p) == ranges[p].start
    ensures p in ForcedBy(batches) ==> p in DrainedBy(batches)
    ensures p !in ForcedBy(batches) ==>
              forall r :: r in Shown(log, p, Floor(ranges, batches, p), ranges[p].end) ==> r in Yielded(batches)
  {
    if batches != [] {
      var init, last := batches[..|batches| - 1], batches[|batches| - 1];
      EndedIsUnforced(log, ranges, chunk, init, p);
      YieldsOnce(log, ranges, chunk, batches);
      if p in last.chunks {
        assert ChunkFits(log, ranges, chunk, init, last, p);
      }
    }
  }

  /** Every partition read to its end yielded exactly the shown records of its range,
      each once; after a whole scan these are the partitions never given up. */
  lemma ScanIsExact(log: set<Record>, ranges: map<Partition, Range>, chunk: nat, batches: Batches, p: Partition)
    requires ValidRanges(ranges) && IsScan(log, ranges, chunk, batches) && p in ranges
    requires p in EndedBy(batches) || (DrainedBy(batches) == ranges.Keys && p !in ForcedBy(batches))
    ensures p in EndedBy(batches)
    ensures (set r | r in Yielded(batches) && r.part == p) == Shown(log, p, ranges[p].start, ranges[p].end)
    ensures NoDup(Yielded(batches))
  {
    EndedIsUnforced(log, ranges, chunk, batches, p);
    YieldsOnce(log, ranges, chunk, batches);
  }

  /** Offset o of p is in the chunk batch i finished. */
  ghost predicate FinishedAt(ranges: map<Partition, Range>, batches: Batches, p: Partition, o: int, i: nat)
    requires p in ranges && i < |batches|
  {
    p in batches[i].chunks && batches[i].chunks[p].lower <= o < Floor(ranges, batches[..i], p)
  }

  /** The finished chunks tile what lies above the floor: every offset there is in
      exactly one of them, and none below is in any. */
  lemma {:induction false} ChunksTile(log: set<Record>, ranges: map<Partition, Range>, chunk: nat, batches: Batches,
                                      p: Partition, o: int)
    requires IsScan(log, ranges, chunk, batches) && p in ranges && o < ranges[p].end
    ensures (exists i: nat | i < |batches| :: FinishedAt(ranges, batches, p, o, i)) <==> Floor(ranges, batches, p) <= o
    ensures forall i: nat, j: nat | i < |batches| && j < |batches| ::
              FinishedAt(ranges, batches, p, o, i) && FinishedAt(ranges, batches, p, o, j) ==> i == j
  {
    if batches != [] {
      var n := |batches| - 1;
      var init, last := batches[..n], batches[n];
      ChunksTile(log, ranges, chunk, init, p, o);
      forall i: nat | i < n ensures FinishedAt(ranges, batches, p, o, i) <==> FinishedAt(ranges, init, p, o, i) {
        assert batches[..i] == init[..i];
      }
      if p in last.chunks {
        assert ChunkFits(log, ranges, chunk, init, last, p);
      }
      assert Floor(ranges, batches, p) <= Floor(ranges, init, p);
      assert FinishedAt(ranges, batches, p, o, n) <==> Floor(ranges, batches, p) <= o < Floor(ranges, init, p);
      hide IsScan, Floor, FinishedAt, BatchFits, ChunkFits;
      if exists i: nat | i < n :: FinishedAt(ranges, init, p, o, i) {
        var i: nat :| i < n && FinishedAt(ranges, init, p, o, i);
        assert FinishedAt(ranges, batches, p, o, i);
      }
    }
  }

  /** A finished chunk's partition has only records of that chunk in the batch. */
  lemma RecordsOfFinishedChunk(log: set<Record>, ranges: map<Partition, Range>, chunk: nat, batches: Batches, i: nat,
                               r: Record)
    requires IsScan(log, ranges, chunk, batches) && i < |batches| && r in batches[i].records
        && r.part in batches[i].chunks
    ensures r.part in ranges && FinishedAt(ranges, batches, r.part, r.off, i)
  {
    ScanPrefix(log, ranges, chunk, batches, i);
    assert RecordFits(log, ranges, chunk, batches[..i], r);
    assert ChunkFits(log, ranges, chunk, batches[..i], batches[i], r.part);
  }

  lemma {:induction false} ScanPrefix(log: set<Record>, ranges: map<Partition, Range>, chunk: nat, batches: Batches,
                                      i: nat)
    requires IsScan(log, ranges, chunk, batches) && i < |batches|
    ensures BatchFits(log, ranges, chunk, batches[..i], batches[i])
  {
    var n := |batches| - 1;
    if i < n {
      ScanPrefix(log, ranges, chunk, batches[..n], i);
      assert batches[..n][..i] == batches[..i];
    }
  }
}
