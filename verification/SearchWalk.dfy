/** How the state of a search call follows the reader, poll by poll. */
module SearchWalk {
  import opened Sets
  import opened Records
  import opened RecordSource
  import opened TimeMerge
  import opened SearchState

  /** The reader's position and the search state, as of one moment. */
  datatype Walk = Walk(log: set<Record>, ranges: map<Partition, Range>, newestFirst: bool,
                       cursors: map<Partition, ScanCursor>, next: map<Partition, int>,
                       seen: set<Record>, frontier: map<Partition, int>,
                       stuck: set<Partition>, parked: set<Partition>, drained: set<Partition>)

  ghost function Own(w: Walk, p: Partition): set<Record> {
    set r | r in InRanges(w.log, w.ranges) && r.part == p
  }

  /** The walk of a partition the call still reads: newest-first all of the open
      chunk up to the fetch position and nothing below it was seen; oldest-first
      all of the range up to the fetch position. */
  ghost predicate Reads(w: Walk, p: Partition)
    requires p in w.cursors && p in w.next && p in w.frontier
  {
    var c := w.cursors[p];
    if w.newestFirst then
      && p !in w.stuck && w.frontier[p] == c.upper
      && (forall r :: r in Own(w, p) && c.pos <= r.off < w.next[p] ==> r in w.seen)
      && (forall r :: r in w.seen && r.part == p ==> c.pos <= r.off && (r.off < c.upper ==> r.off < w.next[p]))
    else
      forall r :: r in Own(w, p) ==> (r in w.seen <==> r.off < w.next[p])
  }

  ghost predicate CoupledAt(w: Walk, p: Partition)
    requires p in w.ranges
  {
    && p in w.frontier
    && (p in w.cursors <==> p !in w.drained)
    && (p in w.cursors ==> p in w.next && (p !in w.parked ==> Reads(w, p)))
    && (p !in w.cursors && w.newestFirst && p !in w.parked ==> p in w.stuck || w.frontier[p] == w.ranges[p].start)
  }

  ghost predicate Coupled(w: Walk) {
    && IsSeen(w.log, w.ranges, w.seen)
    && (forall p :: p in w.ranges ==> CoupledAt(w, p))
    && (w.newestFirst ==> IsFrontier(w.log, w.ranges, w.seen, w.frontier))
  }

  /** The records a batch adds when its first n records are visited. */
  ghost function Visited(records: seq<Record>, n: nat, parked: set<Partition>): set<Record>
    requires n <= |records|
  {
    set i | 0 <= i < n && records[i].part !in parked :: records[i]
  }

  /** A poll: w is the state before it, cursors and next the reader after it. */
  ghost predicate PolledFrom(w: Walk, chunk: nat, drainAfter: nat, cursors: map<Partition, ScanCursor>,
                             next: map<Partition, int>, batch: RecordBatch) {
    && IdleAt(w.ranges, chunk, drainAfter, w.cursors, w.next)
    && (w.newestFirst <==> chunk > 0)
    && Polled(w.cursors, cursors, next)
    && BatchOf(w.log, chunk, cursors, w.next, next, batch)
  }

  lemma NoneVisited(records: seq<Record>, parked: set<Partition>)
    ensures Visited(records, 0, parked) == {}
  {
  }

  lemma VisitedGrows(records: seq<Record>, n: nat, parked: set<Partition>)
    requires n < |records|
    ensures Visited(records, n + 1, parked) ==
            if records[n].part in parked then Visited(records, n, parked)
              else Visited(records, n, parked) + {records[n]}
  {
  }

  /** Every record of a batch comes in turn. */
  lemma InTurn(w: Walk, chunk: nat, drainAfter: nat, cursors: map<Partition, ScanCursor>, next: map<Partition, int>,
               batch: RecordBatch, n: nat)
    requires Coupled(w) && PolledFrom(w, chunk, drainAfter, cursors, next, batch)
    requires n < |batch.records| && batch.records[n].part !in w.parked
    ensures
      var rec := batch.records[n];
      var seen := w.seen + Visited(batch.records, n, w.parked);
      && rec in InRanges(w.log, w.ranges) && rec !in seen
      && (if w.newestFirst then rec.part in w.frontier && rec.off < w.frontier[rec.part]
          else forall r :: r in InRanges(w.log, w.ranges) && r.part == rec.part && r.off < rec.off ==> r in seen)
  {
    var rec := batch.records[n];
    assert rec in batch.records;
    var p := rec.part;
    assert p in w.cursors && p in w.ranges && CoupledAt(w, p) && Reads(w, p);
    assert rec in Own(w, p);
    if !w.newestFirst {
      forall r | r in InRanges(w.log, w.ranges) && r.part == p && r.off < rec.off
        ensures r in w.seen + Visited(batch.records, n, w.parked)
      {
        assert r in Own(w, p);
        if r.off >= w.next[p] {
          assert r in batch.records;
          var i :| 0 <= i < |batch.records| && batch.records[i] == r;
          assert i < n;
        }
      }
    }
  }

  /** A chunk whose records were all visited is read to its end. */
  lemma ChunkVisited(w: Walk, chunk: nat, drainAfter: nat, cursors: map<Partition, ScanCursor>,
                     next: map<Partition, int>,
                     batch: RecordBatch, n: nat, p: Partition)
    requires Coupled(w) && PolledFrom(w, chunk, drainAfter, cursors, next, batch) && n <= |batch.records|
    requires p in w.cursors && p in cursors && cursors[p].done && !cursors[p].forced && p !in w.parked
    requires forall i :: n <= i < |batch.records| ==> batch.records[i].part != p
    ensures
      var seen := w.seen + Visited(batch.records, n, w.parked);
      if w.newestFirst then ChunkRead(w.log, w.ranges, seen, w.frontier, p, cursors[p].pos)
      else forall r :: r in Own(w, p) ==> r in seen
  {
    var seen := w.seen + Visited(batch.records, n, w.parked);
    var c := cursors[p];
    assert CoupledAt(w, p) && Reads(w, p);
    forall r | r in Own(w, p) && c.pos <= r.off < c.upper ensures r in seen {
      if r.off >= w.next[p] {
        assert r in batch.records;
        var i :| 0 <= i < |batch.records| && batch.records[i] == r;
        assert i < n;
      }
    }
    if w.newestFirst {
      forall r | r in InRanges(w.log, w.ranges) && r.part == p && c.pos <= r.off ensures r in seen {
        assert r in Own(w, p);
      }
      forall r | r in seen && r.part == p ensures c.pos <= r.off {
        if r !in w.seen {
          assert r in batch.records;
        }
      }
    }
  }

  /** The chunk ends of a fully visited batch, applied. */
  ghost predicate Applied(w: Walk, batch: RecordBatch, drained: set<Partition>, stuck: set<Partition>,
                          frontier: map<Partition, int>) {
    && drained == w.drained + batch.drained
    && (if w.newestFirst then FinishedChunks(batch.chunks, w.parked, w.stuck, w.frontier, stuck, frontier)
        else stuck == w.stuck && frontier == w.frontier)
  }

  /** The next state: the chunk ends of a fully visited batch are applied, the
      reader advanced, and more partitions may be parked. */
  ghost predicate StepTo(w: Walk, chunk: nat, cursors: map<Partition, ScanCursor>, next: map<Partition, int>,
                         batch: RecordBatch, w2: Walk) {
    && w2.log == w.log && w2.ranges == w.ranges && w2.newestFirst == w.newestFirst
    && w2.seen == w.seen + Visited(batch.records, |batch.records|, w.parked)
    && Applied(w, batch, w2.drained, w2.stuck, w2.frontier)
    && w.parked <= w2.parked
    && AdvancedFrom(chunk, cursors, next, w2.cursors, w2.next)
  }

  lemma StepKeepsCoupling(w: Walk, chunk: nat, drainAfter: nat, cursors: map<Partition, ScanCursor>,
                          next: map<Partition, int>,
                          batch: RecordBatch, w2: Walk)
    requires Coupled(w) && PolledFrom(w, chunk, drainAfter, cursors, next, batch)
        && StepTo(w, chunk, cursors, next, batch, w2)
    requires IsSeen(w2.log, w2.ranges, w2.seen)
    requires w2.newestFirst ==> IsFrontier(w2.log, w2.ranges, w2.seen, w2.frontier)
    ensures Coupled(w2)
  {
    hide IsFrontier, IsSeen, IsLog;
    forall p | p in w2.ranges ensures CoupledAt(w2, p) {
      StepKeepsCouplingAt(w, chunk, drainAfter, cursors, next, batch, w2, p);
    }
  }

  lemma StepKeepsCouplingAt(w: Walk, chunk: nat, drainAfter: nat, cursors: map<Partition, ScanCursor>,
                            next: map<Partition, int>,
                            batch: RecordBatch, w2: Walk, p: Partition)
    requires p in w.ranges && CoupledAt(w, p) && PolledFrom(w, chunk, drainAfter, cursors, next, batch)
        && StepTo(w, chunk, cursors, next, batch, w2)
    ensures CoupledAt(w2, p)
  {
    hide IsLog;
    if p in w2.cursors && p !in w2.parked {
      assert p in w.cursors && p !in w.parked && Reads(w, p);
      StepReads(w, chunk, drainAfter, cursors, next, batch, w2, p);
    }
  }

  lemma StepReads(w: Walk, chunk: nat, drainAfter: nat, cursors: map<Partition, ScanCursor>, next: map<Partition, int>,
                  batch: RecordBatch, w2: Walk, p: Partition)
    requires p in w.ranges && CoupledAt(w, p) && PolledFrom(w, chunk, drainAfter, cursors, next, batch)
        && StepTo(w, chunk, cursors, next, batch, w2)
    requires p in w2.cursors && p in w2.next && p in w2.frontier && p !in w2.parked && p in w.cursors && Reads(w, p)
    ensures Reads(w2, p)
  {
    hide IdleAt, Polled, RecordsOf, IsDrained, IsEnded, IsFinished, FinishedChunks, Visited, AdvancedFrom, Own;
    IdleCursor(w.ranges, chunk, drainAfter, w.cursors, w.next, p);
    PolledCursor(chunk, w.cursors, cursors, next, w2.cursors, w2.next, p);
    FetchedOn(w.log, cursors, w.next, next, batch.records, p);
    forall r | r in Own(w, p) && w.next[p] <= r.off < SeenUpTo(cursors[p], next[p]) ensures r in w2.seen {
      RecordIsVisited(w, cursors, next, batch, p, r);
    }
    forall r | r in w2.seen && r.part == p && r !in w.seen ensures r in Own(w, p)
      && w.next[p] <= r.off < SeenUpTo(cursors[p], next[p]) {
      VisitedIsRecord(w, chunk, drainAfter, cursors, next, batch, p, r);
    }
    if w.newestFirst {
      StepFrontier(w, cursors, batch, w2, p);
    }
    assert forall r :: r in Own(w2, p) <==> r in Own(w, p) by {
      SameOwn(w, w2, p);
    }
    OwnInRange(w, p);
  }

  lemma FetchedOn(log: set<Record>, cursors: map<Partition, ScanCursor>, next0: map<Partition, int>,
                  next: map<Partition, int>,
                  records: seq<Record>, p: Partition)
    requires RecordsOf(log, cursors, next0, next, records) && p in next
    ensures p in next0 && next0[p] <= next[p]
  {
  }

  lemma SameOwn(w: Walk, w2: Walk, p: Partition)
    requires w2.log == w.log && w2.ranges == w.ranges
    ensures Own(w2, p) == Own(w, p)
  {
  }

  lemma OwnInRange(w: Walk, p: Partition)
    requires p in w.ranges
    ensures forall r :: r in Own(w, p) ==> r.part == p && w.ranges[p].start <= r.off < w.ranges[p].end
  {
  }

  /** The cursor of a partition still read, and its fetch position, after a poll and the advance. */
  lemma PolledCursor(chunk: nat, c0: map<Partition, ScanCursor>, c1: map<Partition, ScanCursor>,
                     next: map<Partition, int>,
                     c2: map<Partition, ScanCursor>, next2: map<Partition, int>, p: Partition)
    requires Polled(c0, c1, next) && AdvancedFrom(chunk, c1, next, c2, next2) && p in c2 && p in c0 && p in next2
    ensures p in c1 && p in next && !Dropped(c1[p], chunk) && c2[p] == Advanced(c1[p], chunk)
    ensures c1[p] == c0[p].(done := c1[p].done, forced := c1[p].forced) && c1[p].pos <= next[p]
    ensures if next[p] >= c1[p].upper then c1[p].done && !c1[p].forced else c1[p].done == c1[p].forced
    ensures next2[p] == if c1[p].done then c2[p].pos else next[p]
  {
    hide Dropped, Advanced;
  }

  lemma VisitedIsRecord(w: Walk, chunk: nat, drainAfter: nat, cursors: map<Partition, ScanCursor>,
                        next: map<Partition, int>,
                        batch: RecordBatch, p: Partition, r: Record)
    requires PolledFrom(w, chunk, drainAfter, cursors, next, batch) && p in w.ranges && p in cursors && p in w.next
        && p in next
    requires r in Visited(batch.records, |batch.records|, w.parked) && r.part == p
    ensures r in Own(w, p) && w.next[p] <= r.off < SeenUpTo(cursors[p], next[p])
  {
    assert r in batch.records;
    assert p in w.cursors;
  }

  lemma StepFrontier(w: Walk, cursors: map<Partition, ScanCursor>, batch: RecordBatch, w2: Walk, p: Partition)
    requires Applied(w, batch, w2.drained, w2.stuck, w2.frontier) && IsFinished(cursors, batch.chunks) && w.newestFirst
    requires p in cursors && p in w.frontier && p in w2.frontier && p !in w.parked && p !in w.stuck
    ensures p in w2.stuck <==> cursors[p].done && cursors[p].forced
    ensures w2.frontier[p] == if cursors[p].done && !cursors[p].forced then cursors[p].pos else w.frontier[p]
  {
  }

  lemma IdleCursor(ranges: map<Partition, Range>, chunk: nat, drainAfter: nat, cursors: map<Partition, ScanCursor>,
                   next: map<Partition, int>, p: Partition)
    requires IdleAt(ranges, chunk, drainAfter, cursors, next) && p in cursors
    ensures p in ranges && p in next && cursors[p].lower <= cursors[p].pos <= next[p] < cursors[p].upper
    ensures !cursors[p].done && !cursors[p].forced && (chunk == 0 ==>
        cursors[p].pos == cursors[p].lower && cursors[p].upper == ranges[p].end)
  {
  }

  /** A fetched record is in the batch, and visited. */
  lemma RecordIsVisited(w: Walk, cursors: map<Partition, ScanCursor>, next: map<Partition, int>, batch: RecordBatch,
                        p: Partition, r: Record)
    requires p in cursors && p in w.next && p in next && RecordsOf(w.log, cursors, w.next, next, batch.records)
        && p !in w.parked
    requires r in Own(w, p) && w.next[p] <= r.off < SeenUpTo(cursors[p], next[p])
    ensures r in Visited(batch.records, |batch.records|, w.parked)
  {
    assert r in batch.records;
    var i :| 0 <= i < |batch.records| && batch.records[i] == r;
  }

  // --- a batch the budget cut short ---

  ghost predicate IsOpen(batch: RecordBatch, n: nat, p: Partition) {
    exists i :: n <= i < |batch.records| && batch.records[i].part == p
  }

  /** batch as far as its first n records were visited. */
  ghost predicate IsCutBatch(batch: RecordBatch, n: nat, cut: RecordBatch) {
    && n <= |batch.records| && cut.records == batch.records[..n]
    && (forall p :: p in cut.drained <==> p in batch.drained && !IsOpen(batch, n, p))
    && (forall p :: p in cut.ended <==> p in batch.ended && !IsOpen(batch, n, p))
    && (forall p :: p in cut.chunks <==> p in batch.chunks && !IsOpen(batch, n, p))
    && (forall p :: p in cut.chunks ==> cut.chunks[p] == batch.chunks[p])
  }

  /** What a newest-first call that spent its budget knows of p: its cursor moved,
      or an offset of its first chunk is unread. */
  ghost predicate MovedOn(ranges: map<Partition, Range>, chunk: nat, seen: set<Record>, frontier: map<Partition, int>,
                          p: Partition)
    requires p in ranges && p in frontier
  {
    frontier[p] < ranges[p].end || exists low :: UnreadAbove(ranges[p].end, chunk, seen, p, low)
  }

  ghost predicate UnreadAbove(end: int, chunk: nat, seen: set<Record>, p: Partition, low: int) {
    && end - chunk <= low < end
    && (forall r :: r in seen && r.part == p ==> low <= r.off < end)
    && exists o :: low <= o < end && (p, o) !in Spots(seen)
  }

  lemma BudgetAdvances(w: Walk, chunk: nat, drainAfter: nat, cursors: map<Partition, ScanCursor>,
                       next: map<Partition, int>,
                       batch: RecordBatch, n: nat, cut: RecordBatch, seen: set<Record>,
                       frontier: map<Partition, int>, stuck: set<Partition>, p: Partition)
    requires Coupled(w) && w.newestFirst && PolledFrom(w, chunk, drainAfter, cursors, next, batch)
        && IsCutBatch(batch, n, cut)
    requires seen == w.seen + Visited(batch.records, n, w.parked) && IsLog(w.log) && seen <= InRanges(w.log, w.ranges)
    requires FinishedChunks(cut.chunks, w.parked, w.stuck, w.frontier, stuck, frontier)
    requires p in w.ranges && p in frontier && p !in w.parked && p !in stuck
    ensures MovedOn(w.ranges, chunk, seen, frontier, p)
  {
    assert CoupledAt(w, p);
    if frontier[p] >= w.ranges[p].end {
      assert p in w.cursors && Reads(w, p);
      assert p in cut.chunks ==> p in batch.chunks;
      var c := w.cursors[p];
      forall r | r in seen && r.part == p ensures c.pos <= r.off < c.upper {
        if r !in w.seen {
          assert r in batch.records;
        }
      }
      if forall o :: c.pos <= o < c.upper ==> (p, o) in Spots(seen) {
        FullChunkEnds(w, chunk, drainAfter, cursors, next, batch, n, seen, p);
        assert false;
      }
      assert UnreadAbove(w.ranges[p].end, chunk, seen, p, c.pos);
    }
  }

  /** A chunk whose every offset was seen is finished in the batch, and not cut. */
  lemma FullChunkEnds(w: Walk, chunk: nat, drainAfter: nat, cursors: map<Partition, ScanCursor>,
                      next: map<Partition, int>,
                      batch: RecordBatch, n: nat, seen: set<Record>, p: Partition)
    requires Coupled(w) && w.newestFirst && PolledFrom(w, chunk, drainAfter, cursors, next, batch)
        && n <= |batch.records|
    requires seen == w.seen + Visited(batch.records, n, w.parked) && IsLog(w.log) && seen <= InRanges(w.log, w.ranges)
    requires p in w.ranges && p in w.cursors && p !in w.parked
    requires forall o :: w.cursors[p].pos <= o < w.cursors[p].upper ==> (p, o) in Spots(seen)
    ensures p in cursors && cursors[p].done && !cursors[p].forced && !IsOpen(batch, n, p)
  {
    assert CoupledAt(w, p) && Reads(w, p);
    var c := w.cursors[p];
    assert (p, c.upper - 1) in Spots(seen);
    var r :| r in seen && (r.part, r.off) == (p, c.upper - 1);
    assert r !in w.seen && r in batch.records;
    UnvisitedUnseen(w, chunk, drainAfter, cursors, next, batch, n, seen, p);
  }

  lemma UnvisitedUnseen(w: Walk, chunk: nat, drainAfter: nat, cursors: map<Partition, ScanCursor>,
                        next: map<Partition, int>,
                        batch: RecordBatch, n: nat, seen: set<Record>, p: Partition)
    requires Coupled(w) && w.newestFirst && PolledFrom(w, chunk, drainAfter, cursors, next, batch)
        && n <= |batch.records|
    requires seen == w.seen + Visited(batch.records, n, w.parked) && IsLog(w.log) && seen <= InRanges(w.log, w.ranges)
    requires p in w.ranges && p in w.cursors && p !in w.parked
    ensures forall i :: n <= i < |batch.records| && batch.records[i].part == p ==>
              w.cursors[p].pos <= batch.records[i].off < w.cursors[p].upper && (p, batch.records[i].off) !in Spots(seen)
  {
    assert CoupledAt(w, p) && Reads(w, p);
    forall i | n <= i < |batch.records| && batch.records[i].part == p
      ensures w.cursors[p].pos <= batch.records[i].off < w.cursors[p].upper && (p, batch.records[i].off) !in Spots(seen)
    {
      var rec := batch.records[i];
      assert rec in batch.records;
      assert rec !in w.seen && rec !in Visited(batch.records, n, w.parked);
      forall q | q in seen ensures (q.part, q.off) != (p, rec.off) {
        assert q.part == p && q.off == rec.off ==> q == rec;
      }
    }
  }

  /** A call that read as much as the first chunks of all partitions hold has read one of them out. */
  lemma SomeCursorMoves(ranges: map<Partition, Range>, chunk: nat, seen: set<Record>, frontier: map<Partition, int>)
    requires IsLog(seen) && frontier.Keys == ranges.Keys && chunk > 0
    requires forall r :: r in seen ==> r.part in ranges
    requires |seen| > |ranges.Keys| * (chunk - 1)
    requires forall p :: p in ranges ==> MovedOn(ranges, chunk, seen, frontier, p)
    ensures exists p :: p in ranges && frontier[p] < ranges[p].end
  {
    if forall p :: p in ranges ==> frontier[p] >= ranges[p].end {
      NoneMoved(ranges, chunk, seen, frontier);
      assert false;
    }
  }

  lemma NoneMoved(ranges: map<Partition, Range>, chunk: nat, seen: set<Record>, frontier: map<Partition, int>)
    requires IsLog(seen) && frontier.Keys == ranges.Keys && chunk > 0
    requires forall r :: r in seen ==> r.part in ranges
    requires forall p :: p in ranges ==> MovedOn(ranges, chunk, seen, frontier, p) && frontier[p] >= ranges[p].end
    ensures |seen| <= |ranges.Keys| * (chunk - 1)
  {
    hide IsLog, UnreadAbove, OfPartition;
    forall p | p in ranges ensures |OfPartition(seen, p)| <= chunk - 1 {
      var low :| UnreadAbove(ranges[p].end, chunk, seen, p, low);
      FewOffsets(ranges[p].end, chunk, seen, p, low);
    }
    TooFew(ranges.Keys, seen, chunk - 1);
  }

  lemma FewOffsets(end: int, chunk: nat, seen: set<Record>, p: Partition, low: int)
    requires IsLog(seen) && UnreadAbove(end, chunk, seen, p, low)
    ensures |OfPartition(seen, p)| < chunk
  {
    var own := OfPartition(seen, p);
    var o :| low <= o < end && (p, o) !in Spots(seen);
    SpotsCount(own);
    var spots := set x | low <= x < end :: (p, x);
    IntervalSize(p, low, end);
    assert Spots(own) <= spots - {(p, o)} by {
      forall spot | spot in Spots(own) ensures spot in spots - {(p, o)} {
        var r :| r in own && (r.part, r.off) == spot;
        assert spot in Spots(seen);
      }
    }
    SubsetSize(Spots(own), spots - {(p, o)});
  }

  lemma {:induction false} IntervalSize(p: Partition, low: int, end: int)
    requires low <= end
    ensures |set x | low <= x < end :: (p, x)| == end - low
    decreases end - low
  {
    if low < end {
      IntervalSize(p, low + 1, end);
      assert (set x | low <= x < end :: (p, x)) == (set x | low + 1 <= x < end :: (p, x)) + {(p, low)};
    } else {
      assert (set x | low <= x < end :: (p, x)) == {};
    }
  }

  lemma {:induction false} TooFew(parts: set<Partition>, s: set<Record>, most: nat)
    requires forall r :: r in s ==> r.part in parts
    requires forall p :: p in parts ==> |OfPartition(s, p)| <= most
    ensures |s| <= |parts| * most
    decreases parts
  {
    if parts == {} {
      assert s == {};
    } else {
      var p :| p in parts;
      var own := OfPartition(s, p);
      var rest := s - own;
      OthersStay(s, p);
      hide OfPartition;
      TooFew(parts - {p}, rest, most);
      assert s == own + rest;
      MulStep(|parts - {p}|, most);
    }
  }

  lemma OthersStay(s: set<Record>, p: Partition)
    ensures forall r :: r in s - OfPartition(s, p) <==> r in s && r.part != p
    ensures forall q: Partition :: q != p ==> OfPartition(s - OfPartition(s, p), q) == OfPartition(s, q)
  {
    forall q: Partition | q != p ensures OfPartition(s - OfPartition(s, p), q) == OfPartition(s, q) {
    }
  }

  lemma MulStep(n: nat, most: nat)
    ensures (n + 1) * most == n * most + most
  {
  }

  /** What a cut batch reports was read to its end. */
  lemma CutBatchIsRead(w: Walk, chunk: nat, drainAfter: nat, cursors: map<Partition, ScanCursor>,
                       next: map<Partition, int>,
                       batch: RecordBatch, n: nat, cut: RecordBatch, seen: set<Record>)
    requires Coupled(w) && PolledFrom(w, chunk, drainAfter, cursors, next, batch) && IsCutBatch(batch, n, cut)
    requires seen == w.seen + Visited(batch.records, n, w.parked)
    ensures w.newestFirst ==>
        forall p :: p in cut.chunks && !cut.chunks[p].forced && p !in w.stuck && p !in w.parked ==>
              ChunkRead(w.log, w.ranges, seen, w.frontier, p, cut.chunks[p].lower)
    ensures !w.newestFirst ==> AreEnded(w.log, w.ranges, seen, cut.ended - w.parked)
  {
    if w.newestFirst {
      forall p | p in cut.chunks && !cut.chunks[p].forced && p !in w.stuck && p !in w.parked
        ensures ChunkRead(w.log, w.ranges, seen, w.frontier, p, cut.chunks[p].lower)
      {
        assert p in batch.chunks && !IsOpen(batch, n, p);
        ChunkVisited(w, chunk, drainAfter, cursors, next, batch, n, p);
      }
    } else {
      forall r | r in InRanges(w.log, w.ranges) && r.part in cut.ended - w.parked ensures r in seen {
        var p := r.part;
        assert p in batch.ended && !IsOpen(batch, n, p);
        ChunkVisited(w, chunk, drainAfter, cursors, next, batch, n, p);
        assert r in Own(w, p);
      }
    }
  }

  lemma WholeBatch(batch: RecordBatch, cut: RecordBatch)
    requires IsCutBatch(batch, |batch.records|, cut)
    ensures cut.drained == batch.drained && cut.ended == batch.ended && cut.chunks == batch.chunks
  {
    assert forall p :: !IsOpen(batch, |batch.records|, p);
  }

  lemma BudgetAdvancesAll(w: Walk, chunk: nat, drainAfter: nat, cursors: map<Partition, ScanCursor>,
                          next: map<Partition, int>,
                          batch: RecordBatch, n: nat, cut: RecordBatch, seen: set<Record>,
                          frontier: map<Partition, int>, stuck: set<Partition>)
    requires Coupled(w) && w.newestFirst && PolledFrom(w, chunk, drainAfter, cursors, next, batch)
        && IsCutBatch(batch, n, cut)
    requires seen == w.seen + Visited(batch.records, n, w.parked) && IsSeen(w.log, w.ranges, seen)
    requires FinishedChunks(cut.chunks, w.parked, w.stuck, w.frontier, stuck, frontier)
    ensures forall p :: p in w.ranges && p in frontier && p !in w.parked && p !in stuck ==>
              MovedOn(w.ranges, chunk, seen, frontier, p)
    ensures forall p :: p in frontier && p in w.frontier ==> frontier[p] <= w.frontier[p]
    ensures frontier.Keys == w.frontier.Keys
  {
    forall p | p in w.ranges && p in frontier && p !in w.parked && p !in stuck
      ensures MovedOn(w.ranges, chunk, seen, frontier, p)
    {
      BudgetAdvances(w, chunk, drainAfter, cursors, next, batch, n, cut, seen, frontier, stuck, p);
    }
    CutBatchIsRead(w, chunk, drainAfter, cursors, next, batch, n, cut, seen);
    forall p | p in frontier && p in w.frontier ensures frontier[p] <= w.frontier[p] {
      assert p in cut.chunks && !cut.chunks[p].forced && p !in w.stuck && p !in w.parked ==>
        ChunkRead(w.log, w.ranges, seen, w.frontier, p, cut.chunks[p].lower);
    }
  }

  /** A drained partition that was neither given up nor parked was read down to its start. */
  ghost predicate DrainedOver(ranges: map<Partition, Range>, frontier: map<Partition, int>, drained: set<Partition>,
                              stuck: set<Partition>, parked: set<Partition>)
  {
    forall p ::
      p in drained && p in ranges && p in frontier && p !in parked && p !in stuck ==> frontier[p] <= ranges[p].start
  }

  lemma AppliedIsOver(w: Walk, chunk: nat, drainAfter: nat, cursors: map<Partition, ScanCursor>,
                      next: map<Partition, int>,
                      batch: RecordBatch, drained: set<Partition>, stuck: set<Partition>, frontier: map<Partition, int>)
    requires Coupled(w) && w.newestFirst && PolledFrom(w, chunk, drainAfter, cursors, next, batch)
    requires Applied(w, batch, drained, stuck, frontier)
    ensures DrainedOver(w.ranges, frontier, drained, stuck, w.parked)
  {
    forall p | p in drained && p in w.ranges && p in frontier && p !in w.parked && p !in stuck
      ensures frontier[p] <= w.ranges[p].start
    {
      assert CoupledAt(w, p);
    }
  }

  lemma CoupledIsOver(w: Walk)
    requires Coupled(w) && w.newestFirst
    ensures DrainedOver(w.ranges, w.frontier, w.drained, w.stuck, w.parked)
  {
    forall p | p in w.drained && p in w.ranges && p in w.frontier && p !in w.parked && p !in w.stuck
      ensures w.frontier[p] <= w.ranges[p].start
    {
      assert CoupledAt(w, p);
    }
  }

  /** Nothing is left to read once every partition is drained. */
  lemma NoCursors(w: Walk)
    requires Coupled(w) && w.cursors.Keys == {}
    ensures forall p :: p in w.ranges ==> p in w.drained
  {
    forall p | p in w.ranges ensures p in w.drained {
      assert CoupledAt(w, p);
    }
  }
}
