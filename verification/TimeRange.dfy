/** Time bounds of searches, pages and copies: resolveTimestampOffsets of
    internal/kafka/offsets_resolve.go, as far as its result narrows what is read. */
module TimeRange {
  import opened Options
  import opened Records
  import opened SearchState
  import opened SearchCall
  import opened ConsumeCall

  /** o is the offset of p's first record at or after a time, or lies behind all of p's records. */
  ghost predicate IsFirstAt(log: set<Record>, p: Partition, time: int, o: int) {
    && (forall r :: r in log && r.part == p && r.off < o ==> r.ts < time)
    && ((exists r :: r in log && r.part == p && r.off == o && r.ts >= time)
        || forall r :: r in log && r.part == p ==> r.off < o)
  }

  /** What the lookup of a bound gives; partitions it does not know of are absent. */
  ghost predicate AreFirstAt(log: set<Record>, time: Option<int>, offsets: map<Partition, int>) {
    forall p :: p in offsets ==> time.Some? && IsFirstAt(log, p, time.value, offsets[p])
  }

  /** A record of the topic within the time bounds. */
  ghost predicate IsTimed(log: set<Record>, offs: TopicOffsets, from: Option<int>, to: Option<int>, r: Record) {
    && r in log && !r.control && r.part in offs.parts
    && (if r.part in offs.start then offs.start[r.part] else 0) <= r.off
    && r.off < (if r.part in offs.end then offs.end[r.part] else 0)
    && (from.Some? ==> from.value <= r.ts) && (to.Some? ==> r.ts < to.value)
  }

  /** Both bounds are known in every partition. */
  predicate AreKnown(offs: TopicOffsets, from: Option<int>, to: Option<int>) {
    forall p :: p in offs.parts ==> (from.Some? ==> p in offs.fromTS) && (to.Some? ==> p in offs.toTS)
  }

  lemma OffsetsAreTimes(log: set<Record>, time: Option<int>, offsets: map<Partition, int>, r: Record)
    requires Ordered(log) && AreFirstAt(log, time, offsets) && r in log && r.part in offsets
    ensures time.Some? && (offsets[r.part] <= r.off <==> time.value <= r.ts)
  {
    assert IsFirstAt(log, r.part, time.value, offsets[r.part]);
  }

  /** With ordered timestamps a search without cursors reads exactly the records of its time range. */
  lemma SearchIsTimed(log: set<Record>, offs: TopicOffsets, from: Option<int>, to: Option<int>, newestFirst: bool,
                      ranges: map<Partition, Range>)
    requires Ordered(log) && AreFirstAt(log, from, offs.fromTS) && AreFirstAt(log, to, offs.toTS)
        && AreKnown(offs, from, to)
    requires IsResolved(newestFirst, map[], offs, ranges)
    ensures forall r :: r in InRanges(log, ranges) <==> IsTimed(log, offs, from, to, r)
  {
    ResolvedCovers(newestFirst, map[], offs, ranges);
    hide *;
    forall r ensures r in InRanges(log, ranges) <==> IsTimed(log, offs, from, to, r) {
      BothBounds(log, offs, from, to, r);
      CoveredIsTimed(log, offs, from, to, ranges, r);
    }
  }

  lemma BothBounds(log: set<Record>, offs: TopicOffsets, from: Option<int>, to: Option<int>, r: Record)
    requires Ordered(log) && AreFirstAt(log, from, offs.fromTS) && AreFirstAt(log, to, offs.toTS)
    ensures r in log && r.part in offs.fromTS ==> from.Some? && (offs.fromTS[r.part] <= r.off <==> from.value <= r.ts)
    ensures r in log && r.part in offs.toTS ==> to.Some? && (r.off < offs.toTS[r.part] <==> r.ts < to.value)
  {
    hide AreFirstAt, Ordered;
    if r in log && r.part in offs.fromTS {
      OffsetsAreTimes(log, from, offs.fromTS, r);
    }
    if r in log && r.part in offs.toTS {
      OffsetsAreTimes(log, to, offs.toTS, r);
    }
  }

  lemma CoveredIsTimed(log: set<Record>, offs: TopicOffsets, from: Option<int>, to: Option<int>,
                       ranges: map<Partition, Range>, r: Record)
    requires AreKnown(offs, from, to)
    requires r in log && r.part in offs.fromTS ==> from.Some? && (offs.fromTS[r.part] <= r.off <==> from.value <= r.ts)
    requires r in log && r.part in offs.toTS ==> to.Some? && (r.off < offs.toTS[r.part] <==> r.ts < to.value)
    requires Covers(ranges, r.part, r.off) <==>
              && r.part in offs.parts
              && (if r.part in offs.start then offs.start[r.part] else 0) <= r.off
              && r.off < (if r.part in offs.end then offs.end[r.part] else 0)
              && (r.part in offs.fromTS ==> offs.fromTS[r.part] <= r.off)
              && (r.part in offs.toTS ==> r.off < offs.toTS[r.part])
    ensures r in InRanges(log, ranges) <==> IsTimed(log, offs, from, to, r)
  {
    assert r in InRanges(log, ranges) <==> r in log && !r.control && Covers(ranges, r.part, r.off);
    hide InRanges, Covers;
  }

  /** The same for the first page from the start, a time or the end, and so for a copy. */
  lemma QueryIsTimed(log: set<Record>, offs: TopicOffsets, from: Option<int>, to: Option<int>, opts: ConsumeOptions,
                     ranges: map<Partition, Range>)
    requires Ordered(log) && AreFirstAt(log, from, offs.fromTS) && AreFirstAt(log, to, offs.toTS)
        && AreKnown(offs, from, to)
    requires opts.from != Unset && opts.from != FromOffset && opts.cursorUpperBounds == map[]
        && IsQuery(opts, offs, ranges)
    ensures forall r :: r in InRanges(log, ranges) <==> IsTimed(log, offs, from, to, r)
  {
    QueryCovers(opts, offs, ranges);
    hide *;
    forall r ensures r in InRanges(log, ranges) <==> IsTimed(log, offs, from, to, r) {
      BothBounds(log, offs, from, to, r);
      CoveredIsTimed(log, offs, from, to, ranges, r);
    }
  }

  /** Where a lower bound is absent the whole partition is read: it stands in the way of the
      time range iff a record of the partition, up to the upper bound, is older. */
  lemma AbsentReadsAll(log: set<Record>, offs: TopicOffsets, from: int, to: Option<int>, newestFirst: bool,
                       ranges: map<Partition, Range>, p: Partition)
    requires Ordered(log) && AreFirstAt(log, Some(from), offs.fromTS) && AreFirstAt(log, to, offs.toTS)
    requires IsResolved(newestFirst, map[], offs, ranges) && p !in offs.fromTS && (to.Some? ==> p in offs.toTS)
    ensures (forall r: Record ::
        r.part == p ==> (r in InRanges(log, ranges) <==> IsTimed(log, offs, Some(from), to, r)))
            <==> forall r: Record :: r.part == p && IsTimed(log, offs, None, to, r) ==> from <= r.ts
  {
    ResolvedCovers(newestFirst, map[], offs, ranges);
    hide IsResolved, Ordered, AreFirstAt;
    forall r: Record | r.part == p ensures r in InRanges(log, ranges) <==> IsTimed(log, offs, None, to, r) {
      assert r in InRanges(log, ranges) <==> r in log && !r.control && Covers(ranges, r.part, r.off);
      BothBounds(log, offs, Some(from), to, r);
    }
  }
}
