/** What the fields of a search call mean, and what one step does to them. */
module SearchState {
  import opened Sets
  import opened Records
  import opened Sorting
  import opened RecordSource
  import opened TimeMerge

  /** What the matcher says about a record; Unreadable is a match error. */
  datatype Outcome = Miss | Hit | Unreadable

  type Matcher = Record -> Outcome

  /** Offset and timestamp of a record. */
  datatype Mark = Mark(off: int, ts: int)

  function Count(counts: map<Partition, nat>, p: Partition): nat {
    if p in counts then counts[p] else 0
  }

  function OffsetsIn(offsets: map<Partition, seq<int>>, p: Partition): seq<int> {
    if p in offsets then offsets[p] else []
  }

  const ERROR_OFFSETS_CAP := 50

  predicate IsBelow(a: (Partition, int), b: (Partition, int)) {
    a.0 < b.0 || (a.0 == b.0 && a.1 < b.1)
  }

  predicate AreAscending(list: seq<(Partition, int)>) {
    forall i, j :: 0 <= i < j < |list| ==> IsBelow(list[i], list[j])
  }

  /** list holds parse errors of the given ones, all of them up to the cap, by partition and offset. */
  ghost predicate IsErrorList(list: seq<(Partition, int)>, errors: set<Record>) {
    && AreAscending(list)
    && (forall s :: s in list ==> s in Spots(errors))
    && |list| == Min(50, |errors|)
  }

  // --- the meaning of the fields, in terms of the records seen ---

  ghost function Hits(matcher: Matcher, s: set<Record>): set<Record> {
    set r | r in s && matcher(r) == Hit
  }

  ghost function Errors(matcher: Matcher, s: set<Record>): set<Record> {
    set r | r in s && matcher(r) == Unreadable
  }

  /** The matches a call can report: newest-first only those at or above their partition's frontier. */
  ghost function Confirmed(matcher: Matcher, newestFirst: bool, seen: set<Record>,
                           frontier: map<Partition, int>): set<Record> {
    set r | r in seen && matcher(r) == Hit && (newestFirst ==> r.part in frontier && frontier[r.part] <= r.off)
  }

  ghost function Pending(matcher: Matcher, seen: set<Record>, frontier: map<Partition, int>,
                         p: Partition): set<Record> {
    set r | r in seen && matcher(r) == Hit && r.part == p && p in frontier && r.off < frontier[p]
  }

  ghost function Spots(s: set<Record>): set<(Partition, int)> {
    set r | r in s :: (r.part, r.off)
  }

  /** All records the range of a call shows. */
  ghost function InRanges(log: set<Record>, ranges: map<Partition, Range>): set<Record> {
    set r | r in log && !r.control && r.part in ranges && ranges[r.part].start <= r.off < ranges[r.part].end
  }

  /** The ranges hold offset o of partition p. */
  ghost predicate Covers(ranges: map<Partition, Range>, p: Partition, o: int) {
    p in ranges && ranges[p].start <= o < ranges[p].end
  }

  ghost predicate IsSeen(log: set<Record>, ranges: map<Partition, Range>, seen: set<Record>) {
    IsLog(log) && seen <= InRanges(log, ranges)
  }

  ghost predicate AreMatches(matcher: Matcher, seen: set<Record>, matches: seq<Record>) {
    NoDup(matches) && ToSet(matches) == Hits(matcher, seen)
  }

  /** `offsets` lists the offsets of s per partition, each once. */
  ghost predicate AreOffsets(s: set<Record>, offsets: map<Partition, seq<int>>) {
    && (forall p :: p in offsets ==> NoDup(offsets[p]))
    && (forall p, o :: p in offsets && o in offsets[p] ==> (p, o) in Spots(s))
    && (forall r :: r in s ==> r.part in offsets && r.off in offsets[r.part])
  }

  ghost predicate AreCounts(matcher: Matcher, newestFirst: bool, seen: set<Record>, frontier: map<Partition, int>,
                            confirmed: nat, confirmedIn: map<Partition, nat>)
  {
    && confirmed == |Confirmed(matcher, newestFirst, seen, frontier)|
    && (forall p: Partition ::
      Count(confirmedIn, p) == |OfPartition(Confirmed(matcher, newestFirst, seen, frontier), p)|)
  }

  ghost predicate ArePending(matcher: Matcher, seen: set<Record>, frontier: map<Partition, int>,
                             pending: map<Partition, nat>) {
    forall p: Partition :: Count(pending, p) == |Pending(matcher, seen, frontier, p)|
  }

  ghost predicate IsFrontier(log: set<Record>, ranges: map<Partition, Range>, seen: set<Record>,
                             frontier: map<Partition, int>) {
    && frontier.Keys == ranges.Keys
    && (forall p :: p in ranges ==> ranges[p].start <= frontier[p] <= ranges[p].end)
    && (forall r :: r in InRanges(log, ranges) && frontier[r.part] <= r.off ==> r in seen)
  }

  ghost predicate IsLowest(r: Record, s: set<Record>) {
    r in s && forall q :: q in s && q.part == r.part ==> r.off <= q.off
  }

  ghost predicate IsHighest(r: Record, s: set<Record>) {
    r in s && forall q :: q in s && q.part == r.part ==> q.off <= r.off
  }

  /** low marks, per partition, the lowest record of s. */
  ghost predicate AreLowest(s: set<Record>, low: map<Partition, Mark>) {
    && (forall r :: r in s ==> r.part in low)
    && (forall p :: p in low ==> exists r :: IsLowest(r, s) && r.part == p && low[p] == Mark(r.off, r.ts))
  }

  /** lowTS holds, per partition, the timestamp of the lowest record of s. */
  ghost predicate AreLowestTS(s: set<Record>, lowTS: map<Partition, int>) {
    && (forall r :: r in s ==> r.part in lowTS)
    && (forall p :: p in lowTS ==> exists r :: IsLowest(r, s) && r.part == p && lowTS[p] == r.ts)
  }

  ghost predicate AreHighest(s: set<Record>, high: map<Partition, int>, highTS: map<Partition, int>) {
    && high.Keys == highTS.Keys
    && (forall r :: r in s ==> r.part in high)
    && (forall p :: p in high ==> exists r :: IsHighest(r, s) && r.part == p && high[p] == r.off && highTS[p] == r.ts)
  }

  ghost function Below(seen: set<Record>, frontier: map<Partition, int>): set<Record> {
    set r | r in seen && r.part in frontier && r.off < frontier[r.part]
  }

  ghost function AtOrAbove(seen: set<Record>, frontier: map<Partition, int>): set<Record> {
    set r | r in seen && r.part in frontier && frontier[r.part] <= r.off
  }

  /** Oldest-first, nothing before a seen record of its partition is left out. */
  ghost predicate IsGapFree(log: set<Record>, ranges: map<Partition, Range>, seen: set<Record>) {
    forall r, q :: r in InRanges(log, ranges) && q in seen && r.part == q.part && r.off <= q.off ==> r in seen
  }

  ghost predicate AreEnded(log: set<Record>, ranges: map<Partition, Range>, seen: set<Record>, ended: set<Partition>) {
    forall r :: r in InRanges(log, ranges) && r.part in ended ==> r in seen
  }

  // --- one visited record ---

  lemma VisitMatches(matcher: Matcher, seen: set<Record>, matches: seq<Record>, rec: Record)
    requires AreMatches(matcher, seen, matches) && rec !in seen
    ensures AreMatches(matcher, seen + {rec}, if matcher(rec) == Hit then matches + [rec] else matches)
  {
    assert rec !in ToSet(matches);
    var more := if matcher(rec) == Hit then matches + [rec] else matches;
    forall x ensures x in ToSet(more) <==> x in Hits(matcher, seen + {rec}) {
      assert x in more <==> x in ToSet(matches) || (x == rec && matcher(rec) == Hit);
    }
    assert ToSet(more) == Hits(matcher, seen + {rec});
  }

  lemma VisitOffsets(s: set<Record>, offsets: map<Partition, seq<int>>, rec: Record)
    requires AreOffsets(s, offsets) && IsLog(s + {rec}) && rec !in s
    ensures AreOffsets(s + {rec}, offsets[rec.part := OffsetsIn(offsets, rec.part) + [rec.off]])
  {
    var more := offsets[rec.part := OffsetsIn(offsets, rec.part) + [rec.off]];
    assert (rec.part, rec.off) !in Spots(s);
    forall p, o | p in more && o in more[p] ensures (p, o) in Spots(s + {rec}) {
      if p in offsets && o in offsets[p] {
        var r :| r in s && (r.part, r.off) == (p, o);
        assert r in s + {rec};
      } else {
        assert rec in s + {rec};
      }
    }
  }

  lemma VisitCounts(matcher: Matcher, newestFirst: bool, seen: set<Record>, frontier: map<Partition, int>,
                    confirmed: nat, confirmedIn: map<Partition, nat>, rec: Record)
    requires AreCounts(matcher, newestFirst, seen, frontier, confirmed, confirmedIn) && rec !in seen
    requires newestFirst ==> rec.part in frontier && rec.off < frontier[rec.part]
    ensures
      var p := rec.part;
      if !newestFirst && matcher(rec) == Hit
      then AreCounts(matcher, newestFirst, seen + {rec}, frontier, confirmed + 1,
                     confirmedIn[p := Count(confirmedIn, p) + 1])
      else AreCounts(matcher, newestFirst, seen + {rec}, frontier, confirmed, confirmedIn)
  {
    var c, more := Confirmed(matcher, newestFirst, seen, frontier),
      Confirmed(matcher, newestFirst, seen + {rec}, frontier);
    if !newestFirst && matcher(rec) == Hit {
      assert more == c + {rec};
      CountOneMore(c, confirmedIn, rec);
    } else {
      assert more == c;
    }
  }

  lemma CountOneMore(c: set<Record>, counts: map<Partition, nat>, rec: Record)
    requires rec !in c && forall p: Partition :: Count(counts, p) == |OfPartition(c, p)|
    ensures forall p: Partition ::
        Count(counts[rec.part := Count(counts, rec.part) + 1], p) == |OfPartition(c + {rec}, p)|
  {
    hide OfPartition;
    forall p: Partition
      ensures Count(counts[rec.part := Count(counts, rec.part) + 1], p) == |OfPartition(c + {rec}, p)|
    {
      OfPartitionPlus(c, {rec}, rec.part, p);
    }
  }

  lemma OfPartitionPlus(c: set<Record>, more: set<Record>, p: Partition, q: Partition)
    requires forall r :: r in more ==> r.part == p
    ensures OfPartition(c + more, q) == if q == p then OfPartition(c, q) + more else OfPartition(c, q)
    ensures c !! more ==> OfPartition(c, q) !! more
  {
  }

  lemma VisitPending(matcher: Matcher, seen: set<Record>, frontier: map<Partition, int>, pending: map<Partition, nat>,
                     rec: Record)
    requires ArePending(matcher, seen, frontier, pending) && rec !in seen
    requires rec.part in frontier && rec.off < frontier[rec.part]
    ensures ArePending(matcher, seen + {rec}, frontier,
              if matcher(rec) == Hit then pending[rec.part := Count(pending, rec.part) + 1] else pending)
  {
    var counts := if matcher(rec) == Hit then pending[rec.part := Count(pending, rec.part) + 1] else pending;
    forall p: Partition ensures Count(counts, p) == |Pending(matcher, seen + {rec}, frontier, p)| {
      var before := Pending(matcher, seen, frontier, p);
      assert Pending(matcher, seen + {rec}, frontier, p) ==
        if p == rec.part && matcher(rec) == Hit then before + {rec} else before;
    }
  }

  lemma VisitErrors(matcher: Matcher, seen: set<Record>, errored: map<Partition, seq<int>>, rec: Record)
    requires AreOffsets(Errors(matcher, seen), errored) && IsLog(seen + {rec}) && rec !in seen
    ensures AreOffsets(Errors(matcher, seen + {rec}),
              if matcher(rec) == Unreadable then errored[rec.part := OffsetsIn(errored, rec.part) + [rec.off]]
                else errored)
  {
    var errors := Errors(matcher, seen);
    if matcher(rec) == Unreadable {
      assert Errors(matcher, seen + {rec}) == errors + {rec};
      IsLogSubset(errors + {rec}, seen + {rec});
      VisitOffsets(errors, errored, rec);
    } else {
      assert Errors(matcher, seen + {rec}) == errors;
    }
  }

  lemma VisitFrontier(log: set<Record>, ranges: map<Partition, Range>, seen: set<Record>,
                      frontier: map<Partition, int>, rec: Record)
    requires IsFrontier(log, ranges, seen, frontier) && IsSeen(log, ranges, seen) && rec in InRanges(log, ranges)
        && rec !in seen
    ensures IsFrontier(log, ranges, seen + {rec}, frontier) && IsSeen(log, ranges, seen + {rec})
    ensures |seen + {rec}| == |seen| + 1
  {
  }

  lemma BelowGrows(seen: set<Record>, frontier: map<Partition, int>, rec: Record)
    requires rec.part in frontier && rec.off < frontier[rec.part]
    ensures Below(seen + {rec}, frontier) == Below(seen, frontier) + {rec}
    ensures AtOrAbove(seen + {rec}, frontier) == AtOrAbove(seen, frontier)
  {
  }

  lemma VisitInOrder(log: set<Record>, ranges: map<Partition, Range>, seen: set<Record>, rec: Record)
    requires IsLog(log) && IsGapFree(log, ranges, seen) && rec in InRanges(log, ranges)
    requires forall r :: r in InRanges(log, ranges) && r.part == rec.part && r.off < rec.off ==> r in seen
    ensures IsGapFree(log, ranges, seen + {rec})
    ensures forall ended :: AreEnded(log, ranges, seen, ended) ==> AreEnded(log, ranges, seen + {rec}, ended)
  {
  }

  lemma VisitLowest(s: set<Record>, low: map<Partition, Mark>, rec: Record)
    requires AreLowest(s, low)
    ensures AreLowest(s + {rec},
              if rec.part !in low || rec.off < low[rec.part].off then low[rec.part := Mark(rec.off, rec.ts)] else low)
  {
    var more := if rec.part !in low || rec.off < low[rec.part].off then low[rec.part := Mark(rec.off, rec.ts)] else low;
    forall p | p in more
      ensures exists r :: IsLowest(r, s + {rec}) && r.part == p && more[p] == Mark(r.off, r.ts)
    {
      if p in low {
        var r :| IsLowest(r, s) && r.part == p && low[p] == Mark(r.off, r.ts);
        assert IsLowest(if more[p] == low[p] then r else rec, s + {rec});
      } else {
        assert IsLowest(rec, s + {rec});
      }
    }
  }

  lemma VisitHighest(s: set<Record>, high: map<Partition, int>, highTS: map<Partition, int>, rec: Record)
    requires AreHighest(s, high, highTS)
    ensures
      if rec.part !in high || rec.off > high[rec.part]
      then AreHighest(s + {rec}, high[rec.part := rec.off], highTS[rec.part := rec.ts])
      else AreHighest(s + {rec}, high, highTS)
  {
    var raised := rec.part !in high || rec.off > high[rec.part];
    var more := if raised then high[rec.part := rec.off] else high;
    var moreTS := if raised then highTS[rec.part := rec.ts] else highTS;
    if rec.part !in high {
      FirstIsHighest(s, rec);
    }
    hide IsHighest;
    forall p | p in more
      ensures exists r :: IsHighest(r, s + {rec}) && r.part == p && more[p] == r.off && moreTS[p] == r.ts
    {
      if p in high {
        var r :| IsHighest(r, s) && r.part == p && high[p] == r.off && highTS[p] == r.ts;
        HighestAfter(s, rec, r);
      }
    }
  }

  lemma FirstIsHighest(s: set<Record>, rec: Record)
    requires forall r :: r in s ==> r.part != rec.part
    ensures IsHighest(rec, s + {rec})
  {
  }

  lemma HighestAfter(s: set<Record>, rec: Record, h: Record)
    requires IsHighest(h, s)
    ensures IsHighest(if rec.part == h.part && rec.off > h.off then rec else h, s + {rec})
  {
  }

  // --- one finished chunk, newest-first ---

  /** The chunk [lower, frontier[p]) was read to its end, and nothing below it. */
  ghost predicate ChunkRead(log: set<Record>, ranges: map<Partition, Range>, seen: set<Record>,
                            frontier: map<Partition, int>, p: Partition, lower: int)
  {
    && p in ranges && p in frontier && ranges[p].start <= lower <= frontier[p]
    && (forall r :: r in InRanges(log, ranges) && r.part == p && lower <= r.off ==> r in seen)
    && (forall r :: r in seen && r.part == p ==> lower <= r.off)
  }

  lemma LowerFrontier(log: set<Record>, ranges: map<Partition, Range>, seen: set<Record>,
                      frontier: map<Partition, int>, p: Partition, lower: int)
    requires IsFrontier(log, ranges, seen, frontier) && ChunkRead(log, ranges, seen, frontier, p, lower)
    ensures IsFrontier(log, ranges, seen, frontier[p := lower])
  {
  }

  lemma LowerCounts(matcher: Matcher, log: set<Record>, ranges: map<Partition, Range>, seen: set<Record>,
                    frontier: map<Partition, int>, p: Partition, lower: int,
                    confirmed: nat, confirmedIn: map<Partition, nat>, pending: map<Partition, nat>)
    requires ChunkRead(log, ranges, seen, frontier, p, lower)
    requires AreCounts(matcher, true, seen, frontier, confirmed, confirmedIn)
        && ArePending(matcher, seen, frontier, pending)
    ensures AreCounts(matcher, true, seen, frontier[p := lower], confirmed + Count(pending, p),
                      confirmedIn[p := Count(confirmedIn, p) + Count(pending, p)])
    ensures ArePending(matcher, seen, frontier[p := lower], pending[p := 0])
  {
    LowerSets(matcher, log, ranges, seen, frontier, p, lower);
    var c, more := Confirmed(matcher, true, seen, frontier), Pending(matcher, seen, frontier, p);
    hide ChunkRead, Confirmed, Pending;
    CountMore(c, more, confirmedIn, p);
    var after := frontier[p := lower];
    forall q: Partition ensures Count(pending[p := 0], q) == |Pending(matcher, seen, after, q)| {
      assert q != p ==> Count(pending[p := 0], q) == Count(pending, q);
    }
  }

  lemma CountMore(c: set<Record>, more: set<Record>, counts: map<Partition, nat>, p: Partition)
    requires c !! more && (forall r :: r in more ==> r.part == p)
    requires forall q: Partition :: Count(counts, q) == |OfPartition(c, q)|
    ensures |c + more| == |c| + |more|
    ensures forall q: Partition :: Count(counts[p := Count(counts, p) + |more|], q) == |OfPartition(c + more, q)|
  {
    hide OfPartition;
    forall q: Partition ensures Count(counts[p := Count(counts, p) + |more|], q) == |OfPartition(c + more, q)| {
      OfPartitionPlus(c, more, p, q);
    }
  }

  lemma LowerSets(matcher: Matcher, log: set<Record>, ranges: map<Partition, Range>, seen: set<Record>,
                  frontier: map<Partition, int>, p: Partition, lower: int)
    requires ChunkRead(log, ranges, seen, frontier, p, lower)
    ensures Confirmed(matcher, true, seen, frontier) !! Pending(matcher, seen, frontier, p)
    ensures forall r :: r in Pending(matcher, seen, frontier, p) ==> r.part == p
    ensures Confirmed(matcher, true, seen, frontier[p := lower]) ==
            Confirmed(matcher, true, seen, frontier) + Pending(matcher, seen, frontier, p)
    ensures forall q: Partition ::
              Pending(matcher, seen, frontier[p := lower], q) == (if q == p then {}
                else Pending(matcher, seen, frontier, q))
  {
    forall q: Partition
      ensures Pending(matcher, seen, frontier[p := lower], q) == if q == p then {}
          else Pending(matcher, seen, frontier, q)
    {
    }
  }

  lemma LowerMarks(log: set<Record>, ranges: map<Partition, Range>, seen: set<Record>,
                   frontier: map<Partition, int>, p: Partition, lower: int, pendingLow: map<Partition, Mark>)
    requires ChunkRead(log, ranges, seen, frontier, p, lower)
    requires AreLowest(Below(seen, frontier), pendingLow)
    ensures AreLowest(Below(seen, frontier[p := lower]), pendingLow - {p})
  {
    var below, after := Below(seen, frontier), Below(seen, frontier[p := lower]);
    assert after == set r | r in below && r.part != p;
    hide Below, ChunkRead;
    forall q | q in pendingLow - {p}
      ensures exists r :: IsLowest(r, after) && r.part == q && (pendingLow - {p})[q] == Mark(r.off, r.ts)
    {
      var r :| IsLowest(r, below) && r.part == q && pendingLow[q] == Mark(r.off, r.ts);
      assert IsLowest(r, after);
    }
  }

  lemma LowerMarksTS(log: set<Record>, ranges: map<Partition, Range>, seen: set<Record>,
                     frontier: map<Partition, int>, p: Partition, lower: int,
                     pendingLow: map<Partition, Mark>, frontierTS: map<Partition, int>)
    requires ChunkRead(log, ranges, seen, frontier, p, lower)
    requires AreLowest(Below(seen, frontier), pendingLow) && AreLowestTS(AtOrAbove(seen, frontier), frontierTS)
    ensures AreLowestTS(AtOrAbove(seen, frontier[p := lower]),
              if p in pendingLow then frontierTS[p := pendingLow[p].ts] else frontierTS)
  {
    var above, below, after := AtOrAbove(seen, frontier), Below(seen, frontier), AtOrAbove(seen, frontier[p := lower]);
    assert after == above + set r | r in below && r.part == p;
    assert forall r, q :: r in below && q in above && r.part == q.part ==> r.off < q.off;
    hide Below, AtOrAbove, ChunkRead;
    LowestStay(above, below, after, p);
    var lowTS := if p in pendingLow then frontierTS[p := pendingLow[p].ts] else frontierTS;
    forall q | q in lowTS
      ensures exists r :: IsLowest(r, after) && r.part == q && lowTS[q] == r.ts
    {
      if q == p && p in pendingLow {
        var r :| IsLowest(r, below) && r.part == q && pendingLow[q] == Mark(r.off, r.ts);
      } else {
        var r :| IsLowest(r, above) && r.part == q && frontierTS[q] == r.ts;
      }
    }
  }

  /** Adding the records of p that lie below keeps the lowest of the others, and gives p its own. */
  lemma LowestStay(above: set<Record>, below: set<Record>, after: set<Record>, p: Partition)
    requires after == above + set r | r in below && r.part == p
    requires forall r, q :: r in below && q in above && r.part == q.part ==> r.off < q.off
    ensures forall r :: IsLowest(r, below) && r.part == p ==> IsLowest(r, after)
    ensures forall r ::
        IsLowest(r, above) && (r.part != p || forall q :: q in below ==> q.part != p) ==> IsLowest(r, after)
  {
  }

  lemma CountsAreSizes(matcher: Matcher, newestFirst: bool, seen: set<Record>, frontier: map<Partition, int>,
                       confirmed: nat, confirmedIn: map<Partition, nat>)
    requires AreCounts(matcher, newestFirst, seen, frontier, confirmed, confirmedIn)
    ensures confirmed == |Confirmed(matcher, newestFirst, seen, frontier)|
  {
  }

  /** The matches on a page of at most `k`. */
  ghost function PageSet(m: set<Record>, k: nat, newestFirst: bool): set<Record> {
    if IsLog(m) then Kept(m, k, newestFirst) else {}
  }

  /** m ranks last in the page. */
  ghost predicate IsLastOf(m: Record, page: set<Record>, newestFirst: bool) {
    m in page && forall q :: q in page && q != m ==> Before(q, m, newestFirst)
  }

  lemma LastOfSorted(page: seq<Record>, newestFirst: bool)
    requires SortedBefore(page, newestFirst) && page != []
    ensures IsLastOf(page[|page| - 1], ToSet(page), newestFirst)
  {
  }

  lemma EndedGrows(log: set<Record>, ranges: map<Partition, Range>, seen: set<Record>, a: set<Partition>,
                   b: set<Partition>)
    ensures AreEnded(log, ranges, seen, a) && AreEnded(log, ranges, seen, b) ==> AreEnded(log, ranges, seen, a + b)
  {
  }

  lemma ChunkReadElsewhere(log: set<Record>, ranges: map<Partition, Range>, seen: set<Record>,
                           f0: map<Partition, int>, f1: map<Partition, int>, p: Partition, lower: int)
    requires ChunkRead(log, ranges, seen, f0, p, lower) && f1.Keys == f0.Keys && (p in f0 ==> f1[p] == f0[p])
    ensures ChunkRead(log, ranges, seen, f1, p, lower)
  {
  }

  /** Unforced chunks move their partition's frontier down, forced ones leave it
      stuck; parked and stuck partitions stay as they are. */
  ghost predicate FinishedChunks(chunks: map<Partition, FinishedChunk>, parked: set<Partition>,
                                 stuck0: set<Partition>, f0: map<Partition, int>,
                                 stuck1: set<Partition>, f1: map<Partition, int>)
  {
    FinishedExcept(chunks, {}, parked, stuck0, f0, stuck1, f1)
  }

  ghost predicate FinishedExcept(chunks: map<Partition, FinishedChunk>, todo: set<Partition>, parked: set<Partition>,
                                 stuck0: set<Partition>, f0: map<Partition, int>,
                                 stuck1: set<Partition>, f1: map<Partition, int>)
  {
    && (forall p :: p in stuck1 <==> p in stuck0 || (p in chunks && p !in todo && chunks[p].forced && p !in parked))
    && f1.Keys == f0.Keys
    && (forall p :: p in f0 ==>
          f1[p] == if p in chunks && p !in todo && !chunks[p].forced && p !in stuck0 && p !in parked
            then chunks[p].lower else f0[p])
  }

  // --- pages that no unread match can change ---

  /** Every match of p outside c ranks behind the page that c forms. */
  ghost predicate Outranked(c: set<Record>, all: set<Record>, limit: nat, newestFirst: bool, p: Partition) {
    forall r, k ::
      r in all && r.part == p && r !in c && k in PageSet(c, limit, newestFirst) ==> Before(k, r, newestFirst)
  }

  ghost predicate AllOutranked(c: set<Record>, all: set<Record>, limit: nat, newestFirst: bool, parts: set<Partition>) {
    forall p :: p in parts ==> Outranked(c, all, limit, newestFirst, p)
  }

  lemma BeforeIsTransitive(a: Record, b: Record, c: Record, newestFirst: bool)
    requires Before(a, b, newestFirst) && !Before(c, b, newestFirst)
    ensures Before(a, c, newestFirst)
  {
  }

  /** Confirming more matches only moves the page's last match to an earlier rank. */
  lemma OutrankedGrows(c: set<Record>, c2: set<Record>, all: set<Record>, limit: nat, newestFirst: bool, p: Partition)
    requires c <= c2 <= all && IsLog(all) && Ordered(all) && limit <= |c|
    requires Outranked(c, all, limit, newestFirst, p)
    ensures Outranked(c2, all, limit, newestFirst, p)
  {
    IsLogSubset(c, all);
    IsLogSubset(c2, all);
    var page, page2 := Kept(c, limit, newestFirst), Kept(c2, limit, newestFirst);
    KeptIsFirst(c2, limit, newestFirst);
    SubsetSize(c, c2);
    forall r, k | r in all && r.part == p && r !in c2 && k in page2 ensures Before(k, r, newestFirst) {
      if k !in page {
        var lost := OnlyInFirst(page, page2);
        assert Before(k, lost, newestFirst) && Before(lost, r, newestFirst);
        BeforeIsTransitive(k, lost, r, newestFirst);
      }
    }
  }

  /** A partition with `limit` confirmed matches of its own is outranked. */
  lemma OutrankedByCount(c: set<Record>, all: set<Record>, limit: nat, newestFirst: bool, p: Partition)
    requires c <= all && IsLog(all) && Ordered(all) && limit <= |OfPartition(c, p)|
    requires forall x, r :: x in c && r in all && r !in c && x.part == p == r.part ==> Ahead(x, r, newestFirst)
    ensures Outranked(c, all, limit, newestFirst, p)
  {
    IsLogSubset(c, all);
    var page, own := Kept(c, limit, newestFirst), OfPartition(c, p);
    KeptIsFirst(c, limit, newestFirst);
    SubsetSize(own, c);
    forall r | r in all && r.part == p && r !in c
      ensures forall k :: k in page ==> Before(k, r, newestFirst)
    {
      AheadIsBefore(own, all, r, newestFirst);
      BehindOwn(page, own, c, limit, r, newestFirst);
    }
  }

  lemma AheadIsBefore(own: set<Record>, all: set<Record>, r: Record, newestFirst: bool)
    requires Ordered(all) && own <= all && r in all && forall x ::
        x in own ==> x.part == r.part && Ahead(x, r, newestFirst)
    ensures forall x :: x in own ==> Before(x, r, newestFirst) && !Before(r, x, newestFirst)
  {
  }

  lemma BehindOwn(page: set<Record>, own: set<Record>, c: set<Record>, limit: nat, r: Record, newestFirst: bool)
    requires own <= c && page <= c && |page| <= limit <= |own| && KeepsFirst(c, page, newestFirst)
    requires forall x :: x in own ==> Before(x, r, newestFirst) && !Before(r, x, newestFirst)
    ensures forall k :: k in page ==> Before(k, r, newestFirst)
  {
    hide Before, IsLog;
    forall k | k in page && k !in own ensures Before(k, r, newestFirst) {
      if own <= page {
        SubsetSize(own + {k}, page);
        assert false;
      }
      var x :| x in own && x !in page;
      BeforeIsTransitive(k, x, r, newestFirst);
    }
  }

  /** So is one whose next unread record ranks at or after the page's last match. */
  lemma OutrankedByLast(c: set<Record>, all: set<Record>, limit: nat, newestFirst: bool, p: Partition, last: Record,
                        next: Record)
    requires IsLog(all) && c <= all && IsLastOf(last, PageSet(c, limit, newestFirst), newestFirst)
    requires !Before(next, last, newestFirst)
    requires forall r :: r in all && r.part == p && r !in c ==> !Before(r, next, newestFirst)
    ensures Outranked(c, all, limit, newestFirst, p)
  {
    IsLogSubset(c, all);
    forall r, k | r in all && r.part == p && r !in c && k in PageSet(c, limit, newestFirst)
      ensures Before(k, r, newestFirst)
    {
      assert r.part != last.part || r.off != last.off;
      assert Before(last, r, newestFirst);
      if k != last {
        BeforeIsTransitive(k, last, r, newestFirst);
      }
    }
  }

  lemma NextNewest(log: set<Record>, ranges: map<Partition, Range>, seen: set<Record>, frontier: map<Partition, int>,
                   frontierTS: map<Partition, int>, p: Partition, body: string)
    requires IsFrontier(log, ranges, seen, frontier) && AreLowestTS(AtOrAbove(seen, frontier), frontierTS)
    requires IsSeen(log, ranges, seen) && Ordered(InRanges(log, ranges)) && p in frontier && p in frontierTS
    ensures forall r :: r in InRanges(log, ranges) && r.part == p && r.off < frontier[p] ==>
              !Before(r, Record(p, frontier[p] - 1, frontierTS[p], false, body), true)
  {
    var low :| IsLowest(low, AtOrAbove(seen, frontier)) && low.part == p && frontierTS[p] == low.ts;
    assert low in InRanges(log, ranges);
  }

  lemma NextOldest(log: set<Record>, ranges: map<Partition, Range>, seen: set<Record>,
                   highest: map<Partition, int>, highestTS: map<Partition, int>, p: Partition, body: string)
    requires AreHighest(seen, highest, highestTS) && IsGapFree(log, ranges, seen)
    requires IsSeen(log, ranges, seen) && Ordered(InRanges(log, ranges)) && p in highest
    ensures forall r :: r in InRanges(log, ranges) && r.part == p && r !in seen ==>
              !Before(r, Record(p, highest[p] + 1, highestTS[p], false, body), false)
  {
    var high :| IsHighest(high, seen) && high.part == p && highest[p] == high.off && highestTS[p] == high.ts;
    assert high in InRanges(log, ranges);
  }

  /** When nothing outside c can rank inside its page, c and all form the same page. */
  lemma OutrankedPage(c: set<Record>, all: set<Record>, limit: nat, newestFirst: bool)
    requires c <= all && IsLog(all) && Ordered(all) && limit <= |c|
    requires forall r :: r in all && r !in c ==> Outranked(c, all, limit, newestFirst, r.part)
    ensures PageSet(c, limit, newestFirst) == PageSet(all, limit, newestFirst)
  {
    IsLogSubset(c, all);
    SubsetSize(c, all);
    var page, whole := Kept(c, limit, newestFirst), Kept(all, limit, newestFirst);
    KeptIsFirst(c, limit, newestFirst);
    KeptIsFirst(all, limit, newestFirst);
    forall q, r | q in page && r in all && r !in page ensures Before(q, r, newestFirst) {
      assert r !in c ==> Outranked(c, all, limit, newestFirst, r.part);
    }
    hide *;
    OneFirst(page, whole, all, newestFirst);
  }

  /** Two sets of one size that each rank before the rest are the same. */
  lemma OneFirst(a: set<Record>, b: set<Record>, all: set<Record>, newestFirst: bool)
    requires a <= all && b <= all && |a| == |b|
    requires forall q, r :: q in a && r in all && r !in a ==> Before(q, r, newestFirst)
    requires KeepsFirst(all, b, newestFirst)
    ensures a == b
  {
    hide Before;
    if a - b != {} {
      var q :| q in a - b;
      var r := OnlyInFirst(b, a);
      BeforeIsAsymmetric(q, r, newestFirst);
      assert false;
    }
    assert forall x :: x in a ==> x in b || x in a - b;
    SubsetSize(a, b);
  }

  /** Neither direction confirms a match behind one it leaves out. */
  lemma ConfirmedIsAhead(matcher: Matcher, newestFirst: bool, log: set<Record>, ranges: map<Partition, Range>,
                         seen: set<Record>, frontier: map<Partition, int>)
    requires IsSeen(log, ranges, seen) && IsFrontier(log, ranges, seen, frontier)
    requires !newestFirst ==> IsGapFree(log, ranges, seen)
    ensures Confirmed(matcher, newestFirst, seen, frontier) <= Hits(matcher, InRanges(log, ranges))
    ensures forall r ::
        r in Hits(matcher, InRanges(log, ranges)) && r !in Confirmed(matcher, newestFirst, seen, frontier) ==>
              if newestFirst then r.off < frontier[r.part] else r !in seen
    ensures forall x, r | x in Confirmed(matcher, newestFirst, seen, frontier)
        && r in Hits(matcher, InRanges(log, ranges)) ::
              r !in Confirmed(matcher, newestFirst, seen, frontier) && x.part == r.part ==> Ahead(x, r, newestFirst)
  {
  }

  lemma ConfirmedGrows(matcher: Matcher, newestFirst: bool, seen: set<Record>, f0: map<Partition, int>,
                       more: set<Record>, f1: map<Partition, int>)
    requires seen <= more && f0.Keys == f1.Keys && (newestFirst ==> forall p :: p in f0 ==> f1[p] <= f0[p])
    ensures Confirmed(matcher, newestFirst, seen, f0) <= Confirmed(matcher, newestFirst, more, f1)
  {
  }

  lemma AllIsOrdered(matcher: Matcher, log: set<Record>, ranges: map<Partition, Range>, seen: set<Record>)
    requires IsSeen(log, ranges, seen) && Ordered(InRanges(log, ranges))
    ensures IsLog(Hits(matcher, InRanges(log, ranges))) && Ordered(Hits(matcher, InRanges(log, ranges)))
  {
  }

  // --- what a call reports ---

  /** What one call returns: the matches and counts behind the cursors in `next`. */
  datatype SearchPage = SearchPage(messages: seq<Record>, next: map<Partition, int>, more: bool,
                                   scanned: nat, matched: nat, parseErrors: nat,
                                     parseErrorOffsets: seq<(Partition, int)>)

  predicate IsBehind(newestFirst: bool, next: map<Partition, int>, p: Partition, off: int) {
    p in next && if newestFirst then next[p] <= off else off < next[p]
  }

  /** The records of the ranges a follow-up call does not read again. */
  ghost function Behind(log: set<Record>, ranges: map<Partition, Range>, newestFirst: bool,
                        next: map<Partition, int>): set<Record> {
    set r | r in InRanges(log, ranges) && IsBehind(newestFirst, next, r.part, r.off)
  }

  /** The cursors lie in the ranges. */
  ghost predicate AreCursors(ranges: map<Partition, Range>, next: map<Partition, int>) {
    next.Keys == ranges.Keys && forall p :: p in ranges ==> ranges[p].start <= next[p] <= ranges[p].end
  }

  /** A follow-up call would have something left to read. */
  ghost predicate LeavesMore(ranges: map<Partition, Range>, newestFirst: bool, next: map<Partition, int>)
    requires AreCursors(ranges, next)
  {
    exists p :: p in ranges && if newestFirst then ranges[p].start < next[p] else next[p] < ranges[p].end
  }

  /** The page reports exactly what lies behind its cursors, and nothing else. */
  ghost predicate IsReport(matcher: Matcher, log: set<Record>, ranges: map<Partition, Range>, newestFirst: bool,
                           limit: nat, pg: SearchPage) {
    && AreCursors(ranges, pg.next)
    && SortedBefore(pg.messages, newestFirst)
    && ToSet(pg.messages) == Hits(matcher, Behind(log, ranges, newestFirst, pg.next))
    && |pg.messages| <= limit
    && pg.matched == |pg.messages|
    && pg.scanned == |Behind(log, ranges, newestFirst, pg.next)|
    && pg.parseErrors == |Errors(matcher, Behind(log, ranges, newestFirst, pg.next))|
    && IsErrorList(pg.parseErrorOffsets, Errors(matcher, Behind(log, ranges, newestFirst, pg.next)))
    && (pg.more <==> LeavesMore(ranges, newestFirst, pg.next))
  }

  /** Cursors of continuation: everything behind them was seen. */
  ghost predicate IsContinuation(matcher: Matcher, newestFirst: bool, log: set<Record>, ranges: map<Partition, Range>,
                                 seen: set<Record>, c: set<Record>, next: map<Partition, int>)
  {
    && AreCursors(ranges, next)
    && Behind(log, ranges, newestFirst, next) <= seen
    && c == Hits(matcher, Behind(log, ranges, newestFirst, next))
  }

  /** Moving every cut partition's cursor back to its first match left out leaves
      exactly the page's matches behind the cursors. */
  lemma CutCursors(matcher: Matcher, newestFirst: bool, log: set<Record>, ranges: map<Partition, Range>,
                   seen: set<Record>,
                   c: set<Record>, next0: map<Partition, int>, limit: nat, cuts: map<Partition, int>,
                     next: map<Partition, int>)
    requires IsLog(log) && IsContinuation(matcher, newestFirst, log, ranges, seen, c, next0) && IsLog(c)
    requires CutsOf(c, limit, newestFirst, cuts) && IsCut(newestFirst, next0, cuts, next)
    ensures AreCursors(ranges, next)
    ensures Behind(log, ranges, newestFirst, next) <= seen
    ensures Hits(matcher, Behind(log, ranges, newestFirst, next)) == Kept(c, limit, newestFirst)
    ensures cuts != map[] ==> LeavesMore(ranges, newestFirst, next)
  {
    hide Behind, Kept, IsBehind, IsCut, CutsOf, AreCursors, LeavesMore, InRanges, IsLog;
    var kept := Kept(c, limit, newestFirst);
    var behind0, behind := Behind(log, ranges, newestFirst, next0), Behind(log, ranges, newestFirst, next);
    CutsInside(matcher, newestFirst, log, ranges, seen, c, next0, limit, cuts, next);
    BehindShrinks(log, ranges, newestFirst, next0, next);
    forall r | r in c ensures r in kept <==> IsBehind(newestFirst, next, r.part, r.off) {
      KeptIffBehind(c, limit, newestFirst, next0, cuts, next, r);
    }
    KeptInside(c, limit, newestFirst);
    assert forall r :: r in Hits(matcher, behind) <==> r in kept;
  }

  lemma KeptInside(c: set<Record>, limit: nat, newestFirst: bool)
    requires IsLog(c)
    ensures Kept(c, limit, newestFirst) <= c
  {
  }

  lemma BehindShrinks(log: set<Record>, ranges: map<Partition, Range>, newestFirst: bool,
                      next0: map<Partition, int>, next: map<Partition, int>)
    requires next.Keys == next0.Keys
    requires forall p :: p in next ==> if newestFirst then next0[p] <= next[p] else next[p] <= next0[p]
    ensures Behind(log, ranges, newestFirst, next) <= Behind(log, ranges, newestFirst, next0)
    ensures forall r :: r in Behind(log, ranges, newestFirst, next) <==>
              r in Behind(log, ranges, newestFirst, next0) && IsBehind(newestFirst, next, r.part, r.off)
    ensures forall r :: r in Behind(log, ranges, newestFirst, next0) ==> IsBehind(newestFirst, next0, r.part, r.off)
  {
  }

  /** A cut lies among the offsets its call reports, so it only takes back. */
  lemma CutsInside(matcher: Matcher, newestFirst: bool, log: set<Record>, ranges: map<Partition, Range>,
                   seen: set<Record>,
                   c: set<Record>, next0: map<Partition, int>, limit: nat, cuts: map<Partition, int>,
                     next: map<Partition, int>)
    requires IsContinuation(matcher, newestFirst, log, ranges, seen, c, next0) && IsLog(c)
    requires CutsOf(c, limit, newestFirst, cuts) && IsCut(newestFirst, next0, cuts, next)
    ensures AreCursors(ranges, next)
    ensures next.Keys == next0.Keys
    ensures forall p :: p in next ==> if newestFirst then next0[p] <= next[p] else next[p] <= next0[p]
    ensures cuts != map[] ==> LeavesMore(ranges, newestFirst, next)
  {
    hide Kept;
    forall p | p in cuts
      ensures IsBehind(newestFirst, next0, p, cuts[p]) && ranges[p].start <= cuts[p] < ranges[p].end
    {
      var r :| InFront(r, c - Kept(c, limit, newestFirst), newestFirst) && r.part == p && cuts[p] == r.off;
      assert r in c;
    }
    if cuts != map[] {
      var p :| p in cuts;
    }
  }

  lemma CutSplits(c: set<Record>, kept: set<Record>, newestFirst: bool, f: Record, r: Record)
    requires InFront(f, c - kept, newestFirst) && KeepsFronts(c, kept, newestFirst) && r in c && r.part == f.part
    ensures r in kept <==> Ahead(r, f, newestFirst)
  {
  }

  lemma KeptIffBehind(c: set<Record>, limit: nat, newestFirst: bool, next0: map<Partition, int>,
                      cuts: map<Partition, int>, next: map<Partition, int>, r: Record)
    requires IsLog(c) && CutsOf(c, limit, newestFirst, cuts) && IsCut(newestFirst, next0, cuts, next)
    requires r in c && forall x :: x in c ==> IsBehind(newestFirst, next0, x.part, x.off)
    ensures r in Kept(c, limit, newestFirst) <==> IsBehind(newestFirst, next, r.part, r.off)
  {
    hide Kept, IsLog;
    KeptIsPrefix(c, limit, newestFirst);
    if r.part in cuts {
      var kept := Kept(c, limit, newestFirst);
      var f :| InFront(f, c - kept, newestFirst) && f.part == r.part && cuts[r.part] == f.off;
      CutSplits(c, kept, newestFirst, f, r);
    }
  }

  /** The cursors after the cuts. */
  ghost predicate IsCut(newestFirst: bool, next0: map<Partition, int>, cuts: map<Partition, int>,
                        next: map<Partition, int>) {
    && next.Keys == next0.Keys && cuts.Keys <= next0.Keys
    && forall p :: p in next ==>
         next[p] == if p !in cuts then next0[p] else if newestFirst then Max(next0[p], cuts[p] + 1)
           else Min(next0[p], cuts[p])
  }

  /** Counting listed offsets behind the cursors counts the records there. */
  lemma SpotsCount(s: set<Record>)
    requires IsLog(s)
    ensures |Spots(s)| == |s|
  {
    if s != {} {
      var r :| r in s;
      SpotsCount(s - {r});
      assert Spots(s) == Spots(s - {r}) + {(r.part, r.off)};
    }
  }

  lemma FrontierKeys(log: set<Record>, ranges: map<Partition, Range>, seen: set<Record>, frontier: map<Partition, int>)
    requires IsFrontier(log, ranges, seen, frontier)
    ensures frontier.Keys == ranges.Keys
    ensures forall p :: p in ranges ==> ranges[p].start <= frontier[p] <= ranges[p].end
  {
  }

  lemma HighestInRanges(log: set<Record>, ranges: map<Partition, Range>, seen: set<Record>,
                        highest: map<Partition, int>, highestTS: map<Partition, int>)
    requires IsSeen(log, ranges, seen) && AreHighest(seen, highest, highestTS)
    ensures forall p :: p in highest ==> p in ranges && ranges[p].start <= highest[p] < ranges[p].end
  {
    forall p | p in highest ensures p in ranges && ranges[p].start <= highest[p] < ranges[p].end {
      var r :| IsHighest(r, seen) && r.part == p && highest[p] == r.off && highestTS[p] == r.ts;
    }
  }

  lemma NewestBehind(matcher: Matcher, log: set<Record>, ranges: map<Partition, Range>, seen: set<Record>,
                     frontier: map<Partition, int>)
    requires IsSeen(log, ranges, seen) && IsFrontier(log, ranges, seen, frontier)
    ensures Behind(log, ranges, true, frontier) <= seen
    ensures Confirmed(matcher, true, seen, frontier) == Hits(matcher, Behind(log, ranges, true, frontier))
  {
  }

  lemma OldestBehind(matcher: Matcher, log: set<Record>, ranges: map<Partition, Range>, seen: set<Record>,
                     highest: map<Partition, int>, highestTS: map<Partition, int>, ended: set<Partition>,
                       next: map<Partition, int>)
    requires IsSeen(log, ranges, seen) && AreHighest(seen, highest, highestTS) && IsGapFree(log, ranges, seen)
    requires AreEnded(log, ranges, seen, ended) && next.Keys == ranges.Keys
    requires forall p :: p in next ==>
      next[p] == if p in ended then ranges[p].end else if p in highest then highest[p] + 1 else ranges[p].start
    ensures Behind(log, ranges, false, next) == seen
  {
    forall r | r in Behind(log, ranges, false, next) ensures r in seen {
      if r.part !in ended {
        var h :| IsHighest(h, seen) && h.part == r.part && highest[r.part] == h.off && highestTS[r.part] == h.ts;
      }
    }
    forall r | r in seen ensures r in Behind(log, ranges, false, next) {
      if r.part !in ended {
        var h :| IsHighest(h, seen) && h.part == r.part && highest[r.part] == h.off && highestTS[r.part] == h.ts;
      }
    }
  }

  lemma CountedSpots(s: set<Record>, offsets: map<Partition, seq<int>>, newestFirst: bool, next: map<Partition, int>,
                     counted: set<(Partition, int)>, behind: set<Record>)
    requires AreOffsets(s, offsets)
    requires forall p, o :: (p, o) in counted <==> p in offsets && o in offsets[p] && IsBehind(newestFirst, next, p, o)
    requires forall r :: r in behind <==> r in s && IsBehind(newestFirst, next, r.part, r.off)
    ensures counted == Spots(behind)
  {
    forall p, o | (p, o) in counted ensures (p, o) in Spots(behind) {
      var r :| r in s && (r.part, r.off) == (p, o);
      assert r in behind;
    }
    forall spot | spot in Spots(behind) ensures spot in counted {
      var r :| r in behind && (r.part, r.off) == spot;
      assert (r.part, r.off) in counted;
    }
    forall spot | spot in counted ensures spot in Spots(behind) {
      assert (spot.0, spot.1) in counted;
    }
  }

  lemma ContinuationCovers(matcher: Matcher, newestFirst: bool, log: set<Record>, ranges: map<Partition, Range>,
                           seen: set<Record>, c: set<Record>, next: map<Partition, int>)
    requires IsContinuation(matcher, newestFirst, log, ranges, seen, c, next)
    ensures AreCursors(ranges, next)
    ensures c <= Hits(matcher, InRanges(log, ranges))
    ensures forall r :: r in c ==> r.part in next
  {
  }

  lemma MoreAfterCut(ranges: map<Partition, Range>, newestFirst: bool, next0: map<Partition, int>,
                     cuts: map<Partition, int>, next: map<Partition, int>, more: bool)
    requires AreCursors(ranges, next0) && AreCursors(ranges, next) && IsCut(newestFirst, next0, cuts, next)
    requires cuts != map[] ==> LeavesMore(ranges, newestFirst, next)
    requires more <==> LeavesMore(ranges, newestFirst, next0) || cuts != map[]
    ensures more <==> LeavesMore(ranges, newestFirst, next)
    ensures cuts == map[] ==> next == next0
  {
    if cuts == map[] {
      assert next == next0;
    }
  }

  lemma BehindSeen(matcher: Matcher, log: set<Record>, ranges: map<Partition, Range>, seen: set<Record>,
                   newestFirst: bool, next: map<Partition, int>)
    requires IsSeen(log, ranges, seen) && Behind(log, ranges, newestFirst, next) <= seen
    ensures (set r | r in seen && IsBehind(newestFirst, next, r.part, r.off)) == Behind(log, ranges, newestFirst, next)
    ensures (set r | r in Errors(matcher, seen) && IsBehind(newestFirst, next, r.part, r.off)) ==
            Errors(matcher, Behind(log, ranges, newestFirst, next))
    ensures IsLog(seen) && IsLog(Errors(matcher, seen))
  {
  }

  lemma ReportOf(matcher: Matcher, log: set<Record>, ranges: map<Partition, Range>, newestFirst: bool, limit: nat,
                 pg: SearchPage, c: set<Record>)
    requires IsLog(c) && AreCursors(ranges, pg.next) && SortedBefore(pg.messages, newestFirst)
    requires forall r :: r in pg.messages <==> r in c && IsBehind(newestFirst, pg.next, r.part, r.off)
    requires Hits(matcher, Behind(log, ranges, newestFirst, pg.next)) == Kept(c, limit, newestFirst)
    requires c <= Hits(matcher, InRanges(log, ranges))
    requires pg.matched == |pg.messages|
    requires pg.scanned == |Behind(log, ranges, newestFirst, pg.next)|
    requires pg.parseErrors == |Errors(matcher, Behind(log, ranges, newestFirst, pg.next))|
    requires IsErrorList(pg.parseErrorOffsets, Errors(matcher, Behind(log, ranges, newestFirst, pg.next)))
    requires pg.more <==> LeavesMore(ranges, newestFirst, pg.next)
    ensures IsReport(matcher, log, ranges, newestFirst, limit, pg)
    ensures ToSet(pg.messages) == PageSet(c, limit, newestFirst)
    ensures |pg.messages| == Min(limit, |c|)
    ensures |pg.messages| == |c| ==> Kept(c, limit, newestFirst) == c
  {
    hide IsErrorList;
    SubsetSize(Kept(c, limit, newestFirst), c);
    forall r ensures r in ToSet(pg.messages) <==> r in Hits(matcher, Behind(log, ranges, newestFirst, pg.next)) {
    }
    assert ToSet(pg.messages) == Kept(c, limit, newestFirst);
    SortedNoDup(pg.messages, newestFirst);
    NoDupCardinality(pg.messages);
  }

  lemma NothingCut(c: set<Record>, limit: nat, newestFirst: bool, cuts: map<Partition, int>)
    requires IsLog(c) && CutsOf(c, limit, newestFirst, cuts) && Kept(c, limit, newestFirst) == c
    ensures cuts == map[]
  {
    assert forall r :: !InFront(r, c - Kept(c, limit, newestFirst), newestFirst);
  }

  // --- what the reportable matches know of the page, as they grow ---

  /** The cached last match is the one a fresh merge gives. */
  ghost predicate CacheAt(c: set<Record>, confirmed: nat, limit: nat, newestFirst: bool, lastAt: nat, last: Record,
                          lastOK: bool) {
    lastAt <= confirmed && (lastAt == confirmed && limit <= lastAt ==>
      lastOK && IsLastOf(last, PageSet(c, limit, newestFirst), newestFirst))
  }

  ghost predicate ParkedAt(c: set<Record>, all: set<Record>, ordered: bool, limit: nat, newestFirst: bool,
                           parked: set<Partition>) {
    && (parked != {} ==> limit <= |c|)
    && (ordered ==> AllOutranked(c, all, limit, newestFirst, parked))
  }

  lemma ReportGrows(c0: set<Record>, c1: set<Record>, all: set<Record>, ordered: bool, limit: nat, newestFirst: bool,
                    lastAt: nat, last: Record, lastOK: bool, parked: set<Partition>)
    requires c0 <= c1 <= all && IsLog(all) && (ordered ==> Ordered(all))
    requires CacheAt(c0, |c0|, limit, newestFirst, lastAt, last, lastOK)
    requires ParkedAt(c0, all, ordered, limit, newestFirst, parked)
    ensures CacheAt(c1, |c1|, limit, newestFirst, lastAt, last, lastOK)
    ensures ParkedAt(c1, all, ordered, limit, newestFirst, parked)
  {
    SubsetSize(c0, c1);
    hide Outranked, PageSet, IsLastOf, Ordered, IsLog;
    if ordered {
      forall p | p in parked ensures Outranked(c1, all, limit, newestFirst, p) {
        OutrankedGrows(c0, c1, all, limit, newestFirst, p);
      }
    }
  }

  lemma AllIsLog(matcher: Matcher, log: set<Record>, ranges: map<Partition, Range>, seen: set<Record>)
    requires IsSeen(log, ranges, seen)
    ensures IsLog(Hits(matcher, InRanges(log, ranges)))
    ensures Ordered(InRanges(log, ranges)) ==> Ordered(Hits(matcher, InRanges(log, ranges)))
  {
  }
}
