/** The state of one search call: searchScan of internal/kafka/search.go. */
module SearchScan {
  import opened Records
  import opened Sorting
  import opened RecordSource
  import opened TimeMerge
  import opened ParseErrors
  import opened SearchState

  class SearchScan {
    const matcher: Matcher
    const newestFirst: bool
    const ranges: map<Partition, Range>
    ghost const log: set<Record>

    var matches: seq<Record>
    var read: nat
    var visited: map<Partition, seq<int>>
    var errored: map<Partition, seq<int>>
    var errDetails: map<Partition, seq<int>>
    var confirmed: nat
    var confirmedIn: map<Partition, nat>
    var pending: map<Partition, nat>
    var frontier: map<Partition, int>
    var stuck: set<Partition>
    var highest: map<Partition, int>
    var highestTS: map<Partition, int>
    var pendingLow: map<Partition, Mark>
    var frontierTS: map<Partition, int>
    var ended: set<Partition>
    var drained: set<Partition>
    var parked: set<Partition>
    var lastAt: nat
    var last: Record
    var lastOK: bool

    /** The records visited so far. */
    ghost var seen: set<Record>

    constructor (matcher: Matcher, ghost log: set<Record>, ranges: map<Partition, Range>, newestFirst: bool)
      requires IsLog(log) && ValidRanges(ranges)
      ensures Valid() && lastAt == 0
      ensures this.matcher == matcher && this.log == log && this.ranges == ranges && this.newestFirst == newestFirst
      ensures seen == {} && stuck == {} && drained == {} && parked == {} && ended == {}
      ensures forall p :: p in ranges ==> p in frontier && frontier[p] == ranges[p].end
    {
      this.matcher, this.newestFirst, this.ranges, this.log := matcher, newestFirst, ranges, log;
      matches, read, visited, errored, errDetails := [], 0, map[], map[], map[];
      confirmed, confirmedIn, pending := 0, map[], map[];
      frontier := map p | p in ranges :: ranges[p].end;
      stuck, highest, highestTS, pendingLow, frontierTS := {}, map[], map[], map[], map[];
      ended, drained, parked := {}, {}, {};
      lastAt, last, lastOK := 0, Record(0, 0, 0, false, ""), false;
      seen := {};
      new;
      NoDetails(newestFirst);
      assert ToSet(matches) == Hits(matcher, seen);
      assert Confirmed(matcher, newestFirst, seen, frontier) == {};
    }

    ghost predicate Valid()
      reads this`matches, this`read, this`visited, this`errored, this`errDetails, this`confirmed, this`confirmedIn,
          this`pending, this`frontier,
            this`stuck, this`highest, this`highestTS, this`pendingLow, this`frontierTS, this`ended, this`seen
    {
      && IsSeen(log, ranges, seen) && read == |seen|
      && AreMatches(matcher, seen, matches)
      && AreOffsets(seen, visited) && AreOffsets(Errors(matcher, seen), errored)
        && AreDetails(errored, errDetails, newestFirst)
      && IsFrontier(log, ranges, seen, frontier)
      && AreCounts(matcher, newestFirst, seen, frontier, confirmed, confirmedIn)
      && (if newestFirst then ValidNewest() else ValidOldest())
    }

    ghost predicate ValidNewest()
      reads this`seen, this`frontier, this`pending, this`pendingLow, this`frontierTS
    {
      && ArePending(matcher, seen, frontier, pending)
      && AreLowest(Below(seen, frontier), pendingLow)
      && AreLowestTS(AtOrAbove(seen, frontier), frontierTS)
    }

    ghost predicate ValidOldest()
      reads this`seen, this`stuck, this`highest, this`highestTS, this`ended
    {
      && stuck == {}
      && AreHighest(seen, highest, highestTS)
      && IsGapFree(log, ranges, seen)
      && AreEnded(log, ranges, seen, ended)
    }

    /** rec may be visited next: new, in range and, oldest-first, leaving no gap
        before it; newest-first, below its partition's frontier. */
    ghost predicate CanVisit(rec: Record)
      reads this
    {
      && rec in InRanges(log, ranges) && rec !in seen
      && (if newestFirst then rec.part in frontier && rec.off < frontier[rec.part]
          else forall r :: r in InRanges(log, ranges) && r.part == rec.part && r.off < rec.off ==> r in seen)
    }

    lemma CanVisitFacts(rec: Record)
      requires IsLog(log) && seen <= InRanges(log, ranges) && CanVisit(rec)
      ensures rec in InRanges(log, ranges) && rec !in seen && IsLog(seen + {rec})
      ensures newestFirst ==> rec.part in frontier && rec.off < frontier[rec.part]
      ensures !newestFirst ==>
          forall r :: r in InRanges(log, ranges) && r.part == rec.part && r.off < rec.off ==> r in seen
    {
    }

    method Visit(rec: Record)
      requires Valid() && CanVisit(rec)
      modifies this`matches, this`read, this`visited, this`errored, this`errDetails, this`confirmed, this`confirmedIn,
          this`pending,
               this`highest, this`highestTS, this`pendingLow, this`seen
      ensures Valid() && seen == old(seen) + {rec} && read == old(read) + 1
    {
      hide *;
      Unpack();
      CanVisitFacts(rec);
      InTurn(rec);
      NotePosition(rec);
      Match(rec);
      VisitFrontier(log, ranges, seen, frontier, rec);
      seen := seen + {rec};
      Pack();
    }

    /** Oldest-first a record comes after those seen of its partition. */
    lemma InTurn(rec: Record)
      requires Valid() && CanVisit(rec)
      ensures !newestFirst ==> forall r :: r in seen && r.part == rec.part ==> r.off < rec.off
    {
      hide AreDetails, AreMatches, AreOffsets, AreCounts, ArePending, AreLowest, AreLowestTS, AreHighest, AreEnded,
        IsFrontier;
    }

    lemma Unpack()
      requires Valid()
      ensures IsLog(log) && seen <= InRanges(log, ranges) && IsSeen(log, ranges, seen) && read == |seen|
      ensures AreMatches(matcher, seen, matches) && AreOffsets(seen, visited)
          && AreOffsets(Errors(matcher, seen), errored)
      ensures AreDetails(errored, errDetails, newestFirst)
      ensures IsFrontier(log, ranges, seen, frontier)
      ensures AreCounts(matcher, newestFirst, seen, frontier, confirmed, confirmedIn)
      ensures if newestFirst then ValidNewest() else ValidOldest()
      ensures newestFirst ==> ArePending(matcher, seen, frontier, pending)
      ensures newestFirst ==> AreLowestTS(AtOrAbove(seen, frontier), frontierTS)
      ensures !newestFirst ==> stuck == {}
    {
      hide AreDetails, AreMatches, AreOffsets, AreCounts, ArePending, AreLowest, AreLowestTS, AreHighest, IsGapFree,
        AreEnded, IsFrontier;
    }

    lemma Pack()
      requires IsSeen(log, ranges, seen) && read == |seen|
      requires AreMatches(matcher, seen, matches) && AreOffsets(seen, visited)
          && AreOffsets(Errors(matcher, seen), errored)
      requires AreDetails(errored, errDetails, newestFirst)
      requires IsFrontier(log, ranges, seen, frontier)
      requires AreCounts(matcher, newestFirst, seen, frontier, confirmed, confirmedIn)
      requires newestFirst ==> ArePending(matcher, seen, frontier, pending)
      requires newestFirst ==>
          AreLowest(Below(seen, frontier), pendingLow) && AreLowestTS(AtOrAbove(seen, frontier), frontierTS)
      requires !newestFirst ==> stuck == {} && AreHighest(seen, highest, highestTS)
      requires !newestFirst ==> IsGapFree(log, ranges, seen) && AreEnded(log, ranges, seen, ended)
      ensures Valid()
    {
      hide AreDetails, AreMatches, AreOffsets, AreCounts, ArePending, AreLowest, AreLowestTS, AreHighest, IsGapFree,
        AreEnded, IsFrontier, IsSeen;
    }

    /** Counts the record and notes where the walk stands: the lowest record of
        the open chunk, or the highest record. */
    method NotePosition(rec: Record)
      requires IsSeen(log, ranges, seen) && CanVisit(rec) && IsFrontier(log, ranges, seen, frontier)
      requires if newestFirst then ValidNewest() else ValidOldest()
      requires AreOffsets(seen, visited) && IsLog(seen + {rec}) && rec !in seen
      modifies this`highest, this`highestTS, this`pendingLow, this`read, this`visited
      ensures read == old(read) + 1 && AreOffsets(seen + {rec}, visited)
      ensures newestFirst ==> AreLowest(Below(seen + {rec}, frontier), pendingLow)
      ensures newestFirst ==> AreLowestTS(AtOrAbove(seen + {rec}, frontier), frontierTS)
      ensures !newestFirst ==> AreHighest(seen + {rec}, highest, highestTS)
      ensures !newestFirst ==> IsGapFree(log, ranges, seen + {rec}) && AreEnded(log, ranges, seen + {rec}, ended)
    {
      var p := rec.part;
      hide AreLowest, AreLowestTS, AreHighest, IsGapFree, AreEnded, Below, AtOrAbove, IsFrontier, IsLog, ArePending,
        InRanges, CanVisit, AreOffsets;
      CanVisitFacts(rec);
      if newestFirst {
        BelowGrows(seen, frontier, rec);
      }
      if newestFirst {
        VisitLowest(Below(seen, frontier), pendingLow, rec);
        if p !in pendingLow || rec.off < pendingLow[p].off {
          pendingLow := pendingLow[p := Mark(rec.off, rec.ts)];
        }
      } else {
        VisitHighest(seen, highest, highestTS, rec);
        VisitInOrder(log, ranges, seen, rec);
        if p !in highest || rec.off > highest[p] {
          highest := highest[p := rec.off];
          highestTS := highestTS[p := rec.ts];
        }
      }
      VisitOffsets(seen, visited, rec);
      read := read + 1;
      visited := visited[p := OffsetsIn(visited, p) + [rec.off]];
    }

    /** What the matcher makes of the record. */
    method Match(rec: Record)
      requires rec !in seen && IsLog(seen + {rec}) && (newestFirst ==>
          rec.part in frontier && rec.off < frontier[rec.part])
      requires AreMatches(matcher, seen, matches) && AreOffsets(Errors(matcher, seen), errored)
          && AreDetails(errored, errDetails, newestFirst)
      requires !newestFirst ==> forall r :: r in seen && r.part == rec.part ==> r.off < rec.off
      requires AreCounts(matcher, newestFirst, seen, frontier, confirmed, confirmedIn)
      requires newestFirst ==> ArePending(matcher, seen, frontier, pending)
      modifies this`matches, this`errored, this`errDetails, this`confirmed, this`confirmedIn, this`pending
      ensures AreMatches(matcher, seen + {rec}, matches) && AreOffsets(Errors(matcher, seen + {rec}), errored)
      ensures AreDetails(errored, errDetails, newestFirst)
      ensures AreCounts(matcher, newestFirst, seen + {rec}, frontier, confirmed, confirmedIn)
      ensures newestFirst ==> ArePending(matcher, seen + {rec}, frontier, pending)
    {
      hide AreMatches, AreOffsets, AreDetails, AreCounts, ArePending, Errors;
      var p := rec.part;
      VisitMatches(matcher, seen, matches, rec);
      VisitErrors(matcher, seen, errored, rec);
      VisitCounts(matcher, newestFirst, seen, frontier, confirmed, confirmedIn, rec);
      if newestFirst {
        VisitPending(matcher, seen, frontier, pending, rec);
      }
      match matcher(rec)
      case Unreadable =>
        NewError(matcher, seen, errored, rec, newestFirst);
        errDetails := KeepError(errored, errDetails, p, rec.off, newestFirst);
        errored := errored[p := OffsetsIn(errored, p) + [rec.off]];
      case Hit =>
        matches := matches + [rec];
        if newestFirst {
          pending := pending[p := Count(pending, p) + 1];
        } else {
          confirmed := confirmed + 1;
          confirmedIn := confirmedIn[p := Count(confirmedIn, p) + 1];
        }
      case Miss =>
    }
  
    /** What finish may be told about the records seen. */
    ghost predicate CanFinish(batch: RecordBatch)
      reads this
    {
      if newestFirst then
        forall p :: p in batch.chunks && !batch.chunks[p].forced && p !in stuck && p !in parked ==>
          ChunkRead(log, ranges, seen, frontier, p, batch.chunks[p].lower)
      else
        AreEnded(log, ranges, seen, batch.ended - parked)
    }

    method Finish(batch: RecordBatch)
      requires Valid() && CanFinish(batch)
      modifies this`ended, this`drained, this`stuck, this`frontier, this`frontierTS, this`pendingLow,
               this`confirmed, this`confirmedIn, this`pending
      ensures Valid()
      ensures ended == old(ended) + (batch.ended - parked)
      ensures drained == old(drained) + batch.drained
      ensures newestFirst ==> FinishedChunks(batch.chunks, parked, old(stuck), old(frontier), stuck, frontier)
      ensures !newestFirst ==> stuck == old(stuck) && frontier == old(frontier)
    {
      hide AreDetails, AreMatches, AreOffsets, AreCounts, ArePending, AreLowest, AreLowestTS, AreHighest, IsFrontier,
        IsGapFree,
        IsLog, InRanges, ChunkRead, Errors, Below, AtOrAbove;
      EndedGrows(log, ranges, seen, ended, batch.ended - parked);
      ended := ended + (batch.ended - parked);
      drained := drained + batch.drained;
      if newestFirst {
        FinishChunks(batch.chunks);
      }
    }

    method FinishChunks(chunks: map<Partition, FinishedChunk>)
      requires newestFirst && IsFrontier(log, ranges, seen, frontier) && ValidNewest()
      requires AreCounts(matcher, newestFirst, seen, frontier, confirmed, confirmedIn)
      requires forall p :: p in chunks && !chunks[p].forced && p !in stuck && p !in parked ==>
        ChunkRead(log, ranges, seen, frontier, p, chunks[p].lower)
      modifies this`stuck, this`frontier, this`frontierTS, this`pendingLow, this`confirmed, this`confirmedIn,
          this`pending
      ensures IsFrontier(log, ranges, seen, frontier) && ValidNewest()
      ensures AreCounts(matcher, newestFirst, seen, frontier, confirmed, confirmedIn)
      ensures FinishedChunks(chunks, parked, old(stuck), old(frontier), stuck, frontier)
    {
      hide AreCounts, ArePending, AreLowest, AreLowestTS, IsFrontier, InRanges, Below, AtOrAbove, ChunkRead;
      var todo := chunks.Keys;
      ghost var stuck0, frontier0 := stuck, frontier;
      while todo != {}
        invariant todo <= chunks.Keys
        invariant IsFrontier(log, ranges, seen, frontier) && ValidNewest()
        invariant AreCounts(matcher, newestFirst, seen, frontier, confirmed, confirmedIn)
        invariant FinishedExcept(chunks, todo, parked, stuck0, frontier0, stuck, frontier)
      {
        var p :| p in todo;
        todo := todo - {p};
        var ch := chunks[p];
        if p !in stuck && p !in parked {
          if ch.forced {
            stuck := stuck + {p};
          } else {
            ChunkReadElsewhere(log, ranges, seen, frontier0, frontier, p, ch.lower);
            FinishChunk(p, ch.lower);
          }
        }
      }
    }

    method FinishChunk(p: Partition, lower: int)
      requires newestFirst && IsFrontier(log, ranges, seen, frontier) && ValidNewest()
      requires AreCounts(matcher, newestFirst, seen, frontier, confirmed, confirmedIn)
      requires ChunkRead(log, ranges, seen, frontier, p, lower)
      modifies this`frontier, this`frontierTS, this`pendingLow, this`confirmed, this`confirmedIn, this`pending
      ensures IsFrontier(log, ranges, seen, frontier) && ValidNewest()
      ensures AreCounts(matcher, newestFirst, seen, frontier, confirmed, confirmedIn)
      ensures frontier == old(frontier)[p := lower]
    {
      hide AreCounts, ArePending, AreLowest, AreLowestTS, IsFrontier, InRanges, Below, AtOrAbove, ChunkRead, Count;
      LowerFrontier(log, ranges, seen, frontier, p, lower);
      LowerCounts(matcher, log, ranges, seen, frontier, p, lower, confirmed, confirmedIn, pending);
      LowerMarks(log, ranges, seen, frontier, p, lower, pendingLow);
      LowerMarksTS(log, ranges, seen, frontier, p, lower, pendingLow, frontierTS);
      frontier := frontier[p := lower];
      if p in pendingLow {
        frontierTS := frontierTS[p := pendingLow[p].ts];
      }
      pendingLow := pendingLow - {p};
      confirmed := confirmed + Count(pending, p);
      confirmedIn := confirmedIn[p := Count(confirmedIn, p) + Count(pending, p)];
      pending := pending[p := 0];
    }

    /** What a page of `limit` matches would hold now. */
    ghost function Reportable(): set<Record>
      reads this`seen, this`frontier
    {
      Confirmed(matcher, newestFirst, seen, frontier)
    }

    /** The matches this call can report; newest-first, not those below their frontier. */
    method ConfirmedMatches() returns (out: seq<Record>)
      requires IsSeen(log, ranges, seen) && AreMatches(matcher, seen, matches)
          && IsFrontier(log, ranges, seen, frontier)
      ensures NoDup(out) && ToSet(out) == Reportable() && IsLog(ToSet(out))
    {
      if !newestFirst {
        assert Reportable() == Hits(matcher, seen);
        return matches;
      }
      out := [];
      for i := 0 to |matches|
        invariant NoDup(out)
        invariant forall r :: r in out <==> r in matches[..i] && r.part in frontier && frontier[r.part] <= r.off
      {
        var m := matches[i];
        assert matches[..i + 1] == matches[..i] + [m];
        assert m in ToSet(matches);
        if m.off >= frontier[m.part] {
          out := out + [m];
        }
      }
      assert matches[..|matches|] == matches;
      forall r ensures r in ToSet(out) <==> r in Reportable() {
        assert r in matches <==> r in Hits(matcher, seen);
      }
    }

    ghost predicate CacheValid(limit: nat)
      reads this`seen, this`frontier, this`confirmed, this`lastAt, this`last, this`lastOK
    {
      CacheAt(Reportable(), confirmed, limit, newestFirst, lastAt, last, lastOK)
    }

    /** The last match of the page the reportable matches form. */
    method PageLast(limit: nat) returns (m: Record, ok: bool)
      requires limit > 0 && Valid() && CacheValid(limit)
      modifies this`lastAt, this`last, this`lastOK
      ensures CacheValid(limit)
      ensures ok == (limit <= confirmed)
      ensures ok ==> IsLastOf(m, PageSet(Reportable(), limit, newestFirst), newestFirst)
    {
      hide AreDetails, AreMatches, AreOffsets, AreCounts, IsFrontier, Confirmed, SortedBefore, ArePending, AreLowest,
        AreLowestTS, AreHighest,
        IsGapFree, AreEnded;
      if confirmed < limit {
        return last, false;
      }
      CountsAreSizes(matcher, newestFirst, seen, frontier, confirmed, confirmedIn);
      if lastAt != confirmed {
        var matches := ConfirmedMatches();
        NoDupCardinality(matches);
        var page := PageMerge(matches, limit, newestFirst);
        lastAt, lastOK := confirmed, |page| >= limit;
        if lastOK {
          last := page[|page| - 1];
          LastOfSorted(page, newestFirst);
        }
      }
      return last, lastOK;
    }

    /** Partition p holds no match this call does not report, or was given up. */
    ghost predicate ReadOut(p: Partition)
      requires p in ranges && p in frontier
      reads this`frontier, this`drained, this`stuck
    {
      p in drained || (newestFirst && (p in stuck || frontier[p] <= ranges[p].start))
    }

    /** Parked partitions cannot add to the page, as far as timestamps are ordered. */
    ghost predicate ParkedBehind(limit: nat)
      reads this`seen, this`frontier, this`parked
    {
      ParkedAt(Reportable(), Hits(matcher, InRanges(log, ranges)), Ordered(InRanges(log, ranges)), limit, newestFirst,
               parked)
    }

    /** What p could still report ranks behind the page that ends with `end`. */
    ghost predicate Passes(p: Partition, limit: nat, end: Record)
      requires p in ranges && p in frontier
      reads this`frontier, this`frontierTS, this`drained, this`stuck, this`highest, this`highestTS, this`confirmedIn
    {
      && p !in drained
      && (|| Count(confirmedIn, p) >= limit
          || if newestFirst
             then !ReadOut(p) && p in frontierTS && !Before(Record(p, frontier[p] - 1, frontierTS[p], false, ""), end,
                                                            true)
             else p in highest && p in highestTS && !Before(Record(p, highest[p] + 1, highestTS[p], false, ""), end,
                                                            false))
    }

    /** The page is full, and every partition is parked or read out. */
    ghost predicate IsSettled(limit: nat)
      reads this`seen, this`frontier, this`parked, this`drained, this`stuck
    {
      limit <= |Reportable()| && forall p :: p in ranges && p in frontier ==> p in parked || ReadOut(p)
    }

    /** Whether the first `limit` reportable matches are the first ones of the whole
        range; parks the partitions that cannot change that any more. */
    method Settled(limit: nat) returns (settled: bool, ghost end: Record)
      requires limit > 0 && Valid() && CacheValid(limit) && ParkedBehind(limit)
      modifies this`parked, this`lastAt, this`last, this`lastOK
      ensures Valid() && CacheValid(limit) && ParkedBehind(limit)
      ensures old(parked) <= parked <= old(parked) + ranges.Keys
      ensures settled <==> IsSettled(limit)
      ensures limit <= |Reportable()| ==> IsLastOf(end, PageSet(Reportable(), limit, newestFirst), newestFirst)
      ensures forall p :: p in ranges && p in frontier ==>
                (p in parked <==> p in old(parked) || (limit <= |Reportable()| && Passes(p, limit, end)))
    {
      hide *;
      var lastMatch, ok := PageLast(limit);
      end := lastMatch;
      ConfirmedCounts();
      if !ok {
        SettledIs(limit);
        return false, end;
      }
      settled := true;
      var todo := ranges.Keys;
      ghost var parked0, open := parked, 0;
      while todo != {}
        invariant todo <= ranges.Keys
        invariant parked0 <= parked <= parked0 + ranges.Keys
        invariant CacheValid(limit) && ParkedBehind(limit)
        invariant settled ==> forall p :: p in ranges && p !in todo && p in frontier ==> p in parked || ReadOut(p)
        invariant !settled ==> open in ranges && open in frontier && open !in todo && open !in parked && !ReadOut(open)
        invariant forall p :: p in ranges && p in frontier ==>
                    (p in parked <==> p in parked0 || (p !in todo && Passes(p, limit, lastMatch)))
      {
        var p :| p in todo;
        todo := todo - {p};
        var past := PastLast(p, limit, lastMatch);
        if past == Past {
          Parks(p, limit);
          parked := parked + {p};
          Parked(limit);
        }
        if past == Unsettled {
          settled, open := false, p;
        }
      }
      SettledIs(limit);
    }

    lemma SettledIs(limit: nat)
      ensures IsSettled(limit) <==>
          limit <= |Reportable()| && forall p :: p in ranges && p in frontier ==> p in parked || ReadOut(p)
    {
      hide ReadOut;
    }

    lemma ConfirmedCounts()
      requires Valid()
      ensures confirmed == |Reportable()|
    {
      Unpack();
      hide Confirmed;
      CountsAreSizes(matcher, newestFirst, seen, frontier, confirmed, confirmedIn);
    }

    lemma Parks(p: Partition, limit: nat)
      requires AddsToParked(p, limit) && limit <= |Reportable()|
      ensures ParkedAt(Reportable(), Hits(matcher, InRanges(log, ranges)), Ordered(InRanges(log, ranges)), limit,
                       newestFirst, parked + {p})
    {
      hide AllOutranked, Reportable;
    }

    lemma Parked(limit: nat)
      requires ParkedAt(Reportable(), Hits(matcher, InRanges(log, ranges)), Ordered(InRanges(log, ranges)), limit,
                        newestFirst, parked)
      ensures ParkedBehind(limit)
    {
      hide ParkedAt;
    }

    /** One round of settled's loop: whether p has read past the page's last match. */
    method PastLast(p: Partition, limit: nat, lastMatch: Record) returns (res: Standing)
      requires p in ranges && Valid() && ParkedBehind(limit) && limit <= |Reportable()|
      requires IsLastOf(lastMatch, PageSet(Reportable(), limit, newestFirst), newestFirst)
      ensures p in frontier
      ensures res == Past ==> AddsToParked(p, limit) && p !in parked && Passes(p, limit, lastMatch)
      ensures res == Done ==> p in parked || (ReadOut(p) && !Passes(p, limit, lastMatch))
      ensures res == Unsettled ==> p !in parked && !ReadOut(p) && !Passes(p, limit, lastMatch)
    {
      hide *;
      StandingIs(p, limit, lastMatch);
      if p in drained || p in parked {
        return Done;
      }
      if Count(confirmedIn, p) >= limit {
        ParkByCount(p, limit);
        return Past;
      }
      var next: Record;
      if newestFirst {
        if p in stuck || frontier[p] <= ranges[p].start {
          return Done;
        }
        if p !in frontierTS {
          return Unsettled;
        }
        next := Record(p, frontier[p] - 1, frontierTS[p], false, "");
      } else {
        if p !in highest {
          return Unsettled;
        }
        next := Record(p, highest[p] + 1, highestTS[p], false, "");
      }
      if CompareMessages(next, lastMatch, newestFirst) < 0 {
        return Unsettled;
      }
      NotBefore(next, lastMatch);
      ParkByLast(p, limit, lastMatch, next);
      return Past;
    }

    lemma StandingIs(p: Partition, limit: nat, end: Record)
      requires Valid() && p in ranges
      ensures p in frontier && (!newestFirst && p in highest ==> p in highestTS)
      ensures ReadOut(p) <==> p in drained || (newestFirst && (p in stuck || frontier[p] <= ranges[p].start))
      ensures Passes(p, limit, end) <==>
                && p !in drained
                && (|| Count(confirmedIn, p) >= limit
                    || if newestFirst
                       then !ReadOut(p) && p in frontierTS
                         && CompareMessages(Record(p, frontier[p] - 1, frontierTS[p], false, ""), end, true) >= 0
                       else p in highest && CompareMessages(Record(p, highest[p] + 1, highestTS[p], false, ""), end,
                                                            false) >= 0)
    {
      Unpack();
      hide Count, CompareMessages;
    }

    lemma NotBefore(a: Record, b: Record)
      requires CompareMessages(a, b, newestFirst) >= 0
      ensures !Before(a, b, newestFirst)
    {
      hide CompareMessages;
    }

    ghost predicate AddsToParked(p: Partition, limit: nat)
      reads this`seen, this`frontier, this`parked
    {
      Ordered(InRanges(log, ranges)) ==>
        AllOutranked(Reportable(), Hits(matcher, InRanges(log, ranges)), limit, newestFirst, parked + {p})
    }

    lemma ParkByCount(p: Partition, limit: nat)
      requires Valid() && ParkedBehind(limit) && Count(confirmedIn, p) >= limit
      ensures AddsToParked(p, limit)
    {
      hide AreDetails, AreMatches, AreOffsets, ArePending, AreLowest, AreLowestTS, AreHighest, AreEnded, IsFrontier,
        IsGapFree, IsSeen,
        Outranked, Ordered, IsLog, InRanges, Confirmed, Errors, Hits, Below, AtOrAbove;
      if Ordered(InRanges(log, ranges)) {
        var all := Hits(matcher, InRanges(log, ranges));
        AllIsOrdered(matcher, log, ranges, seen);
        ConfirmedIsAhead(matcher, newestFirst, log, ranges, seen, frontier);
        OutrankedByCount(Reportable(), all, limit, newestFirst, p);
      }
    }

    lemma ParkByLast(p: Partition, limit: nat, lastMatch: Record, next: Record)
      requires Valid() && ParkedBehind(limit) && p in ranges
      requires IsLastOf(lastMatch, PageSet(Reportable(), limit, newestFirst), newestFirst)
      requires if newestFirst then p in frontierTS && p in frontier
          && next == Record(p, frontier[p] - 1, frontierTS[p], false, next.body)
               else p in highest && p in highestTS && next == Record(p, highest[p] + 1, highestTS[p], false, next.body)
      requires !Before(next, lastMatch, newestFirst)
      ensures AddsToParked(p, limit)
    {
      hide AreDetails, AreMatches, AreOffsets, AreCounts, ArePending, AreLowest, AreLowestTS, AreHighest, AreEnded,
        IsFrontier, IsGapFree, IsSeen,
        Outranked, Ordered, IsLog, Confirmed, Errors, Before, IsLastOf, PageSet, InRanges, Below, AtOrAbove;
      if Ordered(InRanges(log, ranges)) {
        var all := Hits(matcher, InRanges(log, ranges));
        AllIsOrdered(matcher, log, ranges, seen);
        ConfirmedIsAhead(matcher, newestFirst, log, ranges, seen, frontier);
        if newestFirst {
          NextNewest(log, ranges, seen, frontier, frontierTS, p, next.body);
        } else {
          NextOldest(log, ranges, seen, highest, highestTS, p, next.body);
        }
        OutrankedByLast(Reportable(), all, limit, newestFirst, p, lastMatch, next);
      }
    }

    /** What reading on could still report: everything but the unread part of given-up partitions. */
    ghost function Obtainable(): set<Record>
      reads this
    {
      set r | r in Hits(matcher, InRanges(log, ranges)) && (r in Reportable() || r.part !in stuck)
    }

    ghost predicate AllFull(limit: nat)
      reads this
    {
      forall p :: p in ranges ==> p in frontier && IsFull(p, limit)
    }

    /** Whether reading on cannot change this call's page, whatever the timestamps. */
    method PageFull(limit: nat) returns (full: bool)
      requires Valid()
      ensures full ==> PageSet(Reportable(), limit, newestFirst) == PageSet(Obtainable(), limit, newestFirst)
      ensures full <==> AllFull(limit)
    {
      full := true;
      var todo := ranges.Keys;
      hide AreDetails, AreMatches, AreOffsets, AreCounts, IsFrontier, ArePending, AreLowest, AreLowestTS, AreHighest,
        IsGapFree, AreEnded,
        IsSeen, Errors, Confirmed, PageSet, Hits, InRanges, IsLog, Below, AtOrAbove, Obtainable;
      FrontierKeys(log, ranges, seen, frontier);
      while todo != {} && full
        invariant todo <= ranges.Keys
        invariant full <==> forall p :: p in ranges && p !in todo ==> IsFull(p, limit)
      {
        var p :| p in todo;
        todo := todo - {p};
        if Count(confirmedIn, p) >= limit {
        } else if newestFirst && (p in stuck || frontier[p] <= ranges[p].start) {
        } else if !newestFirst && p in ended {
        } else {
          full := false;
        }
      }
      if full {
        FullPage(limit);
      }
    }

    ghost predicate IsFull(p: Partition, limit: nat)
      requires p in ranges && p in frontier
      reads this
    {
      Count(confirmedIn, p) >= limit || (if newestFirst then p in stuck || frontier[p] <= ranges[p].start
        else p in ended)
    }

    lemma FullPage(limit: nat)
      requires Valid() && forall p :: p in ranges ==> p in frontier && IsFull(p, limit)
      ensures PageSet(Reportable(), limit, newestFirst) == PageSet(Obtainable(), limit, newestFirst)
    {
      hide *;
      var c := Reportable();
      var extra := Obtainable() - c;
      ObtainableTails(limit);
      KeptIgnoresTails(c, extra, limit, limit, newestFirst);
      SamePages(c, c + extra, limit);
    }

    lemma SamePages(c: set<Record>, all: set<Record>, limit: nat)
      requires IsLog(all) && c <= all && Kept(all, limit, newestFirst) == Kept(c, limit, newestFirst)
      ensures PageSet(c, limit, newestFirst) == PageSet(all, limit, newestFirst)
    {
      IsLogSubset(c, all);
    }

    lemma ObtainableTails(limit: nat)
      requires Valid() && forall p :: p in ranges ==> p in frontier && IsFull(p, limit)
      ensures Reportable() <= Obtainable() && Reportable() + (Obtainable() - Reportable()) == Obtainable()
      ensures IsLog(Reportable()) && IsLog(Obtainable())
      ensures forall e :: e in Obtainable() - Reportable() ==> limit <= |OfPartition(Reportable(), e.part)|
      ensures forall e, r ::
          e in Obtainable() - Reportable() && r in Reportable() && r.part == e.part ==> Ahead(r, e, newestFirst)
    {
      hide AreDetails, AreMatches, AreOffsets, ArePending, AreLowest, AreLowestTS, AreHighest, Confirmed, Errors,
        Below, AtOrAbove, Ahead, OfPartition;
      ConfirmedIsAhead(matcher, newestFirst, log, ranges, seen, frontier);
      forall e | e in Obtainable() - Reportable() ensures limit <= |OfPartition(Reportable(), e.part)| {
        assert IsFull(e.part, limit);
      }
    }

    /** The cursors of a follow-up search; they never skip an offset this call did not read. */
    method Continuation() returns (next: map<Partition, int>, more: bool)
      requires Valid() && ValidRanges(ranges)
      ensures IsContinuation(matcher, newestFirst, log, ranges, seen, Reportable(), next)
      ensures more <==> LeavesMore(ranges, newestFirst, next)
      ensures next.Keys == ranges.Keys && forall p :: p in ranges && p in frontier ==> next[p] == NextOf(p)
    {
      next, more := map[], false;
      var todo := ranges.Keys;
      hide AreDetails, AreMatches, AreOffsets, AreCounts, ArePending, AreLowest, AreLowestTS, AreHighest, IsGapFree,
        AreEnded,
        IsSeen, Errors, Confirmed, Hits, InRanges, IsLog, Below, AtOrAbove, IsFrontier, IsContinuation;
      FrontierKeys(log, ranges, seen, frontier);
      if !newestFirst {
        HighestInRanges(log, ranges, seen, highest, highestTS);
      }
      while todo != {}
        invariant todo <= ranges.Keys && next.Keys == ranges.Keys - todo
        invariant forall p :: p in next ==> ranges[p].start <= next[p] <= ranges[p].end && next[p] == NextOf(p)
        invariant more <==>
            exists p :: p in next && if newestFirst then ranges[p].start < next[p] else next[p] < ranges[p].end
      {
        var p :| p in todo;
        todo := todo - {p};
        if newestFirst {
          next := next[p := frontier[p]];
          more := more || next[p] > ranges[p].start;
        } else {
          if p in ended {
            next := next[p := ranges[p].end];
          } else if p in highest {
            next := next[p := highest[p] + 1];
          } else {
            next := next[p := ranges[p].start];
          }
          more := more || next[p] < ranges[p].end;
        }
      }
      ContinuationReports(next);
    }

    ghost function NextOf(p: Partition): int
      requires p in ranges && p in frontier
      reads this
    {
      if newestFirst then frontier[p]
      else if p in ended then ranges[p].end
      else if p in highest then highest[p] + 1
      else ranges[p].start
    }

    lemma ContinuationReports(next: map<Partition, int>)
      requires Valid() && AreCursors(ranges, next) && frontier.Keys == ranges.Keys
      requires forall p :: p in next ==> next[p] == NextOf(p)
      ensures IsContinuation(matcher, newestFirst, log, ranges, seen, Reportable(), next)
      ensures next.Keys == ranges.Keys && forall p :: p in ranges && p in frontier ==> next[p] == NextOf(p)
    {
      hide AreDetails, AreMatches, AreOffsets, AreCounts, ArePending, AreLowest, AreLowestTS, AreHighest, IsGapFree,
        AreEnded, IsFrontier,
        InRanges, Errors, Behind, Below, AtOrAbove, IsLog;
      if newestFirst {
        NewestBehind(matcher, log, ranges, seen, frontier);
        assert next == frontier;
      } else {
        OldestBehind(matcher, log, ranges, seen, highest, highestTS, ended, next);
        assert Reportable() == Hits(matcher, seen);
      }
    }

    /** The page, and all a call tells about what its cursors leave behind them. */
    method Page(limit: nat) returns (pg: SearchPage)
      requires Valid() && ValidRanges(ranges)
      ensures IsReport(matcher, log, ranges, newestFirst, limit, pg)
      ensures ToSet(pg.messages) == PageSet(Reportable(), limit, newestFirst)
      ensures |pg.messages| == Min(limit, confirmed)
      ensures Behind(log, ranges, newestFirst, pg.next) <= seen
      ensures |pg.messages| == confirmed ==>
        forall p :: p in ranges && p in frontier ==> p in pg.next && pg.next[p] == NextOf(p)
    {
      hide AreDetails, AreMatches, AreOffsets, AreCounts, ArePending, AreLowest, AreLowestTS, AreHighest, IsGapFree,
        AreEnded,
        Confirmed, Errors, Hits, InRanges, Below, AtOrAbove, IsFrontier, IsContinuation, SortedBefore, CutsOf, IsCut,
        IsBehind, IsLog, NoDup, Behind, ValidRanges, AreCursors, LeavesMore, Kept, IsReport, Lists, IsErrorList;
      CountsAreSizes(matcher, newestFirst, seen, frontier, confirmed, confirmedIn);
      var matches, next, more := CutPage(limit);
      var messages := MessagesBehind(matches, next);
      SortedStrictly(messages, newestFirst);
      messages := Sort(messages, ByTime(newestFirst));
      ErrorsInSeen(seen);
      BehindSeen(matcher, log, ranges, seen, newestFirst, next);
      var scanned := CountBehind(seen, visited, next);
      var parseErrors := CountBehind(Errors(matcher, seen), errored, next);
      ErrorOffsets(Errors(matcher, seen), seen, errored, visited);
      var offsets := ListErrors(visited, errored, errDetails, newestFirst, next);
      ListIsOfErrors(Errors(matcher, seen), errored, offsets, newestFirst, next,
                     Errors(matcher, Behind(log, ranges, newestFirst, next)));
      pg := SearchPage(messages, next, more, scanned, |messages|, parseErrors, offsets);
      assert forall r :: r in messages <==> r in ToSet(messages);
      ReportOf(matcher, log, ranges, newestFirst, limit, pg, Reportable());
    }

    lemma ErrorsInSeen(s: set<Record>)
      ensures Errors(matcher, s) <= s
    {
    }

    /** The cursors after the cut, with the matches it was made in. */
    method CutPage(limit: nat) returns (matches: seq<Record>, next: map<Partition, int>, more: bool)
      requires Valid() && ValidRanges(ranges)
      ensures NoDup(matches) && ToSet(matches) == Reportable() && IsLog(ToSet(matches))
      ensures Reportable() <= Hits(matcher, InRanges(log, ranges))
      ensures AreCursors(ranges, next) && (more <==> LeavesMore(ranges, newestFirst, next))
      ensures Behind(log, ranges, newestFirst, next) <= seen
      ensures Hits(matcher, Behind(log, ranges, newestFirst, next)) == Kept(Reportable(), limit, newestFirst)
      ensures Kept(Reportable(), limit, newestFirst) == Reportable() ==>
        forall p :: p in ranges && p in frontier ==> p in next && next[p] == NextOf(p)
    {
      hide AreDetails, AreMatches, AreOffsets, AreCounts, ArePending, AreLowest, AreLowestTS, AreHighest, IsGapFree,
        AreEnded,
        Confirmed, Errors, Hits, InRanges, Below, AtOrAbove, IsFrontier, IsContinuation, SortedBefore, CutsOf, IsCut,
        IsBehind, IsLog, NoDup, Behind, ValidRanges, AreCursors, LeavesMore, Kept, IsReport;
      var next0, more0 := Continuation();
      matches := ConfirmedMatches();
      ContinuationCovers(matcher, newestFirst, log, ranges, seen, Reportable(), next0);
      var cuts := PageCut(matches, limit, newestFirst);
      next := MoveBack(next0, cuts, matches, limit);
      CutCursors(matcher, newestFirst, log, ranges, seen, Reportable(), next0, limit, cuts, next);
      more := more0 || cuts != map[];
      MoreAfterCut(ranges, newestFirst, next0, cuts, next, more);
      if Kept(Reportable(), limit, newestFirst) == Reportable() {
        NothingCut(Reportable(), limit, newestFirst, cuts);
      }
    }

    method MoveBack(next0: map<Partition, int>, cuts: map<Partition, int>, ghost matches: seq<Record>, ghost limit: nat)
      returns (next: map<Partition, int>)
      requires IsLog(ToSet(matches)) && CutsOf(ToSet(matches), limit, newestFirst, cuts)
      requires forall r :: r in matches ==> r.part in next0
      ensures IsCut(newestFirst, next0, cuts, next)
    {
      next := next0;
      assert cuts.Keys <= next0.Keys by {
        forall p | p in cuts ensures p in next0 {
          var r :| InFront(r, ToSet(matches) - Kept(ToSet(matches), limit, newestFirst), newestFirst) && r.part == p
            && cuts[p] == r.off;
        }
      }
      hide CutsOf, IsLog;
      var todo := cuts.Keys;
      while todo != {}
        invariant todo <= cuts.Keys && next.Keys == next0.Keys
        invariant forall p :: p in next ==>
          next[p] == if p !in cuts || p in todo then next0[p]
                     else if newestFirst then Max(next0[p], cuts[p] + 1) else Min(next0[p], cuts[p])
      {
        var p :| p in todo;
        todo := todo - {p};
        next := next[p := if newestFirst then Max(next[p], cuts[p] + 1) else Min(next[p], cuts[p])];
      }
    }

    method MessagesBehind(matches: seq<Record>, next: map<Partition, int>) returns (out: seq<Record>)
      requires NoDup(matches) && IsLog(ToSet(matches))
      ensures NoDup(out) && IsLog(ToSet(out))
      ensures forall r :: r in out <==> r in matches && IsBehind(newestFirst, next, r.part, r.off)
    {
      out := [];
      for i := 0 to |matches|
        invariant NoDup(out)
        invariant forall r :: r in out <==> r in matches[..i] && IsBehind(newestFirst, next, r.part, r.off)
      {
        var m := matches[i];
        assert matches[..i + 1] == matches[..i] + [m];
        if IsBehind(newestFirst, next, m.part, m.off) {
          out := out + [m];
        }
      }
      assert matches[..|matches|] == matches;
      IsLogSubset(ToSet(out), ToSet(matches));
    }

    /** How many of the listed offsets lie behind the cursors. */
    method CountBehind(ghost s: set<Record>, offsets: map<Partition, seq<int>>, next: map<Partition, int>)
      returns (n: nat)
      requires IsLog(s) && AreOffsets(s, offsets)
      ensures n == |set r | r in s && IsBehind(newestFirst, next, r.part, r.off)|
    {
      n := 0;
      ghost var counted: set<(Partition, int)> := {};
      var todo := offsets.Keys;
      while todo != {}
        invariant todo <= offsets.Keys
        invariant n == |counted|
        invariant forall p, o ::
            (p, o) in counted <==> p in offsets && p !in todo && o in offsets[p] && IsBehind(newestFirst, next, p, o)
      {
        var p :| p in todo;
        todo := todo - {p};
        ghost var counted0 := counted;
        for i := 0 to |offsets[p]|
          invariant n == |counted|
          invariant forall q, o ::
              (q, o) in counted <==>
                (q, o) in counted0 || (q == p && o in offsets[p][..i] && IsBehind(newestFirst, next, p, o))
        {
          var off := offsets[p][i];
          assert offsets[p][..i + 1] == offsets[p][..i] + [off];
          if IsBehind(newestFirst, next, p, off) {
            assert off !in offsets[p][..i];
            n := n + 1;
            counted := counted + {(p, off)};
          }
        }
        assert offsets[p][..|offsets[p]|] == offsets[p];
      }
      ghost var behind := set r | r in s && IsBehind(newestFirst, next, r.part, r.off);
      SpotsCount(behind);
      CountedSpots(s, offsets, newestFirst, next, counted, behind);
    }
  }

  /** Where a partition stands against the page's last match. */
  datatype Standing = Done | Past | Unsettled
}
