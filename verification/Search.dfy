/** One search call: runSearch and SearchMessages of internal/kafka/search.go. */
module Search {
  import opened Sets
  import opened Records
  import opened RecordSource
  import opened TimeMerge
  import opened ParseErrors
  import opened SearchState
  import opened SearchScan
  import opened SearchWalk

  /** The reader's position and the search state, taken together. */
  ghost function WalkOf(scan: RecordScan, sc: SearchScan): Walk
    reads scan, scan.client, sc
  {
    Walk(sc.log, sc.ranges, sc.newestFirst, scan.cursors, scan.client.next, sc.seen, sc.frontier, sc.stuck, sc.parked,
         sc.drained)
  }

  ghost predicate SameTopic(scan: RecordScan, sc: SearchScan) {
    scan.client.log == sc.log && scan.ranges == sc.ranges && (sc.newestFirst <==> scan.chunk > 0)
  }

  /** Drops all records behind the first n, and takes back what their partitions reported finished. */
  method CutBatch(batch: RecordBatch, n: nat) returns (cut: RecordBatch)
    requires n <= |batch.records|
    ensures IsCutBatch(batch, n, cut)
  {
    if n >= |batch.records| {
      assert batch.records[..n] == batch.records;
      return batch;
    }
    var open: set<Partition> := {};
    for i := n to |batch.records|
      invariant forall p :: p in open <==> exists j :: n <= j < i && batch.records[j].part == p
    {
      open := open + {batch.records[i].part};
    }
    cut := RecordBatch(batch.records[..n], batch.drained - open, batch.ended - open, batch.chunks - open);
  }

  method VisitBatch(sc: SearchScan, batch: RecordBatch, budget: nat, ghost w: Walk, ghost chunk: nat,
                    ghost drainAfter: nat,
                    ghost cursors: map<Partition, ScanCursor>, ghost next: map<Partition, int>)
    returns (n: nat)
    requires sc.Valid() && sc.read <= budget
    requires Coupled(w) && PolledFrom(w, chunk, drainAfter, cursors, next, batch)
    requires w.log == sc.log && w.ranges == sc.ranges && w.newestFirst == sc.newestFirst
    requires w.seen == sc.seen && w.frontier == sc.frontier && w.parked == sc.parked
    modifies sc`matches, sc`read, sc`visited, sc`errored, sc`errDetails, sc`confirmed, sc`confirmedIn, sc`pending,
             sc`highest, sc`highestTS, sc`pendingLow, sc`seen
    ensures sc.Valid() && sc.read <= budget && n <= |batch.records|
    ensures n < |batch.records| ==> sc.read == budget
    ensures sc.seen == w.seen + Visited(batch.records, n, w.parked)
  {
    hide *;
    n := 0;
    NoneVisited(batch.records, w.parked);
    while n < |batch.records| && sc.read < budget
      invariant sc.Valid() && sc.read <= budget && n <= |batch.records|
      invariant sc.seen == w.seen + Visited(batch.records, n, w.parked)
    {
      var rec := batch.records[n];
      VisitedGrows(batch.records, n, w.parked);
      if rec.part !in sc.parked {
        InTurn(w, chunk, drainAfter, cursors, next, batch, n);
        CanVisitNext(sc, rec);
        sc.Visit(rec);
      }
      n := n + 1;
    }
  }

  lemma CanVisitNext(sc: SearchScan, rec: Record)
    requires rec in InRanges(sc.log, sc.ranges) && rec !in sc.seen
    requires if sc.newestFirst then rec.part in sc.frontier && rec.off < sc.frontier[rec.part]
             else forall r :: r in InRanges(sc.log, sc.ranges) && r.part == rec.part && r.off < rec.off ==> r in sc.seen
    ensures sc.CanVisit(rec)
  {
  }

  /** Why a call stopped reading. */
  datatype Stop = Complete | BudgetExhausted | TimedOut | Failed

  /** No partition was given up with records of its range unread. */
  ghost predicate NothingGivenUp(sc: SearchScan)
    reads sc
  {
    if sc.newestFirst then sc.stuck == {} else sc.drained <= sc.ended + sc.parked
  }

  /** What a poll leaves to do once its batch was visited: apply the finished chunks. */
  method FinishBatch(sc: SearchScan, batch: RecordBatch, n: nat, ghost w: Walk, ghost chunk: nat, ghost drainAfter: nat,
                     ghost cursors: map<Partition, ScanCursor>, ghost next: map<Partition, int>)
    requires sc.Valid() && n <= |batch.records|
    requires Coupled(w) && PolledFrom(w, chunk, drainAfter, cursors, next, batch)
    requires w.log == sc.log && w.ranges == sc.ranges && w.newestFirst == sc.newestFirst
    requires w.frontier == sc.frontier && w.parked == sc.parked && w.stuck == sc.stuck && w.drained == sc.drained
    requires sc.seen == w.seen + Visited(batch.records, n, w.parked)
    modifies sc`ended, sc`drained, sc`stuck, sc`frontier, sc`frontierTS, sc`pendingLow, sc`confirmed, sc`confirmedIn,
        sc`pending
    ensures sc.Valid()
    ensures n == |batch.records| ==> Applied(w, batch, sc.drained, sc.stuck, sc.frontier)
    ensures n == |batch.records| && !sc.newestFirst ==> sc.ended == old(sc.ended) + (batch.ended - w.parked)
    ensures sc.newestFirst ==> forall p :: p in sc.ranges && p in sc.frontier && p !in w.parked && p !in sc.stuck ==>
              MovedOn(sc.ranges, chunk, sc.seen, sc.frontier, p)
    ensures !sc.newestFirst ==> sc.frontier == old(sc.frontier) && sc.stuck == old(sc.stuck)
    ensures sc.newestFirst ==>
        forall p :: p in sc.frontier && p in old(sc.frontier) ==> sc.frontier[p] <= old(sc.frontier)[p]
    ensures sc.frontier.Keys == old(sc.frontier).Keys
    ensures old(NothingGivenUp(sc)) && !Forces(cursors) ==> NothingGivenUp(sc)
  {
    hide *;
    ghost var ended0, drained0, before := sc.ended, sc.drained, NothingGivenUp(sc);
    GivenUpIs(sc);
    var cut := CutBatch(batch, n);
    CutBatchIsRead(w, chunk, drainAfter, cursors, next, batch, n, cut, sc.seen);
    CanFinishCut(sc, cut);
    sc.Finish(cut);
    ValidIsSeen(sc);
    GivesUpNothing(w, chunk, drainAfter, cursors, next, batch, n, cut, ended0, sc.ended, sc.drained, sc.stuck,
                   sc.frontier);
    GivenUpIs(sc);
    if sc.newestFirst {
      BudgetAdvancesAll(w, chunk, drainAfter, cursors, next, batch, n, cut, sc.seen, sc.frontier, sc.stuck);
    }
    if n == |batch.records| {
      WholeBatch(batch, cut);
      IsApplied(w, batch, sc.drained, sc.stuck, sc.frontier);
    }
  }

  lemma GivenUpIs(sc: SearchScan)
    ensures NothingGivenUp(sc) <==> if sc.newestFirst then sc.stuck == {} else sc.drained <= sc.ended + sc.parked
  {
  }

  /** Without a forced chunk, no partition is given up. */
  lemma GivesUpNothing(w: Walk, chunk: nat, drainAfter: nat, cursors: map<Partition, ScanCursor>,
                       next: map<Partition, int>,
                       batch: RecordBatch, n: nat, cut: RecordBatch, ended0: set<Partition>, ended: set<Partition>,
                       drained: set<Partition>, stuck: set<Partition>, frontier: map<Partition, int>)
    requires PolledFrom(w, chunk, drainAfter, cursors, next, batch) && IsCutBatch(batch, n, cut)
    requires ended == ended0 + (cut.ended - w.parked) && drained == w.drained + cut.drained
    requires if w.newestFirst then FinishedChunks(cut.chunks, w.parked, w.stuck, w.frontier, stuck, frontier)
        else stuck == w.stuck
    ensures !Forces(cursors) && (if w.newestFirst then w.stuck == {} else w.drained <= ended0 + w.parked) ==>
              if w.newestFirst then stuck == {} else drained <= ended + w.parked
  {
    hide IdleAt, Polled, RecordsOf, IsOpen;
    if !Forces(cursors) && w.newestFirst && w.stuck == {} {
      forall p | p in cut.chunks ensures !cut.chunks[p].forced {
        assert p in batch.chunks && p in cursors;
        assert cursors[p].forced ==> Forces(cursors);
      }
    }
  }

  lemma IsApplied(w: Walk, batch: RecordBatch, drained: set<Partition>, stuck: set<Partition>,
                  frontier: map<Partition, int>)
    requires drained == w.drained + batch.drained
    requires if w.newestFirst then FinishedChunks(batch.chunks, w.parked, w.stuck, w.frontier, stuck, frontier)
             else stuck == w.stuck && frontier == w.frontier
    ensures Applied(w, batch, drained, stuck, frontier)
  {
  }

  lemma CanFinishCut(sc: SearchScan, cut: RecordBatch)
    requires if sc.newestFirst then
               forall p :: p in cut.chunks && !cut.chunks[p].forced && p !in sc.stuck && p !in sc.parked ==>
                 ChunkRead(sc.log, sc.ranges, sc.seen, sc.frontier, p, cut.chunks[p].lower)
             else AreEnded(sc.log, sc.ranges, sc.seen, cut.ended - sc.parked)
    ensures sc.CanFinish(cut)
  {
  }

  lemma ValidIsSeen(sc: SearchScan)
    requires sc.Valid()
    ensures IsSeen(sc.log, sc.ranges, sc.seen)
  {
  }

  /** Every partition is parked or read out, as settled, a drained scan and
      (limit aside) a full page report it. */
  ghost predicate AllOver(sc: SearchScan)
    reads sc
  {
    && (sc.newestFirst ==> DrainedOver(sc.ranges, sc.frontier, sc.drained, sc.stuck, sc.parked))
    && forall p :: p in sc.ranges ==> p in sc.frontier && (p in sc.parked || sc.ReadOut(p))
  }

  /** The matches of the call's whole range, read or not. */
  ghost function AllMatches(sc: SearchScan): set<Record>
    reads sc
  {
    Hits(sc.matcher, InRanges(sc.log, sc.ranges))
  }

  lemma OverIsWhole(sc: SearchScan, limit: nat)
    requires sc.Valid() && AllOver(sc) && NothingGivenUp(sc)
    ensures forall r :: r in AllMatches(sc) && r !in sc.Reportable() ==> r.part in sc.parked
    ensures sc.parked == {} ==> sc.Reportable() == AllMatches(sc)
  {
    var c, all := sc.Reportable(), AllMatches(sc);
    hide AreDetails, AreMatches, AreOffsets, AreCounts, ArePending, AreLowest, AreLowestTS, AreHighest;
    forall r | r in all && r !in c ensures r.part in sc.parked {
      var p := r.part;
      assert p in sc.ranges;
    }
    assert c <= all;
  }

  lemma OverIsFirst(sc: SearchScan, limit: nat)
    requires sc.Valid() && sc.ParkedBehind(limit) && AllOver(sc) && NothingGivenUp(sc)
    requires Ordered(InRanges(sc.log, sc.ranges)) || sc.parked == {}
    ensures PageSet(sc.Reportable(), limit, sc.newestFirst) == PageSet(AllMatches(sc), limit, sc.newestFirst)
  {
    OverIsWhole(sc, limit);
    if sc.parked != {} {
      hide AreDetails, AreMatches, AreOffsets, AreCounts, ArePending, AreLowest, AreLowestTS, AreHighest, AreEnded,
        IsFrontier,
        Outranked, Ordered, IsLog, InRanges, Confirmed, Errors, Below, AtOrAbove, IsGapFree, PageSet, DrainedOver;
      AllIsOrdered(sc.matcher, sc.log, sc.ranges, sc.seen);
      ConfirmedIsAhead(sc.matcher, sc.newestFirst, sc.log, sc.ranges, sc.seen, sc.frontier);
      OutrankedPage(sc.Reportable(), AllMatches(sc), limit, sc.newestFirst);
    }
  }

  /** What a call that ended by itself knows: its page is the page of the whole
      range, and it holds `limit` matches or everything. */
  ghost predicate CompletePage(sc: SearchScan, limit: nat, stopOnLimit: bool)
    reads sc
  {
    NothingGivenUp(sc) ==>
      && (Ordered(InRanges(sc.log, sc.ranges)) || !stopOnLimit ==>
            PageSet(sc.Reportable(), limit, sc.newestFirst) == PageSet(AllMatches(sc), limit, sc.newestFirst))
      && (limit <= |sc.Reportable()| || ReadWhole(sc))
  }

  /** Every partition of the range was read to its end. */
  ghost predicate ReadWhole(sc: SearchScan)
    reads sc
  {
    forall p ::
      p in sc.ranges && p in sc.frontier ==>
        if sc.newestFirst then sc.frontier[p] <= sc.ranges[p].start else p in sc.ended
  }

  lemma OverIsComplete(sc: SearchScan, limit: nat, stopOnLimit: bool)
    requires sc.Valid() && sc.ParkedBehind(limit) && AllOver(sc) && (!stopOnLimit ==> sc.parked == {})
    ensures CompletePage(sc, limit, stopOnLimit)
  {
    hide AreDetails, AreMatches, AreOffsets, AreCounts, ArePending, AreLowest, AreLowestTS, AreHighest, AreEnded,
      IsFrontier,
      Outranked, Ordered, IsLog, InRanges, Confirmed, Errors, Below, AtOrAbove, IsGapFree, PageSet, IsSeen;
    if NothingGivenUp(sc) && (Ordered(InRanges(sc.log, sc.ranges)) || !stopOnLimit) {
      OverIsFirst(sc, limit);
    }
  }

  lemma FullIsComplete(sc: SearchScan, limit: nat, stopOnLimit: bool)
    requires sc.Valid() && limit > 0
    requires sc.AllFull(limit)
    requires PageSet(sc.Reportable(), limit, sc.newestFirst) == PageSet(sc.Obtainable(), limit, sc.newestFirst)
    ensures CompletePage(sc, limit, stopOnLimit)
  {
    hide AreDetails, AreMatches, AreOffsets, ArePending, AreLowest, AreLowestTS, AreHighest, AreEnded, IsFrontier,
      Outranked, Ordered, IsLog, InRanges, Confirmed, Errors, Below, AtOrAbove, IsGapFree, PageSet, IsSeen;
    if NothingGivenUp(sc) {
      assert sc.Obtainable() == AllMatches(sc);
      if p :| p in sc.ranges && Count(sc.confirmedIn, p) >= limit {
        SubsetSize(OfPartition(sc.Reportable(), p), sc.Reportable());
      }
    }
  }

  /** Between two polls. */
  ghost predicate Searching(scan: RecordScan, sc: SearchScan, limit: nat, stopOnLimit: bool)
    reads scan, scan.client, sc
  {
    && SameTopic(scan, sc) && scan.Idle()
    && sc.Valid() && sc.CacheValid(limit) && sc.ParkedBehind(limit)
    && Coupled(WalkOf(scan, sc))
    && (!stopOnLimit ==> sc.parked == {})
  }

  /** What a call that spent its budget knows of its cursors (newest-first). */
  ghost predicate SpentBudget(sc: SearchScan, chunk: nat)
    reads sc
  {
    forall p :: p in sc.ranges && p in sc.frontier && p !in sc.parked && p !in sc.stuck ==>
      MovedOn(sc.ranges, chunk, sc.seen, sc.frontier, p)
  }

  ghost predicate AtWalk(w: Walk, sc: SearchScan)
    reads sc
  {
    && w.log == sc.log && w.ranges == sc.ranges && w.newestFirst == sc.newestFirst
    && w.seen == sc.seen && w.frontier == sc.frontier && w.stuck == sc.stuck && w.parked == sc.parked
      && w.drained == sc.drained
  }

  /** The state after a batch was visited and applied, before the reader advances. */
  ghost predicate Searched(w: Walk, batch: RecordBatch, sc: SearchScan, limit: nat, stopOnLimit: bool)
    reads sc
  {
    && sc.Valid() && sc.CacheValid(limit) && sc.ParkedBehind(limit)
    && w.log == sc.log && w.ranges == sc.ranges && w.newestFirst == sc.newestFirst
    && sc.seen == w.seen + Visited(batch.records, |batch.records|, w.parked)
    && Applied(w, batch, sc.drained, sc.stuck, sc.frontier)
    && w.parked <= sc.parked && (!stopOnLimit ==> sc.parked == {})
  }

  /** One batch of runSearch's loop: visit it, apply what it finished, and see
      whether the call can end. */
  method SearchBatch(sc: SearchScan, batch: RecordBatch, limit: nat, budget: nat, stopOnLimit: bool, ghost w: Walk,
                     ghost chunk: nat, ghost drainAfter: nat, ghost cursors: map<Partition, ScanCursor>,
                       ghost next: map<Partition, int>)
    returns (ended: bool, stop: Stop)
    requires limit > 0 && sc.read < budget
    requires sc.Valid() && sc.CacheValid(limit) && sc.ParkedBehind(limit) && (!stopOnLimit ==> sc.parked == {})
    requires AtWalk(w, sc) && Coupled(w) && PolledFrom(w, chunk, drainAfter, cursors, next, batch)
    modifies sc
    ensures sc.Valid() && sc.read <= budget && sc.ParkedBehind(limit) && (!stopOnLimit ==> sc.parked == {})
    ensures !ended ==> Searched(w, batch, sc, limit, stopOnLimit) && sc.read < budget
    ensures ended ==> stop == BudgetExhausted || stop == Complete
    ensures ended && stop == BudgetExhausted ==> sc.read == budget && (sc.newestFirst ==> SpentBudget(sc, chunk))
    ensures ended && stop == Complete ==> CompletePage(sc, limit, stopOnLimit)
    // It goes on only while reading on can change the page.
    ensures !ended ==> !sc.AllFull(limit) && (stopOnLimit ==> !sc.IsSettled(limit))
    ensures old(NothingGivenUp(sc)) && !Forces(cursors) ==> NothingGivenUp(sc)
  {
    hide *;
    WalkFields(w, sc);
    ReportSizes(sc, limit);
    GivenUpIs(sc);
    var n := VisitBatch(sc, batch, budget, w, chunk, drainAfter, cursors, next);
    GivenUpIs(sc);
    FinishBatch(sc, batch, n, w, chunk, drainAfter, cursors, next);
    GivenUpIs(sc);
    KeepsReport(sc, limit, w);
    if sc.read >= budget {
      BudgetIsSpent(sc, w, chunk);
      return true, BudgetExhausted;
    }
    assert n == |batch.records|;
    IsSearched(w, batch, sc, limit, stopOnLimit);
    ended := Conclude(sc, batch, limit, stopOnLimit, w, chunk, drainAfter, cursors, next);
    GivenUpIs(sc);
    stop := Complete;
    FromSearched(w, batch, sc, limit, stopOnLimit);
  }

  /** Whether the call can end, as nothing it could still read changes its page. */
  method Conclude(sc: SearchScan, batch: RecordBatch, limit: nat, stopOnLimit: bool, ghost w: Walk, ghost chunk: nat,
                  ghost drainAfter: nat, ghost cursors: map<Partition, ScanCursor>, ghost next: map<Partition, int>)
    returns (ended: bool)
    requires limit > 0 && Coupled(w) && PolledFrom(w, chunk, drainAfter, cursors, next, batch)
    requires Searched(w, batch, sc, limit, stopOnLimit)
    modifies sc`parked, sc`lastAt, sc`last, sc`lastOK
    ensures Searched(w, batch, sc, limit, stopOnLimit)
    ensures ended ==> CompletePage(sc, limit, stopOnLimit)
    // It goes on only while reading on can change the page.
    ensures !ended ==> !sc.AllFull(limit) && (stopOnLimit ==> !sc.IsSettled(limit))
  {
    hide *;
    FromSearched(w, batch, sc, limit, stopOnLimit);
    if stopOnLimit {
      var settled, end := sc.Settled(limit);
      IsSearched(w, batch, sc, limit, stopOnLimit);
      if settled {
        SettledIsOver(sc, limit, w, chunk, drainAfter, cursors, next, batch);
        OverIsComplete(sc, limit, stopOnLimit);
        return true;
      }
    }
    ended := sc.PageFull(limit);
    if ended {
      FullIsComplete(sc, limit, stopOnLimit);
    }
  }

  lemma FromSearched(w: Walk, batch: RecordBatch, sc: SearchScan, limit: nat, stopOnLimit: bool)
    requires Searched(w, batch, sc, limit, stopOnLimit)
    ensures sc.Valid() && sc.CacheValid(limit) && sc.ParkedBehind(limit)
    ensures w.log == sc.log && w.ranges == sc.ranges && w.newestFirst == sc.newestFirst
    ensures sc.seen == w.seen + Visited(batch.records, |batch.records|, w.parked)
    ensures Applied(w, batch, sc.drained, sc.stuck, sc.frontier) && sc.frontier.Keys == sc.ranges.Keys
    ensures w.parked <= sc.parked && (!stopOnLimit ==> sc.parked == {})
  {
    ReportSizes(sc, limit);
    hide Applied, Visited, ReportAt;
  }

  lemma WalkFields(w: Walk, sc: SearchScan)
    requires AtWalk(w, sc)
    ensures w.log == sc.log && w.ranges == sc.ranges && w.newestFirst == sc.newestFirst
    ensures w.seen == sc.seen && w.frontier == sc.frontier && w.stuck == sc.stuck && w.parked == sc.parked
        && w.drained == sc.drained
  {
  }

  lemma ReportSizes(sc: SearchScan, limit: nat)
    requires sc.Valid() && sc.CacheValid(limit) && sc.ParkedBehind(limit)
    ensures sc.ranges.Keys == sc.frontier.Keys
    ensures ReportAt(sc, Confirmed(sc.matcher, sc.newestFirst, sc.seen, sc.frontier), limit)
  {
  }

  /** What the cache and the parked partitions say of the reportable matches c. */
  ghost predicate ReportAt(sc: SearchScan, c: set<Record>, limit: nat)
    reads sc`lastAt, sc`last, sc`lastOK, sc`parked
  {
    && CacheAt(c, |c|, limit, sc.newestFirst, sc.lastAt, sc.last, sc.lastOK)
    && ParkedAt(c, Hits(sc.matcher, InRanges(sc.log, sc.ranges)), Ordered(InRanges(sc.log, sc.ranges)), limit,
                sc.newestFirst, sc.parked)
  }

  /** More visited records and lower frontiers keep what is known of the page. */
  lemma KeepsReport(sc: SearchScan, limit: nat, w: Walk)
    requires sc.Valid() && ReportAt(sc, Confirmed(sc.matcher, sc.newestFirst, w.seen, w.frontier), limit)
        && w.seen <= sc.seen
    requires sc.frontier.Keys == w.frontier.Keys
    requires if sc.newestFirst then forall p :: p in sc.frontier && p in w.frontier ==> sc.frontier[p] <= w.frontier[p]
             else sc.frontier == w.frontier
    ensures sc.CacheValid(limit) && sc.ParkedBehind(limit)
  {
    hide AreDetails, AreMatches, AreOffsets, ArePending, AreLowest, AreLowestTS, AreHighest, AreEnded, IsFrontier,
      IsLog, InRanges, Confirmed,
      Errors, Below, AtOrAbove, IsGapFree, CacheAt, ParkedAt, Ordered;
    var c0, c1 := Confirmed(sc.matcher, sc.newestFirst, w.seen, w.frontier), sc.Reportable();
    ConfirmedGrows(sc.matcher, sc.newestFirst, w.seen, w.frontier, sc.seen, sc.frontier);
    ConfirmedIsAhead(sc.matcher, sc.newestFirst, sc.log, sc.ranges, sc.seen, sc.frontier);
    var all, ordered := Hits(sc.matcher, InRanges(sc.log, sc.ranges)), Ordered(InRanges(sc.log, sc.ranges));
    AllIsLog(sc.matcher, sc.log, sc.ranges, sc.seen);
    ReportGrows(c0, c1, all, ordered, limit, sc.newestFirst, sc.lastAt, sc.last, sc.lastOK, sc.parked);
  }

  lemma BudgetIsSpent(sc: SearchScan, w: Walk, chunk: nat)
    requires sc.parked == w.parked
    requires sc.newestFirst ==> forall p :: p in sc.ranges && p in sc.frontier && p !in w.parked && p !in sc.stuck ==>
              MovedOn(sc.ranges, chunk, sc.seen, sc.frontier, p)
    ensures sc.newestFirst ==> SpentBudget(sc, chunk)
  {
  }

  lemma SettledIsOver(sc: SearchScan, limit: nat, w: Walk, chunk: nat, drainAfter: nat,
                      cursors: map<Partition, ScanCursor>,
                      next: map<Partition, int>, batch: RecordBatch)
    requires Coupled(w) && PolledFrom(w, chunk, drainAfter, cursors, next, batch)
        && Applied(w, batch, sc.drained, sc.stuck, sc.frontier)
    requires w.ranges == sc.ranges && w.newestFirst == sc.newestFirst && w.parked <= sc.parked
        && sc.frontier.Keys == sc.ranges.Keys
    requires sc.IsSettled(limit)
    ensures AllOver(sc)
  {
    hide Coupled, PolledFrom, Applied;
    if sc.newestFirst {
      AppliedIsOver(w, chunk, drainAfter, cursors, next, batch, sc.drained, sc.stuck, sc.frontier);
    }
  }

  lemma IsSearched(w: Walk, batch: RecordBatch, sc: SearchScan, limit: nat, stopOnLimit: bool)
    requires sc.Valid() && sc.CacheValid(limit) && sc.ParkedBehind(limit)
    requires w.log == sc.log && w.ranges == sc.ranges && w.newestFirst == sc.newestFirst
    requires sc.seen == w.seen + Visited(batch.records, |batch.records|, w.parked)
    requires Applied(w, batch, sc.drained, sc.stuck, sc.frontier)
    requires w.parked <= sc.parked && (!stopOnLimit ==> sc.parked == {})
    ensures Searched(w, batch, sc, limit, stopOnLimit)
  {
    hide Applied, Visited;
  }

  /** Feeds the scanned records into sc until the ranges are drained, the budget
      is spent, the page is settled (stopOnLimit) or full, or the time is up. */
  method RunSearch(scan: RecordScan, sc: SearchScan, limit: nat, budget: nat, stopOnLimit: bool) returns (stop: Stop)
    requires limit > 0 && sc.read < budget
    requires Searching(scan, sc, limit, stopOnLimit) && NothingGivenUp(sc)
    requires CountedBy(scan.client.broker.polls, scan.begin, scan.emptyPolls)
    modifies scan, scan.client, scan.client.broker, sc
    ensures old(scan.client.broker.polls) <= scan.client.broker.polls
    ensures sc.Valid() && sc.read <= budget && sc.ParkedBehind(limit) && (!stopOnLimit ==> sc.parked == {})
    ensures stop == BudgetExhausted ==> sc.read == budget && (sc.newestFirst ==> SpentBudget(sc, scan.chunk))
    ensures stop == Complete ==> CompletePage(sc, limit, stopOnLimit)
    // The reader only gives a partition up after drainAfter empty polls in a row.
    ensures NothingGivenUp(sc) || EmptySince(scan.client.broker.polls, scan.begin, scan.drainAfter)
    ensures scan.begin <= |scan.client.broker.polls| && (stop == TimedOut || stop == Failed ==>
        SomeFailed(scan.client.broker.polls[scan.begin..]))
  {
    hide *;
    ghost var broker, polls := scan.client.broker, scan.client.broker.polls;
    CountedBegin(polls, scan.begin, scan.emptyPolls);
    while scan.cursors.Keys != {}
      invariant Searching(scan, sc, limit, stopOnLimit) && sc.read < budget
      invariant CountedBy(broker.polls, scan.begin, scan.emptyPolls) && scan.client.broker == broker
          && polls <= broker.polls
      invariant scan.begin <= |broker.polls|
      invariant NothingGivenUp(sc) || EmptySince(broker.polls, scan.begin, scan.drainAfter)
      decreases OpenOffsets(scan.cursors), Unfetched(scan.client.log, scan.client.next),
          scan.drainAfter - scan.emptyPolls
    {
      Unpack(scan, sc, limit, stopOnLimit);
      ghost var w, empty0, polls0 := WalkOf(scan, sc), scan.emptyPolls, broker.polls;
      var ev := scan.Poll();
      LaterPolls(polls0, broker.polls, scan.begin, scan.drainAfter);
      if ev.ScanFailed? {
        return if ev.error == DeadlineExceeded then TimedOut else Failed;
      }
      var batch := ev.batch;
      ghost var cursors, next := scan.cursors, scan.client.next;
      IsPoll(w, scan.chunk, scan.drainAfter, cursors, next, batch);
      if batch.records != [] || batch.drained != {} || batch.chunks != map[] {
        var ended, why := SearchBatch(sc, batch, limit, budget, stopOnLimit, w, scan.chunk, scan.drainAfter, cursors,
                                      next);
        if ended {
          return why;
        }
      } else {
        NothingSearched(w, batch, sc, limit, stopOnLimit);
      }
      scan.Advance(w.cursors, w.next);
      Repack(scan, sc, w, cursors, next, batch, limit, stopOnLimit);
      RoundShrinks(w.log, w.ranges, scan.chunk, scan.drainAfter, w.cursors, w.next, empty0, cursors, next,
                   scan.cursors, scan.client.next, scan.emptyPolls);
    }
    Unpack(scan, sc, limit, stopOnLimit);
    DrainedIsOver(scan, sc, limit, stopOnLimit);
    OverIsComplete(sc, limit, stopOnLimit);
    return Complete;
  }

  lemma Unpack(scan: RecordScan, sc: SearchScan, limit: nat, stopOnLimit: bool)
    requires Searching(scan, sc, limit, stopOnLimit)
    ensures scan.Idle() && SameTopic(scan, sc)
    ensures IdleAt(scan.ranges, scan.chunk, scan.drainAfter, scan.cursors, scan.client.next)
    ensures sc.Valid() && sc.CacheValid(limit) && sc.ParkedBehind(limit)
    ensures Coupled(WalkOf(scan, sc)) && AtWalk(WalkOf(scan, sc), sc)
    ensures WalkOf(scan, sc).cursors == scan.cursors && WalkOf(scan, sc).next == scan.client.next
    ensures WalkOf(scan, sc).log == scan.client.log && WalkOf(scan, sc).ranges == scan.ranges
    ensures WalkOf(scan, sc).newestFirst <==> scan.chunk > 0
    ensures !stopOnLimit ==> sc.parked == {}
  {
    hide IdleAt, Coupled;
  }

  lemma IsPoll(w: Walk, chunk: nat, drainAfter: nat, cursors: map<Partition, ScanCursor>, next: map<Partition, int>,
               batch: RecordBatch)
    requires IdleAt(w.ranges, chunk, drainAfter, w.cursors, w.next) && (w.newestFirst <==> chunk > 0)
    requires Polled(w.cursors, cursors, next) && BatchOf(w.log, chunk, cursors, w.next, next, batch)
    ensures PolledFrom(w, chunk, drainAfter, cursors, next, batch)
  {
    hide IdleAt, Polled, BatchOf;
  }

  /** An empty batch changes nothing. */
  lemma NothingSearched(w: Walk, batch: RecordBatch, sc: SearchScan, limit: nat, stopOnLimit: bool)
    requires AtWalk(w, sc) && sc.Valid() && sc.CacheValid(limit) && sc.ParkedBehind(limit)
        && (!stopOnLimit ==> sc.parked == {})
    requires batch.records == [] && batch.drained == {} && batch.chunks == map[]
    ensures Searched(w, batch, sc, limit, stopOnLimit)
  {
    hide AreDetails, AreMatches, AreOffsets, AreCounts, ArePending, AreLowest, AreLowestTS, AreHighest, AreEnded,
      IsFrontier;
    NoneVisited(batch.records, w.parked);
  }

  lemma Repack(scan: RecordScan, sc: SearchScan, w: Walk, cursors: map<Partition, ScanCursor>,
               next: map<Partition, int>,
               batch: RecordBatch, limit: nat, stopOnLimit: bool)
    requires SameTopic(scan, sc) && scan.Idle() && Searched(w, batch, sc, limit, stopOnLimit)
    requires Coupled(w) && PolledFrom(w, scan.chunk, scan.drainAfter, cursors, next, batch)
    requires AdvancedFrom(scan.chunk, cursors, next, scan.cursors, scan.client.next)
    ensures Searching(scan, sc, limit, stopOnLimit)
  {
    hide Coupled, PolledFrom, Applied, AdvancedFrom, IdleAt, Visited, AreMatches, AreOffsets, AreCounts, ArePending,
      AreLowest,
      AreLowestTS, AreHighest, AreEnded, IsFrontier;
    StepKeepsCoupling(w, scan.chunk, scan.drainAfter, cursors, next, batch, WalkOf(scan, sc));
  }

  lemma DrainedIsOver(scan: RecordScan, sc: SearchScan, limit: nat, stopOnLimit: bool)
    requires Searching(scan, sc, limit, stopOnLimit) && scan.cursors.Keys == {}
    ensures AllOver(sc)
  {
    var w := WalkOf(scan, sc);
    NoCursors(w);
    if sc.newestFirst {
      CoupledIsOver(w);
    }
  }
}
