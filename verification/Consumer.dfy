/** Reading pages of a topic: internal/kafka/consumer.go. */
module Consumer {
  import opened Records
  import opened Sorting
  import opened RecordSource
  import opened ConsumeState
  import opened ConsumeTails
  import opened ConsumePages

  /** Merges the collected records, in any order of the partitions, sorts them and cuts to limit. */
  method MergePage(collected: Collected, newestFirst: bool, limit: nat) returns (page: seq<Record>)
    requires AreGroups(collected)
    ensures FirstOf(page, Everything(collected), limit, newestFirst)
    // In fields, on the page and between the page and what it leaves out.
    ensures forall i, j :: 0 <= i < j < |page| ==>
              if newestFirst then page[i].ts >= page[j].ts else page[i].ts <= page[j].ts
    ensures forall i, j :: 0 <= i < j < |page| && page[i].ts == page[j].ts ==>
              && page[i].part <= page[j].part
              && (page[i].part == page[j].part ==>
                (page[i].off > page[j].off <==> newestFirst) && page[i].off != page[j].off)
    ensures forall a, b :: a in page && b in Everything(collected) && b !in page ==>
              if newestFirst then a.ts >= b.ts else a.ts <= b.ts
  {
    hide *;
    var merged: seq<Record> := [];
    NothingMerged(collected);
    var todo := collected.Keys;
    while todo != {}
      invariant todo <= collected.Keys && MergedBut(collected, todo, merged)
    {
      var p :| p in todo;
      MergeGroup(collected, todo, merged, p);
      todo := todo - {p};
      merged := merged + collected[p];
    }
    AllMerged(collected, merged);
    SortedStrictly(merged, newestFirst);
    merged := Sort(merged, ByTime(newestFirst));
    SortedPrefix(merged, Everything(collected), limit, newestFirst);
    page := if |merged| > limit then merged[..limit] else merged;
    PageInFields(page, Everything(collected), limit, newestFirst);
  }

  lemma PageInFields(page: seq<Record>, s: set<Record>, limit: nat, newestFirst: bool)
    requires FirstOf(page, s, limit, newestFirst)
    ensures forall i, j :: 0 <= i < j < |page| ==>
              if newestFirst then page[i].ts >= page[j].ts else page[i].ts <= page[j].ts
    ensures forall i, j :: 0 <= i < j < |page| && page[i].ts == page[j].ts ==>
              && page[i].part <= page[j].part
              && (page[i].part == page[j].part ==>
                (page[i].off > page[j].off <==> newestFirst) && page[i].off != page[j].off)
    ensures forall a, b :: a in page && b in s && b !in page ==> if newestFirst then a.ts >= b.ts else a.ts <= b.ts
  {
    SortedInFields(page, newestFirst);
  }

  lemma NothingMerged(collected: Collected)
    ensures MergedBut(collected, collected.Keys, [])
  {
  }

  method ForwardPageSettled(windows: Windows, collected: Collected, drained: set<Partition>, limit: nat)
    returns (settled: bool)
    requires AreGroups(collected) && limit > 0
    ensures settled <==> AreSettled(windows, collected, drained, limit)
  {
    hide FirstOf, Everything, AreGroups, PastPage;
    var page := MergePage(collected, false, limit);
    var todo := windows.Keys;
    settled := true;
    while todo != {}
      invariant todo <= windows.Keys
      invariant forall p :: p in windows && p !in drained && p !in todo ==> PastPage(collected, page, limit, p)
    {
      var p :| p in todo;
      todo := todo - {p};
      if p !in drained {
        var got := Got(collected, p);
        IsPast(collected, page, limit, p);
        if |got| == 0 {
          return false;
        }
        var last := got[|got| - 1];
        var next := Record(p, last.off + 1, last.ts, false, "");
        if |page| < limit || CompareMessages(next, page[|page| - 1], false) < 0 {
          return false;
        }
      }
    }
    forall other | FirstOf(other, Everything(collected), limit, false) ensures ForwardSettled(windows, collected,
        drained, limit, other) {
      FirstOfIsUnique(page, other, Everything(collected), limit, false);
    }
  }

  lemma IsPast(collected: Collected, page: seq<Record>, limit: nat, p: Partition)
    requires limit > 0
    ensures PastPage(collected, page, limit, p) <==>
              var got := Got(collected, p);
              && got != [] && limit <= |page|
              && CompareMessages(Record(p, got[|got| - 1].off + 1, got[|got| - 1].ts, false, ""), page[|page| - 1],
                                 false) >= 0
  {
  }

  /** Whether every window was read to its end: it ended, or holds one record per offset. */
  method WindowsComplete(windows: Windows, collected: Collected, ended: set<Partition>) returns (complete: bool)
    ensures complete <==> AllComplete(windows, collected, ended)
  {
    var todo := windows.Keys;
    while todo != {}
      invariant todo <= windows.Keys
      invariant forall p ::
          p in windows && p !in todo ==> p in ended || |Got(collected, p)| >= windows[p].stop - windows[p].begin
    {
      var p :| p in todo;
      todo := todo - {p};
      if p !in ended && |Got(collected, p)| < windows[p].stop - windows[p].begin {
        return false;
      }
    }
    return true;
  }

  /** The windows were read up to `upto`, the ended ones to their stops. */
  ghost predicate HasRead(log: set<Record>, windows: Windows, collected: Collected, upto: map<Partition, int>,
                          ended: set<Partition>) {
    AllReadUpTo(log, windows, collected, upto) && forall p :: p in windows && p in ended ==> upto[p] == windows[p].stop
  }

  /** The state of the loop once the reader advanced from the given cursors. */
  ghost predicate CollectsFrom(log: set<Record>, windows: Windows, collected: Collected, upto: map<Partition, int>,
                               drained: set<Partition>, ended: set<Partition>, cursors: map<Partition, ScanCursor>,
                                 next: map<Partition, int>)
  {
    forall cursors2: map<Partition, ScanCursor>, next2: map<Partition, int> ::
      AdvancedFrom(0, cursors, next, cursors2, next2) ==>
      Collecting(log, windows, collected, upto, drained, ended, cursors2, next2)
  }

  lemma CollectOn(log: set<Record>, windows: Windows, collected: Collected, upto: map<Partition, int>,
                  drained: set<Partition>, ended: set<Partition>,
                  cursors: map<Partition, ScanCursor>, next: map<Partition, int>, cursors2: map<Partition, ScanCursor>,
                    next2: map<Partition, int>)
    requires CollectsFrom(log, windows, collected, upto, drained, ended, cursors, next)
        && AdvancedFrom(0, cursors, next, cursors2, next2)
    ensures Collecting(log, windows, collected, upto, drained, ended, cursors2, next2)
  {
    hide AdvancedFrom, Collecting;
  }

  /** Each window ended or holds one record per offset. */
  ghost predicate AllComplete(windows: Windows, collected: Collected, ended: set<Partition>) {
    forall p :: p in windows ==> p in ended || |Got(collected, p)| >= windows[p].stop - windows[p].begin
  }

  ghost predicate Inside(a: set<Partition>, b: set<Partition>) {
    a <= b
  }

  lemma NothingDrained()
    ensures Inside({}, {})
  {
  }

  lemma EndedAreRead(windows: Windows, upto: map<Partition, int>, drained: set<Partition>, ended: set<Partition>,
                     log: set<Record>, collected: Collected)
    requires HasRead(log, windows, collected, upto, ended) && Inside(drained, ended) && upto.Keys == windows.Keys
    ensures forall p :: p in windows && p in drained ==> upto[p] == windows[p].stop
  {
  }

  /** Once every partition is drained, none without its end, the page is settled. */
  lemma DrainedIsSettled(log: set<Record>, windows: Windows, collected: Collected, upto: map<Partition, int>,
                         drained: set<Partition>, ended: set<Partition>, cursors: map<Partition, ScanCursor>,
                           next: map<Partition, int>, limit: nat)
    requires Collecting(log, windows, collected, upto, drained, ended, cursors, next) && cursors.Keys == {}
        && Inside(drained, ended)
    ensures upto.Keys == windows.Keys && Settles(windows, collected, upto, limit) && Inside(windows.Keys, ended)
  {
    CollectingFacts(log, windows, collected, upto, drained, ended, cursors, next);
    hide Settles, Collecting;
    DrainedSettles(log, windows, collected, upto, drained, ended, cursors, next, limit);
  }

  lemma ReadSoFar(log: set<Record>, windows: Windows, collected: Collected, upto: map<Partition, int>,
                  ended: set<Partition>, complete: bool)
    requires IsLog(log) && HasRead(log, windows, collected, upto, ended)
    requires complete <==> AllComplete(windows, collected, ended)
    ensures AllReadUpTo(log, windows, collected, upto)
    ensures complete ==> AllFullyRead(log, windows, collected)
    ensures Inside(windows.Keys, ended) ==> complete
  {
    hide IsLog, AllReadUpTo, AllFullyRead;
    if complete {
      CompleteIsFull(log, windows, collected, upto, ended);
    }
  }

  lemma Undisturbed(polls: seq<PollResult>, begin: nat)
    requires begin <= |polls|
    ensures EmptySince(polls, begin, 2) || SomeFailed(polls[begin..]) ==> Disturbed(polls[begin..], 2)
  {
    hide EmptyRun;
  }

  /** A partition is drained without its end only when a chunk was given up. */
  lemma EndsUnlessForced(log: set<Record>, cursors: map<Partition, ScanCursor>, next0: map<Partition, int>,
                         next: map<Partition, int>,
                         batch: RecordBatch, drained: set<Partition>, ended: set<Partition>)
    requires BatchOf(log, 0, cursors, next0, next, batch)
    ensures Inside(drained, ended) && !Forces(cursors) ==> Inside(drained + batch.drained, ended + batch.ended)
  {
    hide RecordsOf;
  }

  lemma CollectedSo(log: set<Record>, windows: Windows, collected: Collected, upto: map<Partition, int>,
                    drained: set<Partition>, ended: set<Partition>, cursors: map<Partition, ScanCursor>,
                      next: map<Partition, int>)
    requires AllReadUpTo(log, windows, collected, upto) && upto.Keys == windows.Keys
        && forall p :: p in windows && p in ended ==> upto[p] == windows[p].stop
    requires forall cursors2: map<Partition, ScanCursor>, next2: map<Partition, int> ::
        AdvancedFrom(0, cursors, next, cursors2, next2) ==>
               Collecting(log, windows, collected, upto, drained, ended, cursors2, next2)
    ensures HasRead(log, windows, collected, upto, ended)
        && CollectsFrom(log, windows, collected, upto, drained, ended, cursors, next)
  {
    hide AllReadUpTo, AdvancedFrom, Collecting;
  }

  /** One batch of collectWindows' loop, and whether it is the last one needed. */
  method CollectBatch(ghost log: set<Record>, windows: Windows, limit: nat, forward: bool, collected0: Collected,
                      ghost upto0: map<Partition, int>,
                      drained0: set<Partition>, ended0: set<Partition>, ghost ranges: map<Partition, Range>,
                      ghost cursors0: map<Partition, ScanCursor>, ghost next0: map<Partition, int>,
                      ghost cursors1: map<Partition, ScanCursor>, ghost next1: map<Partition, int>, batch: RecordBatch)
    returns (collected: Collected, drained: set<Partition>, ended: set<Partition>, ghost upto: map<Partition, int>,
             enough: bool)
    requires IsLog(log) && limit > 0
    requires Collecting(log, windows, collected0, upto0, drained0, ended0, cursors0, next0)
        && IdleAt(ranges, 0, 2, cursors0, next0)
    requires Polled(cursors0, cursors1, next1) && BatchOf(log, 0, cursors1, next0, next1, batch)
    ensures HasRead(log, windows, collected, upto, ended) && upto.Keys == windows.Keys
    ensures CollectsFrom(log, windows, collected, upto, drained, ended, cursors1, next1)
    ensures Inside(drained0, ended0) && !Forces(cursors1) ==> Inside(drained, ended)
    ensures enough && forward && Inside(drained, ended) ==> Settles(windows, collected, upto, limit)
    ensures enough && !forward ==> AllComplete(windows, collected, ended)
    // It goes on exactly while the page could still change.
    ensures enough <==> (batch.records != [] || batch.drained != {} || batch.chunks != map[])
                        && if forward then AreSettled(windows, collected, drained, limit)
                          else AllComplete(windows, collected, ended)
  {
    hide *;
    EndsUnlessForced(log, cursors1, next0, next1, batch, drained0, ended0);
    collected := AppendBatch(log, windows, collected0, upto0, drained0, ended0, ranges, cursors0, next0, cursors1,
                             next1, batch);
    drained, ended := drained0 + batch.drained, ended0 + batch.ended;
    upto := Positions(windows, upto0, cursors1, next1);
    CollectedSo(log, windows, collected, upto, drained, ended, cursors1, next1);
    enough := false;
    if batch.records != [] || batch.drained != {} || batch.chunks != map[] {
      if forward {
        ReadGroups(log, windows, collected, upto);
        enough := ForwardPageSettled(windows, collected, drained, limit);
        if enough && Inside(drained, ended) {
          EndedAreRead(windows, upto, drained, ended, log, collected);
          SettledEnough(windows, collected, upto, drained, limit);
        }
      } else {
        enough := WindowsComplete(windows, collected, ended);
      }
    }
  }

  /** The loop of collectWindows between polls, with the polls answered since `begin`. */
  ghost predicate AtRound(scan: RecordScan, begin: nat, windows: Windows, ranges: map<Partition, Range>,
                          collected: Collected,
                          upto: map<Partition, int>, drained: set<Partition>, ended: set<Partition>)
    reads scan, scan.client, scan.client.broker
  {
    && scan.Idle() && scan.ranges == ranges && scan.chunk == 0 && scan.drainAfter == 2
    && scan.begin == begin && CountedBy(scan.client.broker.polls, begin, scan.emptyPolls)
    && (Inside(drained, ended) || EmptySince(scan.client.broker.polls, begin, 2))
    && Collecting(scan.client.log, windows, collected, upto, drained, ended, scan.cursors, scan.client.next)
  }

  lemma RoundFacts(scan: RecordScan, begin: nat, windows: Windows, ranges: map<Partition, Range>, collected: Collected,
                   upto: map<Partition, int>, drained: set<Partition>, ended: set<Partition>)
    requires AtRound(scan, begin, windows, ranges, collected, upto, drained, ended)
    ensures scan.Idle() && scan.ranges == ranges && scan.chunk == 0 && scan.drainAfter == 2 && scan.begin == begin
    ensures IdleAt(ranges, 0, 2, scan.cursors, scan.client.next)
    ensures begin <= |scan.client.broker.polls| && CountedBy(scan.client.broker.polls, begin, scan.emptyPolls)
    ensures Inside(drained, ended) || EmptySince(scan.client.broker.polls, begin, 2)
    ensures Collecting(scan.client.log, windows, collected, upto, drained, ended, scan.cursors, scan.client.next)
    ensures upto.Keys == windows.Keys && HasRead(scan.client.log, windows, collected, upto, ended)
  {
    hide AllReadUpTo, IdleAt, EmptySince;
  }

  lemma IsAtRound(scan: RecordScan, begin: nat, windows: Windows, ranges: map<Partition, Range>, collected: Collected,
                  upto: map<Partition, int>, drained: set<Partition>, ended: set<Partition>)
    requires scan.Idle() && scan.ranges == ranges && scan.chunk == 0 && scan.drainAfter == 2 && scan.begin == begin
    requires CountedBy(scan.client.broker.polls, begin, scan.emptyPolls)
    requires Inside(drained, ended) || EmptySince(scan.client.broker.polls, begin, 2)
    requires Collecting(scan.client.log, windows, collected, upto, drained, ended, scan.cursors, scan.client.next)
    ensures AtRound(scan, begin, windows, ranges, collected, upto, drained, ended)
  {
    hide Collecting, EmptySince, CountedBy;
  }

  datatype Round = GoesOn | HasEnough | TimeIsUp | FetchFails

  /** One round of the loop: a poll, its batch, and the reader's advance. */
  method CollectRound(scan: RecordScan, windows: Windows, limit: nat, forward: bool, collected0: Collected,
                      ghost upto0: map<Partition, int>,
                      drained0: set<Partition>, ended0: set<Partition>, ghost ranges: map<Partition, Range>,
                        ghost begin: nat)
    returns (collected: Collected, drained: set<Partition>, ended: set<Partition>, ghost upto: map<Partition, int>,
             round: Round)
    requires IsLog(scan.client.log) && limit > 0 && scan.cursors.Keys != {}
    requires AtRound(scan, begin, windows, ranges, collected0, upto0, drained0, ended0)
    modifies scan, scan.client, scan.client.broker
    ensures old(scan.client.broker.polls) <= scan.client.broker.polls && begin <= |scan.client.broker.polls|
    ensures upto.Keys == windows.Keys && HasRead(scan.client.log, windows, collected, upto, ended)
    ensures Inside(drained, ended) || EmptySince(scan.client.broker.polls, begin, 2)
    ensures round == TimeIsUp || round == FetchFails ==> SomeFailed(scan.client.broker.polls[begin..])
    ensures round == HasEnough && forward && Inside(drained, ended) ==> Settles(windows, collected, upto, limit)
    ensures round == HasEnough && !forward ==> AllComplete(windows, collected, ended)
    ensures round == GoesOn ==> AtRound(scan, begin, windows, ranges, collected, upto, drained, ended)
    ensures round == GoesOn ==>
      || OpenOffsets(scan.cursors) < old(OpenOffsets(scan.cursors))
      || (OpenOffsets(scan.cursors) == old(OpenOffsets(scan.cursors))
          && Unfetched(scan.client.log, scan.client.next) < old(Unfetched(scan.client.log, scan.client.next)))
      || (OpenOffsets(scan.cursors) == old(OpenOffsets(scan.cursors)) && scan.client.next == old(scan.client.next)
          && old(scan.emptyPolls) < scan.emptyPolls < 2)
  {
    hide *;
    RoundFacts(scan, begin, windows, ranges, collected0, upto0, drained0, ended0);
    collected, drained, ended, upto := collected0, drained0, ended0, upto0;
    ghost var log, cursors0, next0, empty0, polls0 := scan.client.log, scan.cursors, scan.client.next, scan.emptyPolls,
      scan.client.broker.polls;
    var ev := scan.Poll();
    LaterPolls(polls0, scan.client.broker.polls, begin, 2);
    if ev.ScanFailed? {
      round := if ev.error == FetchFailed then FetchFails else TimeIsUp;
      return;
    }
    ghost var cursors1, next1 := scan.cursors, scan.client.next;
    var enough;
    collected, drained, ended, upto, enough := CollectBatch(log, windows, limit, forward, collected, upto, drained,
                                                            ended, ranges,
      cursors0, next0, cursors1, next1, ev.batch);
    if enough {
      round := HasEnough;
      return;
    }
    scan.Advance(cursors0, next0);
    CollectOn(log, windows, collected, upto, drained, ended, cursors1, next1, scan.cursors, scan.client.next);
    RoundShrinks(log, ranges, 0, 2, cursors0, next0, empty0, cursors1, next1, scan.cursors, scan.client.next,
                 scan.emptyPolls);
    IsAtRound(scan, begin, windows, ranges, collected, upto, drained, ended);
    round := GoesOn;
  }

  /** Reads the windows until the page can be cut (forward), every window is complete
      (backward), the windows are drained or the time is up. `upto` are the offsets it
      read to. Only a failed poll, or two empty ones in a row, cut it short. */
  method CollectWindows(broker: Broker, windows: Windows, limit: nat, forward: bool)
    returns (failed: bool, collected: Collected, complete: bool, ghost upto: map<Partition, int>)
    requires IsLog(broker.log) && AreWindows(windows) && limit > 0
    modifies broker
    ensures old(broker.polls) <= broker.polls
    ensures failed ==> SomeFailed(broker.polls[|old(broker.polls)|..])
    ensures !failed ==> AllReadUpTo(broker.log, windows, collected, upto)
    ensures !failed && complete ==> AllFullyRead(broker.log, windows, collected)
    ensures !failed && forward ==>
        Settles(windows, collected, upto, limit) || Disturbed(broker.polls[|old(broker.polls)|..], 2)
    ensures !failed && !forward ==> complete || Disturbed(broker.polls[|old(broker.polls)|..], 2)
  {
    hide *;
    ghost var log, polls := broker.log, broker.polls;
    var ranges := WindowRanges(windows);
    WindowsAreRanges(windows, ranges);
    var scan := new RecordScan(broker, ranges, 0, 2);
    failed, collected, complete := false, map[], false;
    var drained: set<Partition>, ended: set<Partition> := {}, {};
    upto := map p | p in windows :: windows[p].begin;
    StartsCollecting(log, windows, scan.cursors, scan.client.next);
    NothingDrained();
    NoPollYet(polls);
    IsAtRound(scan, |polls|, windows, ranges, collected, upto, drained, ended);
    RoundFacts(scan, |polls|, windows, ranges, collected, upto, drained, ended);
    var round := GoesOn;
    while round == GoesOn && scan.cursors.Keys != {}
      invariant fresh(scan) && fresh(scan.client) && scan.client.broker == broker && scan.client.log == log
          && scan.drainAfter == 2
      invariant polls <= broker.polls && upto.Keys == windows.Keys && HasRead(log, windows, collected, upto, ended)
      invariant Inside(drained, ended) || EmptySince(broker.polls, |polls|, 2)
      invariant round == GoesOn ==> AtRound(scan, |polls|, windows, ranges, collected, upto, drained, ended)
      invariant round == TimeIsUp ==> SomeFailed(broker.polls[|polls|..])
      invariant round == HasEnough && forward && Inside(drained, ended) ==> Settles(windows, collected, upto, limit)
      invariant round == HasEnough && !forward ==> AllComplete(windows, collected, ended)
      invariant round != FetchFails
      decreases round == GoesOn, OpenOffsets(scan.cursors), Unfetched(scan.client.log, scan.client.next),
          scan.drainAfter - scan.emptyPolls
    {
      collected, drained, ended, upto, round := CollectRound(scan, windows, limit, forward, collected, upto, drained,
          ended, ranges, |polls|);
      if round == FetchFails {
        failed := true;
        return;
      }
    }
    if round == GoesOn && Inside(drained, ended) {
      RoundFacts(scan, |polls|, windows, ranges, collected, upto, drained, ended);
      DrainedIsSettled(log, windows, collected, upto, drained, ended, scan.cursors, scan.client.next, limit);
    }
    Undisturbed(broker.polls, |polls|);
    complete := WindowsComplete(windows, collected, ended);
    ReadSoFar(log, windows, collected, upto, ended, complete);
  }

  lemma WindowsAreRanges(windows: Windows, ranges: map<Partition, Range>)
    requires AreWindows(windows) && ranges.Keys == windows.Keys
        && forall p :: p in windows ==> ranges[p] == Range(windows[p].begin, windows[p].stop)
    ensures ValidRanges(ranges)
  {
  }

  /** Appends the records of a batch to their partitions. */
  method AppendBatch(ghost log: set<Record>, ghost windows: Windows, collected0: Collected,
                     ghost upto: map<Partition, int>,
                     ghost drained: set<Partition>, ghost ended: set<Partition>, ghost ranges: map<Partition, Range>,
                     ghost cursors0: map<Partition, ScanCursor>, ghost next0: map<Partition, int>,
                     ghost cursors1: map<Partition, ScanCursor>, ghost next1: map<Partition, int>, batch: RecordBatch)
    returns (collected: Collected)
    requires Collecting(log, windows, collected0, upto, drained, ended, cursors0, next0)
        && IdleAt(ranges, 0, 2, cursors0, next0)
    requires Polled(cursors0, cursors1, next1) && BatchOf(log, 0, cursors1, next0, next1, batch)
    ensures upto.Keys == windows.Keys
    ensures AllReadUpTo(log, windows, collected, Positions(windows, upto, cursors1, next1))
    ensures Positions(windows, upto, cursors1, next1).Keys == windows.Keys
    ensures forall p ::
        p in windows && p in ended + batch.ended ==> Positions(windows, upto, cursors1, next1)[p] == windows[p].stop
    ensures forall cursors2: map<Partition, ScanCursor>, next2: map<Partition, int> ::
        AdvancedFrom(0, cursors1, next1, cursors2, next2) ==>
              Collecting(log, windows, collected, Positions(windows, upto, cursors1, next1), drained + batch.drained,
                         ended + batch.ended, cursors2, next2)
  {
    hide *;
    CollectingFacts(log, windows, collected0, upto, drained, ended, cursors0, next0);
    BatchRecords(log, 0, cursors1, next0, next1, batch);
    BatchFollows(log, windows, collected0, upto, cursors0, next0, cursors1, next1, batch.records);
    collected := collected0;
    AppendNothing(log, windows, collected0, upto, batch.records);
    for n := 0 to |batch.records|
      invariant Appended(windows, collected0, batch.records, n, collected)
    {
      var rec := batch.records[n];
      AppendStep(windows, collected0, batch.records, n, collected);
      collected := collected[rec.part := Got(collected, rec.part) + [rec]];
    }
    KeepsCollecting(log, windows, collected0, upto, drained, ended, ranges, 2, cursors0, next0, cursors1, next1, batch,
                    collected);
    PositionKeys(windows, upto, cursors1, next1);
  }

  lemma PositionKeys(windows: Windows, upto: map<Partition, int>, cursors: map<Partition, ScanCursor>,
                     next: map<Partition, int>)
    requires upto.Keys == windows.Keys
    ensures Positions(windows, upto, cursors, next).Keys == windows.Keys
  {
  }

  lemma BatchRecords(log: set<Record>, chunk: nat, cursors: map<Partition, ScanCursor>,
                     next0: map<Partition, int>, next: map<Partition, int>, batch: RecordBatch)
    requires BatchOf(log, chunk, cursors, next0, next, batch)
    ensures RecordsOf(log, cursors, next0, next, batch.records)
  {
  }

  /** The extra windows below every window whose unread records could still belong on the page. */
  method RefillPlan(windows: Windows, collected: Collected, limit: nat)
    returns (extra: Windows, ghost page: seq<Record>)
    requires AreWindows(windows) && AreGroups(collected) && limit > 0
    ensures FirstOf(page, Everything(collected), limit, true)
    ensures IsRefillPlan(windows, collected, page, limit, extra)
    ensures forall newest ::
        FirstOf(newest, Everything(collected), limit, true) ==> IsRefillPlan(windows, collected, newest, limit, extra)
  {
    hide FirstOf, Everything, AreGroups, Before;
    var newest := MergePage(collected, true, limit);
    page := newest;
    var full := |newest| == limit;
    extra := map[];
    var todo := windows.Keys;
    while todo != {}
      invariant todo <= windows.Keys
      invariant forall p ::
          p in extra <==> p in windows && p !in todo && NeedsMore(windows, collected, newest, limit, p)
      invariant forall p :: p in extra ==> extra[p] == ExtraWindow(windows[p], |Got(collected, p)|, limit)
    {
      var p :| p in todo;
      todo := todo - {p};
      var w, got := windows[p], Got(collected, p);
      if w.begin <= w.trueBegin || |got| >= limit {
        continue;
      }
      if full {
        if |got| == 0 {
          continue;
        }
        if CompareMessages(JustBelow(w.begin, p, got[0].ts), newest[|newest| - 1], true) > 0 {
          continue;
        }
      }
      extra := extra[p := ExtraWindow(w, |got|, limit)];
    }
    forall other | FirstOf(other, Everything(collected), limit, true) ensures other == newest {
      FirstOfIsUnique(newest, other, Everything(collected), limit, true);
    }
  }

  /** Joins each extra window, and what it held, to its window. */
  method JoinExtra(windows0: Windows, collected0: Collected, extra: Windows, more: Collected)
    returns (windows: Windows, collected: Collected)
    requires extra.Keys <= windows0.Keys && forall p :: p in collected0 ==> p in windows0
    ensures IsRefilled(windows0, collected0, extra, more, windows, collected)
  {
    windows, collected := windows0, collected0;
    var todo := extra.Keys;
    while todo != {}
      invariant todo <= extra.Keys && windows.Keys == windows0.Keys && (forall p :: p in collected ==> p in windows0)
      invariant forall p :: p in windows0 ==>
        windows[p] == if p in extra && p !in todo then windows0[p].(begin := extra[p].begin) else windows0[p]
      invariant forall p :: p in windows0 ==>
        Got(collected, p) == if p in extra && p !in todo then Got(more, p) + Got(collected0, p) else Got(collected0, p)
    {
      var p :| p in todo;
      todo := todo - {p};
      windows := windows[p := windows[p].(begin := extra[p].begin)];
      collected := collected[p := Got(more, p) + Got(collected, p)];
    }
  }

  /** Widens the windows that may hold too few records, until none needs more, the
      rounds are used up or a round could not be read to its end; such a round is dropped. */
  method RefillWindows(broker: Broker, windows0: Windows, collected0: Collected, limit: nat)
    returns (failed: bool, windows: Windows, collected: Collected, complete: bool, ghost rounds: nat)
    requires IsLog(broker.log) && limit > 0 && AreWindows(windows0) && AllFullyRead(broker.log, windows0, collected0)
    modifies broker
    ensures old(broker.polls) <= broker.polls
    ensures failed ==> SomeFailed(broker.polls[|old(broker.polls)|..])
    ensures AreWindows(windows) && AllFullyRead(broker.log, windows, collected)
        && FullRanges(windows) == FullRanges(windows0)
    ensures !failed ==> complete || Disturbed(broker.polls[|old(broker.polls)|..], 2)
    // The windows are the tails after some rounds, after all of them when it is complete.
    ensures AreTails(FullRanges(windows0), WindowRanges(windows0)) && rounds <= MAX_REFILL_ROUNDS
    ensures WindowRanges(windows) == TailsFrom(broker.log, FullRanges(windows0), limit, WindowRanges(windows0), rounds)
    ensures !failed && complete ==> rounds == MAX_REFILL_ROUNDS
  {
    hide *;
    ghost var log, polls, ranges, tails := broker.log, broker.polls, FullRanges(windows0), WindowRanges(windows0);
    failed, windows, collected, complete, rounds := false, windows0, collected0, false, 0;
    RoundsPositive();
    WindowsAreTails(log, windows0);
    NoRounds(log, ranges, limit, tails);
    for round := 0 to MAX_REFILL_ROUNDS
      invariant polls <= broker.polls && rounds == round
      invariant AreWindows(windows) && AllFullyRead(log, windows, collected) && FullRanges(windows) == ranges
      invariant WindowRanges(windows) == TailsFrom(log, ranges, limit, tails, round)
    {
      FullGroups(log, windows, collected);
      FullIsUpTo(log, windows, collected);
      WindowsAreTails(log, windows);
      var extra; ghost var page;
      extra, page := RefillPlan(windows, collected, limit);
      if |extra| == 0 {
        EmptyPlan(log, windows, collected, page, limit, extra);
        StaysWide(log, ranges, limit, tails, round, MAX_REFILL_ROUNDS);
        complete, rounds := true, MAX_REFILL_ROUNDS;
        return;
      }
      PlanIsWindows(windows, collected, page, limit, extra);
      var failure, more, whole; ghost var upto;
      ghost var polls0 := broker.polls;
      failure, more, whole, upto := CollectWindows(broker, extra, limit, false);
      LaterPolls(polls0, broker.polls, |polls|, 2);
      if failure || !whole {
        failed := failure;
        return;
      }
      PlanInside(log, windows, collected, page, limit, extra);
      ghost var windows1, collected1 := windows, collected;
      windows, collected := JoinExtra(windows, collected, extra, more);
      RefilledIsRead(log, windows1, collected1, page, limit, extra, more, windows, collected);
      RoundWidens(log, windows1, collected1, page, limit, extra, more, windows, collected);
      NextTails(log, ranges, limit, tails, round);
      rounds := rounds + 1;
    }
    complete := true;
  }

  lemma RoundsPositive()
    ensures MAX_REFILL_ROUNDS > 0
  {
  }

  lemma FullGroups(log: set<Record>, windows: Windows, collected: Collected)
    requires IsLog(log) && AllFullyRead(log, windows, collected)
    ensures AreGroups(collected)
  {
    FullIsUpTo(log, windows, collected);
    ReadGroups(log, windows, collected, Stops(windows));
  }

  lemma PlanInside(log: set<Record>, windows: Windows, collected: Collected, page: seq<Record>, limit: nat,
                   extra: Windows)
    requires AreWindows(windows) && IsRefillPlan(windows, collected, page, limit, extra)
        && AllFullyRead(log, windows, collected)
    ensures extra.Keys <= windows.Keys && forall p :: p in collected ==> p in windows
  {
    hide NeedsMore, FullyRead, WiderStart;
  }
}
