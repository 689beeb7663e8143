/** Page windows and the records collected in them: the pure part of
    internal/kafka/consumer.go. */
module ConsumeState {
  import opened Sets
  import opened Records
  import opened Sorting
  import opened RecordSource
  import opened SearchState

  /** The offsets [begin, stop) one page scans of a partition; trueBegin is the
      lower bound of the full query range. */
  datatype PageWindow = PageWindow(begin: int, stop: int, trueBegin: int)

  type Windows = map<Partition, PageWindow>

  type Collected = map<Partition, seq<Record>>

  function Got(collected: Collected, p: Partition): seq<Record> {
    if p in collected then collected[p] else []
  }

  ghost predicate AreWindows(windows: Windows) {
    forall p :: p in windows ==> windows[p].trueBegin <= windows[p].begin < windows[p].stop
  }

  ghost predicate ByOffsets(s: seq<Record>) {
    forall i, j :: 0 <= i < j < |s| ==> s[i].off < s[j].off
  }

  /** s holds the records of the window up to an offset, in offset order. */
  ghost predicate ReadUpTo(log: set<Record>, p: Partition, w: PageWindow, s: seq<Record>, upto: int) {
    && w.begin <= upto <= w.stop
    && ByOffsets(s)
    && forall r :: r in s <==> r in Shown(log, p, w.begin, upto)
  }

  ghost predicate AllReadUpTo(log: set<Record>, windows: Windows, collected: Collected, upto: map<Partition, int>) {
    && (forall p :: p in collected ==> p in windows)
    && upto.Keys == windows.Keys
    && (forall p :: p in windows ==> ReadUpTo(log, p, windows[p], Got(collected, p), upto[p]))
  }

  ghost predicate FullyRead(log: set<Record>, p: Partition, w: PageWindow, s: seq<Record>) {
    ReadUpTo(log, p, w, s, w.stop)
  }

  ghost predicate AllFullyRead(log: set<Record>, windows: Windows, collected: Collected) {
    && (forall p :: p in collected ==> p in windows)
    && (forall p :: p in windows ==> FullyRead(log, p, windows[p], Got(collected, p)))
  }

  /** Everything collected. */
  ghost function Everything(collected: Collected): set<Record> {
    set p, i | p in collected && 0 <= i < |collected[p]| :: collected[p][i]
  }

  /** The records all windows show. */
  ghost function InWindows(log: set<Record>, windows: Windows): set<Record> {
    set r | r in log && !r.control && r.part in windows && windows[r.part].begin <= r.off < windows[r.part].stop
  }

  lemma EverythingIs(log: set<Record>, windows: Windows, collected: Collected, upto: map<Partition, int>)
    requires AllReadUpTo(log, windows, collected, upto)
    ensures forall r :: r in Everything(collected) <==>
              r in log && !r.control && r.part in windows && windows[r.part].begin <= r.off < upto[r.part]
    ensures Everything(collected) <= log
  {
    forall r | r in Everything(collected)
      ensures r in log && !r.control && r.part in windows && windows[r.part].begin <= r.off < upto[r.part]
    {
      var p, i :| p in collected && 0 <= i < |collected[p]| && collected[p][i] == r;
      assert r in Got(collected, p);
      assert ReadUpTo(log, p, windows[p], Got(collected, p), upto[p]);
      assert r in Shown(log, p, windows[p].begin, upto[p]);
    }
    forall r | r in log && !r.control && r.part in windows && windows[r.part].begin <= r.off < upto[r.part]
      ensures r in Everything(collected)
    {
      assert ReadUpTo(log, r.part, windows[r.part], Got(collected, r.part), upto[r.part]);
      assert r in Shown(log, r.part, windows[r.part].begin, upto[r.part]);
      assert r in Got(collected, r.part);
    }
  }

  /** A window with one record per offset is read to its end. */
  lemma CountCompletes(log: set<Record>, p: Partition, w: PageWindow, s: seq<Record>, upto: int)
    requires IsLog(log) && ReadUpTo(log, p, w, s, upto) && |s| >= w.stop - w.begin
    ensures FullyRead(log, p, w, s)
  {
    OffsetsGrow(s, w.begin);
    if s != [] {
      assert s[|s| - 1] in s;
      assert s[|s| - 1] in Shown(log, p, w.begin, upto);
    }
    assert upto == w.stop;
  }

  lemma OffsetsGrow(s: seq<Record>, low: int)
    requires ByOffsets(s) && forall r :: r in s ==> low <= r.off
    ensures s != [] ==> low + |s| - 1 <= s[|s| - 1].off
  {
    if s != [] {
      assert forall r :: r in s[..|s| - 1] ==> r in s;
      OffsetsGrow(s[..|s| - 1], low);
      assert s[|s| - 1] in s;
    }
  }

  // --- one batch ---

  /** The read positions after a poll: those of the scan, frozen once it drops a partition. */
  ghost function Positions(windows: Windows, upto: map<Partition, int>, cursors: map<Partition, ScanCursor>,
                           next: map<Partition, int>): map<Partition, int>
    requires upto.Keys == windows.Keys
  {
    map p | p in windows :: if p in cursors && p in next then SeenUpTo(cursors[p], next[p]) else upto[p]
  }

  /** The cursors read the windows, forward, from the positions `upto`. */
  ghost predicate ScansWindows(windows: Windows, upto: map<Partition, int>, cursors: map<Partition, ScanCursor>,
                               next: map<Partition, int>) {
    && cursors.Keys <= windows.Keys && upto.Keys == windows.Keys
    && (forall p :: p in cursors ==>
          && p in next && cursors[p].pos == windows[p].begin && cursors[p].upper == windows[p].stop
          && upto[p] == SeenUpTo(cursors[p], next[p]))
  }

  /** The records of partition p among the first n of a batch come after those collected. */
  ghost predicate Appended(windows: Windows, before: Collected, added: seq<Record>, n: nat, collected: Collected)
    requires n <= |added|
  {
    && (forall p :: p in collected ==> p in windows)
    && (forall p :: p in windows ==> AppendedAt(p, Got(before, p), added[..n], Got(collected, p)))
  }

  ghost predicate AppendedAt(p: Partition, before: seq<Record>, added: seq<Record>, s: seq<Record>) {
    ByOffsets(s) && forall r :: r in s <==> r in before || (r.part == p && r in added)
  }

  ghost predicate Follows(windows: Windows, before: Collected, added: seq<Record>) {
    && InOrder(added)
    && (forall r :: r in added ==> r.part in windows && forall q :: q in Got(before, r.part) ==> q.off < r.off)
  }

  lemma AppendNothing(log: set<Record>, windows: Windows, collected: Collected, upto: map<Partition, int>,
                      added: seq<Record>)
    requires AllReadUpTo(log, windows, collected, upto)
    ensures Appended(windows, collected, added, 0, collected)
  {
    assert added[..0] == [];
  }

  lemma AppendStep(windows: Windows, before: Collected, added: seq<Record>, n: nat, collected: Collected)
    requires n < |added| && Follows(windows, before, added) && Appended(windows, before, added, n, collected)
    ensures Appended(windows, before, added, n + 1, collected[added[n].part := Got(collected, added[n].part)
        + [added[n]]])
  {
    var rec := added[n];
    var after := collected[rec.part := Got(collected, rec.part) + [rec]];
    assert rec in added;
    forall p | p in windows ensures AppendedAt(p, Got(before, p), added[..n + 1], Got(after, p)) {
      assert AppendedAt(p, Got(before, p), added[..n], Got(collected, p));
      AppendOne(p, Got(before, p), added, n, Got(collected, p));
    }
  }

  lemma AppendOne(p: Partition, before: seq<Record>, added: seq<Record>, n: nat, s: seq<Record>)
    requires n < |added| && InOrder(added) && AppendedAt(p, before, added[..n], s)
    requires added[n].part == p ==> forall q :: q in before ==> q.off < added[n].off
    ensures AppendedAt(p, before, added[..n + 1], if added[n].part == p then s + [added[n]] else s)
  {
    assert added[..n + 1] == added[..n] + [added[n]];
    if added[n].part == p {
      forall r | r in s ensures r.off < added[n].off {
        if r !in before {
          var i :| 0 <= i < n && added[i] == r;
        }
      }
    }
  }

  /** After a poll every window is read up to the scan's new positions. */
  lemma PollReads(log: set<Record>, windows: Windows, c0: Collected, upto: map<Partition, int>,
                  before: map<Partition, ScanCursor>, next0: map<Partition, int>,
                  cursors: map<Partition, ScanCursor>, next: map<Partition, int>, records: seq<Record>, c1: Collected)
    requires AllReadUpTo(log, windows, c0, upto) && ScansWindows(windows, upto, before, next0)
    requires Polled(before, cursors, next) && RecordsOf(log, cursors, next0, next, records)
    requires Appended(windows, c0, records, |records|, c1)
    ensures AllReadUpTo(log, windows, c1, Positions(windows, upto, cursors, next))
  {
    var positions := Positions(windows, upto, cursors, next);
    assert records[..|records|] == records;
    forall p | p in windows ensures ReadUpTo(log, p, windows[p], Got(c1, p), positions[p]) {
      assert ReadUpTo(log, p, windows[p], Got(c0, p), upto[p]);
      assert AppendedAt(p, Got(c0, p), records, Got(c1, p));
      PollReadsAt(log, windows, upto, before, next0, cursors, next, records, p, Got(c0, p), Got(c1, p));
    }
  }

  lemma PollReadsAt(log: set<Record>, windows: Windows, upto: map<Partition, int>,
                    before: map<Partition, ScanCursor>, next0: map<Partition, int>,
                    cursors: map<Partition, ScanCursor>, next: map<Partition, int>, records: seq<Record>,
                    p: Partition, s0: seq<Record>, s1: seq<Record>)
    requires p in windows && upto.Keys == windows.Keys && ReadUpTo(log, p, windows[p], s0, upto[p])
        && ScansWindows(windows, upto, before, next0)
    requires Polled(before, cursors, next) && RecordsOf(log, cursors, next0, next, records)
    requires AppendedAt(p, s0, records, s1)
    ensures ReadUpTo(log, p, windows[p], s1, Positions(windows, upto, cursors, next)[p])
  {
    var w := windows[p];
    if p in cursors {
      var at := SeenUpTo(cursors[p], next[p]);
      assert p in before && p in next0 && p in next;
      forall r ensures r in s1 <==> r in Shown(log, p, w.begin, at) {
        assert r in s0 <==> r in Shown(log, p, w.begin, upto[p]);
      }
    } else {
      assert forall r :: r in records ==> r.part in cursors;
    }
  }

  /** A batch's records follow those collected. */
  lemma BatchFollows(log: set<Record>, windows: Windows, c0: Collected, upto: map<Partition, int>,
                     before: map<Partition, ScanCursor>, next0: map<Partition, int>,
                     cursors: map<Partition, ScanCursor>, next: map<Partition, int>, records: seq<Record>)
    requires AllReadUpTo(log, windows, c0, upto) && ScansWindows(windows, upto, before, next0)
    requires Polled(before, cursors, next) && RecordsOf(log, cursors, next0, next, records)
    ensures Follows(windows, c0, records)
  {
    forall r | r in records
      ensures r.part in windows && forall q :: q in Got(c0, r.part) ==> q.off < r.off
    {
      var p := r.part;
      assert p in before && ReadUpTo(log, p, windows[p], Got(c0, p), upto[p]);
      assert forall q :: q in Got(c0, p) ==> q in Shown(log, p, windows[p].begin, upto[p]);
    }
  }

  // --- merging ---

  /** The groups hold distinct records of their partitions. */
  ghost predicate AreGroups(collected: Collected) {
    && IsLog(Everything(collected))
    && forall p :: p in collected ==> NoDup(collected[p]) && forall r :: r in collected[p] ==> r.part == p
  }

  lemma ReadGroups(log: set<Record>, windows: Windows, collected: Collected, upto: map<Partition, int>)
    requires IsLog(log) && AllReadUpTo(log, windows, collected, upto)
    ensures AreGroups(collected) && upto.Keys == windows.Keys
  {
    EverythingIs(log, windows, collected, upto);
    IsLogSubset(Everything(collected), log);
    forall p | p in collected ensures NoDup(collected[p]) && forall r :: r in collected[p] ==> r.part == p {
      assert ReadUpTo(log, p, windows[p], Got(collected, p), upto[p]);
    }
  }

  /** merged holds the groups outside todo. */
  ghost predicate MergedBut(collected: Collected, todo: set<Partition>, merged: seq<Record>) {
    NoDup(merged) && forall r :: r in merged <==> r.part in collected && r.part !in todo && r in collected[r.part]
  }

  lemma MergeGroup(collected: Collected, todo: set<Partition>, merged: seq<Record>, p: Partition)
    requires AreGroups(collected) && MergedBut(collected, todo, merged) && p in todo && p in collected
    ensures MergedBut(collected, todo - {p}, merged + collected[p])
  {
    hide NoDup, IsLog, Everything;
    NoDupConcat(merged, collected[p]);
  }

  lemma AllMerged(collected: Collected, merged: seq<Record>)
    requires AreGroups(collected) && MergedBut(collected, {}, merged)
    ensures NoDup(merged) && ToSet(merged) == Everything(collected) && IsLog(ToSet(merged))
  {
    forall r | r in Everything(collected) ensures r in merged {
      var p, i :| p in collected && 0 <= i < |collected[p]| && collected[p][i] == r;
      assert r in collected[p];
    }
    forall r | r in merged ensures r in Everything(collected) {
      var i :| 0 <= i < |collected[r.part]| && collected[r.part][i] == r;
    }
  }

  /** The first records of a sorted sequence. */
  lemma SortedPrefix(s: seq<Record>, all: set<Record>, limit: nat, newestFirst: bool)
    requires SortedBefore(s, newestFirst) && ToSet(s) == all
    ensures FirstOf(if |s| > limit then s[..limit] else s, all, limit, newestFirst)
  {
    hide Before;
    SortedNoDup(s, newestFirst);
    NoDupCardinality(s);
    var page := if |s| > limit then s[..limit] else s;
    assert forall r :: r in page ==> r in ToSet(s);
    forall r, q | r in all && r !in page && q in page ensures Before(q, r, newestFirst) {
      var i :| 0 <= i < |s| && s[i] == r;
      var j :| 0 <= j < |page| && page[j] == q;
      assert i >= |page|;
    }
  }

  // --- forward pages ---

  /** The next record of p that is not collected ranks behind the page. */
  ghost predicate PastPage(collected: Collected, page: seq<Record>, limit: nat, p: Partition) {
    var got := Got(collected, p);
    && got != [] && 0 < limit <= |page|
    && !Before(Record(p, got[|got| - 1].off + 1, got[|got| - 1].ts, false, ""), page[|page| - 1], false)
  }

  /** Every window is drained or has read past the page's last record. */
  ghost predicate ForwardSettled(windows: Windows, collected: Collected, drained: set<Partition>, limit: nat,
                                 page: seq<Record>) {
    forall p :: p in windows && p !in drained ==> PastPage(collected, page, limit, p)
  }

  lemma NextRanksBehind(log: set<Record>, windows: Windows, collected: Collected, upto: map<Partition, int>,
                        page: seq<Record>,
                        limit: nat, p: Partition, r: Record)
    requires AllReadUpTo(log, windows, collected, upto) && Ordered(InWindows(log, windows)) && p in windows
    requires PastPage(collected, page, limit, p) && SortedBefore(page, false)
    requires r in InWindows(log, windows) && r.part == p && r !in Got(collected, p)
    requires forall q :: q in page ==> q != r && (q.part == r.part && q.off == r.off ==> q == r)
    ensures forall q :: q in page ==> Before(q, r, false)
  {
    var got := Got(collected, p);
    var last := got[|got| - 1];
    assert ReadUpTo(log, p, windows[p], got, upto[p]);
    assert last in got && last in Shown(log, p, windows[p].begin, upto[p]) && last in InWindows(log, windows);
    assert r.off >= upto[p] > last.off by {
      assert r !in Shown(log, p, windows[p].begin, upto[p]);
    }
    assert last.ts <= r.ts;
    var pageLast := page[|page| - 1];
    assert pageLast in page && Before(pageLast, r, false);
    hide *;
    BehindTheLast(page, r);
  }

  lemma BehindTheLast(page: seq<Record>, r: Record)
    requires page != [] && SortedBefore(page, false) && Before(page[|page| - 1], r, false)
    ensures forall q :: q in page ==> Before(q, r, false)
  {
    var pageLast := page[|page| - 1];
    forall q | q in page ensures Before(q, r, false) {
      var i :| 0 <= i < |page| && page[i] == q;
      if i < |page| - 1 {
        assert Before(q, pageLast, false);
        BeforeIsTransitive(q, pageLast, r, false);
      }
    }
  }

  /** A settled forward page is the page of all windows, however far one
      partition's polls lag behind another's. */
  lemma ForwardSettledIsFirst(log: set<Record>, windows: Windows, collected: Collected, upto: map<Partition, int>,
                              drained: set<Partition>, limit: nat, page: seq<Record>)
    requires IsLog(log) && AllReadUpTo(log, windows, collected, upto) && Ordered(InWindows(log, windows)) && 0 < limit
    requires FirstOf(page, Everything(collected), limit, false)
        && ForwardSettled(windows, collected, drained, limit, page)
    requires forall p :: p in windows && p in drained ==> upto[p] == windows[p].stop
    ensures FirstOf(page, InWindows(log, windows), limit, false)
  {
    var all := InWindows(log, windows);
    EverythingIs(log, windows, collected, upto);
    assert Everything(collected) <= all by {
      forall r | r in Everything(collected) ensures r in all {
        assert ReadUpTo(log, r.part, windows[r.part], Got(collected, r.part), upto[r.part]);
      }
    }
    hide Before, Ordered, Everything, InWindows, AllReadUpTo;
    SubsetSize(Everything(collected), all);
    forall r | r in all && r !in page ensures forall q :: q in page ==> Before(q, r, false) {
      if r !in Everything(collected) {
        UncollectedRanksBehind(log, windows, collected, upto, drained, limit, page, r);
      }
    }
    if |Everything(collected)| < limit {
      forall r | r in all ensures r in Everything(collected) {
        if r !in Everything(collected) {
          UncollectedRanksBehind(log, windows, collected, upto, drained, limit, page, r);
        }
      }
      assert all == Everything(collected);
    }
  }

  lemma UncollectedRanksBehind(log: set<Record>, windows: Windows, collected: Collected, upto: map<Partition, int>,
                               drained: set<Partition>, limit: nat, page: seq<Record>, r: Record)
    requires IsLog(log) && AllReadUpTo(log, windows, collected, upto) && Ordered(InWindows(log, windows)) && 0 < limit
    requires FirstOf(page, Everything(collected), limit, false)
        && ForwardSettled(windows, collected, drained, limit, page)
    requires forall p :: p in windows && p in drained ==> upto[p] == windows[p].stop
    requires r in InWindows(log, windows) && r !in Everything(collected)
    ensures |page| >= limit && forall q :: q in page ==> Before(q, r, false)
  {
    EverythingIs(log, windows, collected, upto);
    var p := r.part;
    assert ReadUpTo(log, p, windows[p], Got(collected, p), upto[p]);
    assert r !in Got(collected, p) by {
      assert r !in Shown(log, p, windows[p].begin, upto[p]);
    }
    assert p !in drained;
    assert PastPage(collected, page, limit, p);
    forall q | q in page ensures q != r && (q.part == r.part && q.off == r.off ==> q == r) {
      assert q in Everything(collected) && q in log;
    }
    NextRanksBehind(log, windows, collected, upto, page, limit, p, r);
  }

  ghost function ReadOut(windows: Windows, upto: map<Partition, int>): set<Partition>
    requires upto.Keys == windows.Keys
  {
    set p | p in windows && upto[p] == windows[p].stop
  }

  /** Whatever the page of the collected records is, it is settled; the windows read
      to their end count as drained. */
  ghost predicate Settles(windows: Windows, collected: Collected, upto: map<Partition, int>, limit: nat)
    requires upto.Keys == windows.Keys
  {
    forall page :: FirstOf(page, Everything(collected), limit, false) ==>
      ForwardSettled(windows, collected, ReadOut(windows, upto), limit, page)
  }

  /** The loop of collectWindows, between polls. */
  ghost predicate Collecting(log: set<Record>, windows: Windows, collected: Collected, upto: map<Partition, int>,
                             drained: set<Partition>, ended: set<Partition>,
                             cursors: map<Partition, ScanCursor>, next: map<Partition, int>)
  {
    && AllReadUpTo(log, windows, collected, upto) && ScansWindows(windows, upto, cursors, next)
    && ended <= drained <= windows.Keys
    && (forall p :: p in windows ==> p in cursors || p in drained)
    && (forall p :: p in windows && p in ended ==> upto[p] == windows[p].stop)
  }

  lemma StartsCollecting(log: set<Record>, windows: Windows, cursors: map<Partition, ScanCursor>,
                         next: map<Partition, int>)
    requires AreWindows(windows) && cursors.Keys == windows.Keys
    requires forall p ::
        p in windows ==>
          p in next && cursors[p].pos == windows[p].begin && cursors[p].upper == windows[p].stop
            && next[p] == cursors[p].pos
    ensures Collecting(log, windows, map[], map p | p in windows :: windows[p].begin, {}, {}, cursors, next)
  {
  }

  /** The state after a poll and, forward, after the reader advanced. */
  lemma KeepsCollecting(log: set<Record>, windows: Windows, c0: Collected, upto: map<Partition, int>,
                        drained: set<Partition>, ended: set<Partition>, ranges: map<Partition, Range>, drainAfter: nat,
                        cursors0: map<Partition, ScanCursor>, next0: map<Partition, int>,
                        cursors1: map<Partition, ScanCursor>, next1: map<Partition, int>, batch: RecordBatch,
                          c1: Collected)
    requires Collecting(log, windows, c0, upto, drained, ended, cursors0, next0)
        && IdleAt(ranges, 0, drainAfter, cursors0, next0)
    requires Polled(cursors0, cursors1, next1) && BatchOf(log, 0, cursors1, next0, next1, batch)
    requires Appended(windows, c0, batch.records, |batch.records|, c1)
    ensures
      var upto1 := Positions(windows, upto, cursors1, next1);
      && AllReadUpTo(log, windows, c1, upto1)
      && ended + batch.ended <= drained + batch.drained <= windows.Keys
      && (forall p :: p in windows && p in ended + batch.ended ==> upto1[p] == windows[p].stop)
      && forall cursors2: map<Partition, ScanCursor>, next2: map<Partition, int> ::
        AdvancedFrom(0, cursors1, next1, cursors2, next2) ==>
           Collecting(log, windows, c1, upto1, drained + batch.drained, ended + batch.ended, cursors2, next2)
  {
    hide AllReadUpTo, Polled, Appended;
    PollReads(log, windows, c0, upto, cursors0, next0, cursors1, next1, batch.records, c1);
    DrainsWindows(windows, upto, drained, ended, ranges, drainAfter, log, cursors0, next0, cursors1, next1, batch);
    forall cursors2: map<Partition, ScanCursor>, next2: map<Partition, int> | AdvancedFrom(0, cursors1, next1,
        cursors2, next2)
      ensures Collecting(log, windows, c1, Positions(windows, upto, cursors1, next1), drained + batch.drained,
                         ended + batch.ended, cursors2, next2)
    {
      AdvancesWindows(log, windows, upto, drained, ranges, drainAfter, cursors0, next0, cursors1, next1, batch,
                      cursors2, next2);
    }
  }

  lemma DrainsWindows(windows: Windows, upto: map<Partition, int>, drained: set<Partition>, ended: set<Partition>,
                      ranges: map<Partition, Range>, drainAfter: nat, log: set<Record>,
                      cursors0: map<Partition, ScanCursor>, next0: map<Partition, int>,
                      cursors1: map<Partition, ScanCursor>, next1: map<Partition, int>, batch: RecordBatch)
    requires ScansWindows(windows, upto, cursors0, next0) && ended <= drained <= windows.Keys
    requires forall p :: p in windows && p in ended ==> upto[p] == windows[p].stop
    requires Polled(cursors0, cursors1, next1) && BatchOf(log, 0, cursors1, next0, next1, batch)
    ensures ended + batch.ended <= drained + batch.drained <= windows.Keys
    ensures forall p ::
        p in windows && p in ended + batch.ended ==> Positions(windows, upto, cursors1, next1)[p] == windows[p].stop
  {
    forall p | p in windows && p in ended + batch.ended
      ensures Positions(windows, upto, cursors1, next1)[p] == windows[p].stop
    {
      if p in cursors1 {
        assert p in cursors0 && cursors1[p].upper == windows[p].stop;
        if p !in batch.ended {
          assert upto[p] == windows[p].stop;
          assert next0[p] <= next1[p];
        }
      }
    }
  }

  lemma AdvancesWindows(log: set<Record>, windows: Windows, upto: map<Partition, int>, drained: set<Partition>,
                        ranges: map<Partition, Range>, drainAfter: nat,
                        cursors0: map<Partition, ScanCursor>, next0: map<Partition, int>,
                        cursors1: map<Partition, ScanCursor>, next1: map<Partition, int>, batch: RecordBatch,
                        cursors2: map<Partition, ScanCursor>, next2: map<Partition, int>)
    requires ScansWindows(windows, upto, cursors0, next0) && IdleAt(ranges, 0, drainAfter, cursors0, next0)
    requires forall p :: p in windows ==> p in cursors0 || p in drained
    requires Polled(cursors0, cursors1, next1) && BatchOf(log, 0, cursors1, next0, next1, batch)
    requires AdvancedFrom(0, cursors1, next1, cursors2, next2)
    ensures ScansWindows(windows, Positions(windows, upto, cursors1, next1), cursors2, next2)
    ensures forall p :: p in windows ==> p in cursors2 || p in drained + batch.drained
  {
    hide RecordsOf;
    forall p | p in cursors2
      ensures p in windows && p in next2 && cursors2[p].pos == windows[p].begin
          && cursors2[p].upper == windows[p].stop &&
        Positions(windows, upto, cursors1, next1)[p] == SeenUpTo(cursors2[p], next2[p])
    {
      assert p in cursors1 && p in cursors0 && !cursors1[p].done;
    }
  }

  lemma CompleteIsFull(log: set<Record>, windows: Windows, collected: Collected, upto: map<Partition, int>,
                       ended: set<Partition>)
    requires IsLog(log) && AllReadUpTo(log, windows, collected, upto)
    requires forall p :: p in windows && p in ended ==> upto[p] == windows[p].stop
    requires forall p :: p in windows ==> p in ended || |Got(collected, p)| >= windows[p].stop - windows[p].begin
    ensures AllFullyRead(log, windows, collected)
  {
    hide IsLog;
    forall p | p in windows ensures FullyRead(log, p, windows[p], Got(collected, p)) {
      assert ReadUpTo(log, p, windows[p], Got(collected, p), upto[p]);
      if p !in ended {
        CountCompletes(log, p, windows[p], Got(collected, p), upto[p]);
      }
    }
  }

  /** Whatever the page is, every window is drained or has read past its last record. */
  ghost predicate AreSettled(windows: Windows, collected: Collected, drained: set<Partition>, limit: nat) {
    forall page ::
      FirstOf(page, Everything(collected), limit, false) ==> ForwardSettled(windows, collected, drained, limit, page)
  }

  lemma SettledEnough(windows: Windows, collected: Collected, upto: map<Partition, int>, drained: set<Partition>,
                      limit: nat)
    requires upto.Keys == windows.Keys && forall p :: p in windows && p in drained ==> upto[p] == windows[p].stop
    requires AreSettled(windows, collected, drained, limit)
    ensures Settles(windows, collected, upto, limit)
  {
    hide FirstOf, Everything, PastPage;
  }

  lemma DrainedSettles(log: set<Record>, windows: Windows, collected: Collected, upto: map<Partition, int>,
                       drained: set<Partition>, ended: set<Partition>, cursors: map<Partition, ScanCursor>,
                         next: map<Partition, int>, limit: nat)
    requires Collecting(log, windows, collected, upto, drained, ended, cursors, next) && cursors.Keys == {}
        && drained <= ended
    ensures windows.Keys <= ended
    ensures Settles(windows, collected, upto, limit)
  {
    hide FirstOf, Everything, PastPage, AllReadUpTo;
    assert forall p :: p in windows ==> p in ReadOut(windows, upto);
  }

  lemma CollectingFacts(log: set<Record>, windows: Windows, collected: Collected, upto: map<Partition, int>,
                        drained: set<Partition>, ended: set<Partition>, cursors: map<Partition, ScanCursor>,
                          next: map<Partition, int>)
    requires Collecting(log, windows, collected, upto, drained, ended, cursors, next)
    ensures AllReadUpTo(log, windows, collected, upto) && ScansWindows(windows, upto, cursors, next)
        && upto.Keys == windows.Keys
    ensures forall p :: p in windows && p in ended ==> upto[p] == windows[p].stop
  {
  }
}
