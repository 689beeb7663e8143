/** How far down a backward page reads its ranges, and when that is far enough:
    fairShare, refillWindows and refillPlan of internal/kafka/consumer.go. */
module ConsumeTails {
  import opened Sets
  import opened Records
  import opened RecordSource
  import opened SearchState

  /** The ends of the ranges that are read. */
  type Tails = map<Partition, Range>

  const BALANCE_BUFFER := 8

  const MAX_REFILL_ROUNDS := 4

  /** Tail size per partition of a balanced "last limit" fetch: an equal share of the
      limit, rounded up, and a buffer when there are others. */
  function FairShare(limit: int, partitions: int): (share: int)
    ensures partitions == 1 && limit > 0 ==> share == limit
    ensures partitions > 1 && limit > 0 ==>
              var least := share - 8; 0 < least && (least - 1) * partitions < limit <= least * partitions
    ensures partitions <= 0 || limit <= 0 ==> share == 0
  {
    if partitions <= 0 || limit <= 0 then 0
    else if partitions == 1 then limit
    else
      CeilingIsLeast(limit, partitions);
      (limit + partitions - 1) / partitions + BALANCE_BUFFER
  }

  lemma CeilingIsLeast(limit: int, partitions: int)
    requires limit > 0 && partitions > 0
    ensures var least := (limit + partitions - 1) / partitions;
        0 < least && (least - 1) * partitions < limit <= least * partitions
  {
    var least := (limit + partitions - 1) / partitions;
    var rest := (limit + partitions - 1) % partitions;
    assert least * partitions + rest == limit + partitions - 1;
    assert (least - 1) * partitions == least * partitions - partitions;
    assert least <= 0 ==> least * partitions <= 0;
  }

  // --- the tails after some rounds ---

  /** The records a tail shows. */
  ghost function Held(log: set<Record>, p: Partition, tail: Range): set<Record> {
    Shown(log, p, tail.start, tail.end)
  }

  ghost predicate IsOldest(g: Record, s: set<Record>) {
    g in s && forall r :: r in s ==> g.off <= r.off
  }

  /** The record of p just below an offset, as late as it can be when the next one is of time ts. */
  function JustBelow(start: int, p: Partition, ts: int): Record {
    Record(p, start - 1, ts, false, "")
  }

  ghost function NewerThan(s: set<Record>, b: Record): set<Record> {
    set q | q in s && Before(q, b, true)
  }

  /** Records below p's tail could still be among the newest `limit`: it holds fewer, and
      not as many of all tails are newer than the one just below it can be. An empty
      tail gives no such bound; it counts as long as all tails hold fewer. */
  ghost predicate Lacks(log: set<Record>, ranges: Tails, tails: Tails, limit: nat, p: Partition)
    requires p in tails && p in ranges
  {
    var own := Held(log, p, tails[p]);
    && ranges[p].start < tails[p].start && |own| < limit
    && if own == {} then |InRanges(log, tails)| < limit
       else exists g ::
         IsOldest(g, own) && |NewerThan(InRanges(log, tails), JustBelow(tails[p].start, p, g.ts))| < limit
  }

  /** Nothing bounds the records below p's tail: it shows none. */
  ghost predicate IsBlind(log: set<Record>, ranges: Tails, tails: Tails, p: Partition)
    requires p in tails && p in ranges
  {
    ranges[p].start < tails[p].start && Held(log, p, tails[p]) == {}
  }

  ghost predicate AreTails(ranges: Tails, tails: Tails) {
    && tails.Keys == ranges.Keys
    && forall p :: p in ranges ==> ranges[p].start <= tails[p].start < tails[p].end == ranges[p].end
  }

  /** No tail needs to be longer, and none is blind. */
  ghost predicate Suffice(log: set<Record>, ranges: Tails, tails: Tails, limit: nat) {
    forall p :: p in ranges && p in tails ==> !Lacks(log, ranges, tails, limit, p) && !IsBlind(log, ranges, tails, p)
  }

  /** Where the wider tail starts: as many offsets further down as the records it misses
      took so far, on average. */
  function WiderStart(start: int, tail: Range, held: nat, limit: nat): int
    requires tail.start <= tail.end && held < limit
  {
    var span := tail.end - tail.start;
    var missing := limit - held;
    var need := if held > 0 then (missing * span + held - 1) / held else missing + span;
    Max(start, tail.start - need)
  }

  lemma WiderIsWider(start: int, tail: Range, held: nat, limit: nat)
    requires start < tail.start < tail.end && held < limit
    ensures start <= WiderStart(start, tail, held, limit) < tail.start
  {
    var span, missing := tail.end - tail.start, limit - held;
    if held > 0 {
      Positive(missing, span);
      QuotientPositive(missing * span, held);
    }
  }

  /** By as many offsets as the missing records take, if they lie as densely as those held,
      rounded up; by the span and one for each when none is held. */
  lemma WidensByDensity(start: int, tail: Range, held: nat, limit: nat) returns (need: int)
    requires start < tail.start < tail.end && held < limit
    ensures WiderStart(start, tail, held, limit) == if tail.start - need < start then start else tail.start - need
    ensures held == 0 ==> need == limit + (tail.end - tail.start)
    ensures held > 0 ==>
        (need - 1) * held < (limit - held) * (tail.end - tail.start) <= need * held
  {
    var a := (limit - held) * (tail.end - tail.start);
    need := if held > 0 then (a + held - 1) / held else limit + (tail.end - tail.start);
    if held > 0 {
      RoundedUp(a, held);
    }
  }

  lemma RoundedUp(a: int, b: int)
    requires b > 0
    ensures var q := (a + b - 1) / b; (q - 1) * b < a <= q * b
  {
    var q, r := (a + b - 1) / b, (a + b - 1) % b;
    assert a + b - 1 == q * b + r;
    assert (q - 1) * b == q * b - b;
  }

  lemma Positive(a: int, b: int)
    requires a > 0 && b > 0
    ensures a * b > 0
  {
  }

  lemma QuotientPositive(a: int, b: int)
    requires a > 0 && b > 0
    ensures (a + b - 1) / b >= 1
  {
  }

  function WiderTail(start: int, tail: Range, held: nat, limit: nat): (wider: Range)
    requires start <= tail.start < tail.end
    ensures start <= wider.start <= tail.start && wider.end == tail.end
    ensures start < tail.start && held < limit ==> wider.start < tail.start
  {
    if start < tail.start && held < limit then
      WiderIsWider(start, tail, held, limit);
      Range(WiderStart(start, tail, held, limit), tail.end)
    else tail
  }

  lemma WiderTailIs(start: int, tail: Range, held: nat, limit: nat)
    requires start < tail.start < tail.end && held < limit
    ensures WiderTail(start, tail, held, limit) == Range(WiderStart(start, tail, held, limit), tail.end)
  {
  }

  /** One round: every tail that lacks records is widened. */
  ghost function Widened(log: set<Record>, ranges: Tails, tails: Tails, limit: nat): (wider: Tails)
    requires AreTails(ranges, tails)
    ensures AreTails(ranges, wider) && forall p :: p in tails ==> wider[p].start <= tails[p].start
  {
    hide Lacks, WiderStart;
    map p | p in tails ::
      if Lacks(log, ranges, tails, limit, p)
      then WiderTail(ranges[p].start, tails[p], |Held(log, p, tails[p])|, limit)
      else tails[p]
  }

  ghost function TailsFrom(log: set<Record>, ranges: Tails, limit: nat, tails: Tails, rounds: nat): (wider: Tails)
    requires AreTails(ranges, tails)
    ensures AreTails(ranges, wider) && forall p :: p in tails ==> wider[p].start <= tails[p].start
  {
    if rounds == 0 then tails else Widened(log, ranges, TailsFrom(log, ranges, limit, tails, rounds - 1), limit)
  }

  function FirstTails(ranges: Tails, limit: int): (tails: Tails)
    ensures tails.Keys == ranges.Keys
    ensures limit > 0 && ValidRanges(ranges) ==> AreTails(ranges, tails)
  {
    map p | p in ranges :: Range(Max(ranges[p].start, ranges[p].end - FairShare(limit, |ranges|)), ranges[p].end)
  }

  /** The tails a backward page is cut from. */
  ghost function TailsOf(log: set<Record>, ranges: Tails, limit: nat): (tails: Tails)
    requires limit > 0 && ValidRanges(ranges)
    ensures AreTails(ranges, tails)
  {
    TailsFrom(log, ranges, limit, FirstTails(ranges, limit), MAX_REFILL_ROUNDS)
  }

  // --- when the tails suffice ---

  /** A log that shows in the tails what this one does; elsewhere it is any log of ordered timestamps. */
  ghost predicate ShowsSame(log: set<Record>, ranges: Tails, tails: Tails, other: set<Record>) {
    IsLog(other) && Ordered(InRanges(other, ranges)) && InRanges(other, tails) == InRanges(log, tails)
  }

  /** The tails suffice iff what they show decides the page: the newest `limit` records of
      the tails are those of the whole ranges, whatever lies below the tails. */
  lemma SufficeIsExact(log: set<Record>, ranges: Tails, tails: Tails, limit: nat, page: seq<Record>)
    requires IsLog(log) && AreTails(ranges, tails) && limit > 0 && Ordered(InRanges(log, tails))
    requires FirstOf(page, InRanges(log, tails), limit, true)
    ensures Suffice(log, ranges, tails, limit) <==>
            forall other :: ShowsSame(log, ranges, tails, other) ==> FirstOf(page, InRanges(other, ranges), limit, true)
  {
    hide FirstOf, AreTails, Lacks, IsBlind, IsLog, Ordered, InRanges;
    if Suffice(log, ranges, tails, limit) {
      forall other | ShowsSame(log, ranges, tails, other) ensures FirstOf(page, InRanges(other, ranges), limit, true) {
        forall p | p in ranges && p in tails
          ensures !Lacks(other, ranges, tails, limit, p) && !IsBlind(other, ranges, tails, p)
        {
          SameLacks(log, other, ranges, tails, limit, p);
        }
        SufficientIsNewest(other, ranges, tails, limit, page);
      }
    } else {
      var p :| p in ranges && p in tails && (Lacks(log, ranges, tails, limit, p) || IsBlind(log, ranges, tails, p));
      var other := Misses(log, ranges, tails, limit, page, p);
    }
  }

  lemma SameLacks(log: set<Record>, other: set<Record>, ranges: Tails, tails: Tails, limit: nat, p: Partition)
    requires InRanges(other, tails) == InRanges(log, tails) && p in tails && p in ranges
    ensures Held(other, p, tails[p]) == Held(log, p, tails[p])
    ensures Lacks(other, ranges, tails, limit, p) == Lacks(log, ranges, tails, limit, p)
    ensures IsBlind(other, ranges, tails, p) == IsBlind(log, ranges, tails, p)
  {
    HeldIs(log, tails, p);
    HeldIs(other, tails, p);
    hide InRanges, Held, NewerThan, IsOldest;
  }

  lemma HeldIs(log: set<Record>, tails: Tails, p: Partition)
    requires p in tails
    ensures Held(log, p, tails[p]) == set r | r in InRanges(log, tails) && r.part == p
  {
  }

  /** The newest records of tails that suffice are those of the ranges. */
  lemma SufficientIsNewest(log: set<Record>, ranges: Tails, tails: Tails, limit: nat, page: seq<Record>)
    requires IsLog(log) && AreTails(ranges, tails) && limit > 0 && Ordered(InRanges(log, ranges))
    requires FirstOf(page, InRanges(log, tails), limit, true) && Suffice(log, ranges, tails, limit)
    ensures FirstOf(page, InRanges(log, ranges), limit, true)
  {
    var inner, all := InRanges(log, tails), InRanges(log, ranges);
    TailsInside(log, ranges, tails);
    hide FirstOf, AreTails, Lacks, IsBlind, IsLog, Ordered, InRanges;
    forall r | r in all && r !in inner ensures |page| == limit && forall q :: q in page ==> Before(q, r, true) {
      BelowRanksBehind(log, ranges, tails, limit, page, r);
    }
    ExtendFirst(page, inner, all, limit, true);
  }

  lemma TailsInside(log: set<Record>, ranges: Tails, tails: Tails)
    requires AreTails(ranges, tails)
    ensures InRanges(log, tails) <= InRanges(log, ranges)
  {
  }

  /** A page stays the page of a larger set whose other records all rank behind it. */
  lemma ExtendFirst(page: seq<Record>, inner: set<Record>, all: set<Record>, limit: nat, newestFirst: bool)
    requires inner <= all && FirstOf(page, inner, limit, newestFirst)
    requires forall r ::
        r in all && r !in inner ==> |page| == limit && forall q :: q in page ==> Before(q, r, newestFirst)
    ensures FirstOf(page, all, limit, newestFirst)
  {
    SubsetSize(inner, all);
  }

  /** A record below a tail that neither lacks records nor is blind ranks behind the whole page. */
  lemma BelowRanksBehind(log: set<Record>, ranges: Tails, tails: Tails, limit: nat, page: seq<Record>, r: Record)
    requires AreTails(ranges, tails) && limit > 0 && Ordered(InRanges(log, ranges))
        && FirstOf(page, InRanges(log, tails), limit, true)
    requires r in InRanges(log, ranges) && r !in InRanges(log, tails)
    requires r.part in ranges ==> !Lacks(log, ranges, tails, limit, r.part) && !IsBlind(log, ranges, tails, r.part)
    ensures |page| == limit && forall q :: q in page ==> Before(q, r, true)
  {
    hide *;
    BelowTail(log, ranges, tails, r);
    var p, inner := r.part, InRanges(log, tails);
    var own := Held(log, p, tails[p]);
    var g := Oldest(own);
    if |own| >= limit {
      OwnAreBefore(own, r);
      ManyBefore(page, inner, own, limit, r);
    } else {
      IsBounded(log, ranges, tails, limit, p, g);
      NewerAreBefore(inner, tails[p].start, g, own, r);
      ManyBefore(page, inner, NewerThan(inner, JustBelow(tails[p].start, p, g.ts)), limit, r);
    }
  }

  lemma BelowTail(log: set<Record>, ranges: Tails, tails: Tails, r: Record)
    requires AreTails(ranges, tails) && Ordered(InRanges(log, ranges)) && r in InRanges(log, ranges)
        && r !in InRanges(log, tails)
    ensures r.part in ranges && r.part in tails && ranges[r.part].start < tails[r.part].start
        && r.off < tails[r.part].start
    ensures var own := Held(log, r.part, tails[r.part]);
      && own <= InRanges(log, tails) && (!IsBlind(log, ranges, tails, r.part) ==> own != {})
      && forall o :: o in own ==> o.part == r.part && r.off < o.off && r.ts <= o.ts
  {
    HeldIs(log, tails, r.part);
    TailsInside(log, ranges, tails);
  }

  lemma IsBounded(log: set<Record>, ranges: Tails, tails: Tails, limit: nat, p: Partition, g: Record)
    requires p in ranges && p in tails && ranges[p].start < tails[p].start && !Lacks(log, ranges, tails, limit, p)
    requires |Held(log, p, tails[p])| < limit && IsOldest(g, Held(log, p, tails[p]))
    ensures |NewerThan(InRanges(log, tails), JustBelow(tails[p].start, p, g.ts))| >= limit
  {
    hide Held, InRanges, NewerThan, JustBelow;
  }

  lemma OwnAreBefore(own: set<Record>, r: Record)
    requires forall o :: o in own ==> o.part == r.part && r.off < o.off && r.ts <= o.ts
    ensures forall o :: o in own ==> Before(o, r, true)
  {
  }

  lemma NewerAreBefore(s: set<Record>, start: int, g: Record, own: set<Record>, r: Record)
    requires IsOldest(g, own) && r.off < start && forall o ::
        o in own ==> o.part == r.part && r.off < o.off && r.ts <= o.ts
    ensures var newer := NewerThan(s, JustBelow(start, r.part, g.ts));
        newer <= s && forall m :: m in newer ==> Before(m, r, true)
  {
  }

  lemma {:induction false} Oldest(s: set<Record>) returns (g: Record)
    requires s != {}
    ensures IsOldest(g, s)
  {
    var r :| r in s;
    if s == {r} {
      g := r;
    } else {
      g := Oldest(s - {r});
      if r.off < g.off {
        g := r;
      }
      assert forall x :: x in s ==> x == r || x in s - {r};
    }
  }

  /** A record that `limit` others of the set rank before ranks behind the page. */
  lemma ManyBefore(page: seq<Record>, inner: set<Record>, many: set<Record>, limit: nat, r: Record)
    requires FirstOf(page, inner, limit, true) && many <= inner && |many| >= limit
    requires forall m :: m in many ==> Before(m, r, true)
    ensures |page| == limit && forall q :: q in page ==> Before(q, r, true)
  {
    SubsetSize(many, inner);
    forall q | q in page && q !in many ensures Before(q, r, true) {
      var m := LeftOut(page, many, limit, q);
      BeforeChain(q, m, r, true);
    }
  }

  lemma LeftOut(page: seq<Record>, many: set<Record>, limit: nat, q: Record) returns (m: Record)
    requires |page| <= limit <= |many| && q in page && q !in many
    ensures m in many && m !in page
  {
    if many <= ToSet(page) {
      SubsetSize(many + {q}, ToSet(page));
      SetIsSmaller(page);
      assert false;
    }
    m :| m in many && m !in ToSet(page);
  }

  lemma {:induction false} SetIsSmaller<T>(s: seq<T>)
    ensures |ToSet(s)| <= |s|
  {
    if s == [] {
      assert ToSet(s) == {};
    } else {
      SetIsSmaller(s[..|s| - 1]);
      assert ToSet(s) == ToSet(s[..|s| - 1]) + {s[|s| - 1]};
    }
  }

  lemma BeforeChain(a: Record, b: Record, c: Record, newestFirst: bool)
    requires Before(a, b, newestFirst) && Before(b, c, newestFirst)
    ensures Before(a, c, newestFirst)
  {
  }

  lemma BeforeLast(page: seq<Record>, q: Record, newestFirst: bool)
    requires SortedBefore(page, newestFirst) && q in page
    ensures q == page[|page| - 1] || Before(q, page[|page| - 1], newestFirst)
  {
    var i :| 0 <= i < |page| && page[i] == q;
  }

  /** `limit` records rank before b iff a full page does. */
  lemma NewerFillPage(page: seq<Record>, s: set<Record>, limit: nat, b: Record)
    requires FirstOf(page, s, limit, true) && limit > 0
    ensures |NewerThan(s, b)| >= limit <==> |page| == limit && Before(page[limit - 1], b, true)
  {
    SubsetSize(NewerThan(s, b), s);
    SortedNoDup(page, true);
    NoDupCardinality(page);
    if |page| == limit {
      var last := page[limit - 1];
      hide Before;
      if Before(last, b, true) {
        forall q | q in ToSet(page) ensures q in NewerThan(s, b) {
          BeforeLast(page, q, true);
          if q != last {
            BeforeChain(q, last, b, true);
          }
        }
        SubsetSize(ToSet(page), NewerThan(s, b));
      } else {
        forall q | q in NewerThan(s, b) ensures q in ToSet(page) - {last} {
          if q !in page {
            BeforeChain(last, q, b, true);
          }
        }
        SubsetSize(NewerThan(s, b), ToSet(page) - {last});
      }
    }
  }

  /** Below a tail that lacks records or is blind there may be one the page should hold. */
  lemma Misses(log: set<Record>, ranges: Tails, tails: Tails, limit: nat, page: seq<Record>, p: Partition)
    returns (other: set<Record>)
    requires IsLog(log) && AreTails(ranges, tails) && limit > 0 && Ordered(InRanges(log, tails))
    requires FirstOf(page, InRanges(log, tails), limit, true)
    requires p in ranges && p in tails && (Lacks(log, ranges, tails, limit, p) || IsBlind(log, ranges, tails, p))
    ensures ShowsSame(log, ranges, tails, other) && !FirstOf(page, InRanges(other, ranges), limit, true)
  {
    hide *;
    var x := InsidePage(log, ranges, tails, limit, page, p);
    other := InRanges(log, tails) + {x};
    OneBelow(log, ranges, tails, p, x);
    OneMore(page, InRanges(log, tails), x, limit);
  }

  /** A record just below the tail that belongs on the page. */
  lemma InsidePage(log: set<Record>, ranges: Tails, tails: Tails, limit: nat, page: seq<Record>, p: Partition)
    returns (x: Record)
    requires AreTails(ranges, tails) && limit > 0 && Ordered(InRanges(log, tails))
        && FirstOf(page, InRanges(log, tails), limit, true)
    requires p in ranges && p in tails && (Lacks(log, ranges, tails, limit, p) || IsBlind(log, ranges, tails, p))
    ensures x.part == p && x.off == tails[p].start - 1 >= ranges[p].start && !x.control
    ensures forall r :: r in Held(log, p, tails[p]) ==> x.ts <= r.ts
    ensures !(|page| == limit && Before(page[limit - 1], x, true))
  {
    var inner, own := InRanges(log, tails), Held(log, p, tails[p]);
    hide FirstOf, Before;
    if own == {} {
      x := JustBelow(tails[p].start, p, if page == [] then 0 else page[|page| - 1].ts + 1);
      LaterIsNotBefore(page, x);
    } else {
      var g :| IsOldest(g, own) && |NewerThan(inner, JustBelow(tails[p].start, p, g.ts))| < limit;
      x := JustBelow(tails[p].start, p, g.ts);
      hide NewerThan;
      NewerFillPage(page, inner, limit, x);
      HeldIs(log, tails, p);
    }
  }

  lemma LaterIsNotBefore(page: seq<Record>, x: Record)
    requires page != [] ==> x.ts > page[|page| - 1].ts
    ensures page != [] ==> !Before(page[|page| - 1], x, true)
  {
  }

  lemma OneBelow(log: set<Record>, ranges: Tails, tails: Tails, p: Partition, x: Record)
    requires IsLog(log) && AreTails(ranges, tails) && Ordered(InRanges(log, tails)) && p in ranges && p in tails
    requires x.part == p && x.off == tails[p].start - 1 >= ranges[p].start && !x.control
    requires forall r :: r in Held(log, p, tails[p]) ==> x.ts <= r.ts
    ensures x !in InRanges(log, tails) && ShowsSame(log, ranges, tails, InRanges(log, tails) + {x})
    ensures InRanges(InRanges(log, tails) + {x}, ranges) == InRanges(log, tails) + {x}
  {
    HeldIs(log, tails, p);
    var inner := InRanges(log, tails);
    assert InRanges(inner + {x}, tails) == inner;
    assert InRanges(inner + {x}, ranges) == inner + {x};
  }

  lemma OneMore(page: seq<Record>, inner: set<Record>, x: Record, limit: nat)
    requires limit > 0 && FirstOf(page, inner, limit, true) && x !in inner
        && !(|page| == limit && Before(page[limit - 1], x, true))
    ensures !FirstOf(page, inner + {x}, limit, true)
  {
  }

  // --- a log that shows the same gets the same tails ---

  lemma ReadsSameTails(log: set<Record>, other: set<Record>, ranges: Tails, limit: nat)
    requires limit > 0 && ValidRanges(ranges)
    requires InRanges(other, TailsOf(log, ranges, limit)) == InRanges(log, TailsOf(log, ranges, limit))
    ensures TailsOf(other, ranges, limit) == TailsOf(log, ranges, limit)
  {
    hide Widened, AreTails, InRanges, FirstTails;
    ReadsSameFrom(log, other, ranges, limit, FirstTails(ranges, limit), MAX_REFILL_ROUNDS, MAX_REFILL_ROUNDS);
  }

  lemma {:induction false} ReadsSameFrom(log: set<Record>, other: set<Record>, ranges: Tails, limit: nat, tails: Tails,
                                         k: nat, rounds: nat)
    requires AreTails(ranges, tails) && k <= rounds
    requires InRanges(other, TailsFrom(log, ranges, limit, tails, rounds)) ==
        InRanges(log, TailsFrom(log, ranges, limit, tails, rounds))
    ensures TailsFrom(other, ranges, limit, tails, k) == TailsFrom(log, ranges, limit, tails, k)
    decreases k
  {
    hide *;
    NoRounds(log, ranges, limit, tails);
    NoRounds(other, ranges, limit, tails);
    if k > 0 {
      ReadsSameFrom(log, other, ranges, limit, tails, k - 1, rounds);
      TailsGrow(log, ranges, limit, tails, k - 1, rounds);
      SameInside(log, other, TailsFrom(log, ranges, limit, tails, k - 1), TailsFrom(log, ranges, limit, tails, rounds));
      NextTails(log, ranges, limit, tails, k - 1);
      NextTails(other, ranges, limit, tails, k - 1);
      SameWidened(log, other, ranges, TailsFrom(log, ranges, limit, tails, k - 1), limit);
    }
  }

  lemma SameWidened(log: set<Record>, other: set<Record>, ranges: Tails, tails: Tails, limit: nat)
    requires AreTails(ranges, tails) && InRanges(other, tails) == InRanges(log, tails)
    ensures Widened(other, ranges, tails, limit) == Widened(log, ranges, tails, limit)
  {
    hide Lacks, InRanges, Held, IsBlind, WiderTail;
    forall p | p in tails
      ensures Lacks(other, ranges, tails, limit, p) == Lacks(log, ranges, tails, limit, p)
          && Held(other, p, tails[p]) == Held(log, p, tails[p])
    {
      SameLacks(log, other, ranges, tails, limit, p);
    }
  }

  /** tails1 reach at least as far down as tails0. */
  ghost predicate Reach(tails0: Tails, tails1: Tails) {
    tails1.Keys == tails0.Keys && forall p ::
      p in tails0 ==> tails1[p].start <= tails0[p].start && tails1[p].end == tails0[p].end
  }

  lemma {:induction false} TailsGrow(log: set<Record>, ranges: Tails, limit: nat, tails: Tails, k: nat, rounds: nat)
    requires AreTails(ranges, tails) && k <= rounds
    ensures Reach(TailsFrom(log, ranges, limit, tails, k), TailsFrom(log, ranges, limit, tails, rounds))
    decreases rounds
  {
    hide *;
    ReachesItself(TailsFrom(log, ranges, limit, tails, k));
    if k < rounds {
      TailsGrow(log, ranges, limit, tails, k, rounds - 1);
      NextTails(log, ranges, limit, tails, rounds - 1);
      WidenedReaches(log, ranges, TailsFrom(log, ranges, limit, tails, k),
                     TailsFrom(log, ranges, limit, tails, rounds - 1), limit);
    }
  }

  lemma ReachesItself(tails: Tails)
    ensures Reach(tails, tails)
  {
  }

  lemma WidenedReaches(log: set<Record>, ranges: Tails, tails0: Tails, tails: Tails, limit: nat)
    requires AreTails(ranges, tails) && Reach(tails0, tails)
    ensures Reach(tails0, Widened(log, ranges, tails, limit))
  {
    hide Lacks;
  }

  lemma SameInside(log: set<Record>, other: set<Record>, inner: Tails, outer: Tails)
    requires Reach(inner, outer) && InRanges(other, outer) == InRanges(log, outer)
    ensures InRanges(other, inner) == InRanges(log, inner)
  {
    forall r ensures r in InRanges(other, inner) <==> r in InRanges(log, inner) {
      assert r in InRanges(other, outer) <==> r in InRanges(log, outer);
    }
  }

  lemma {:induction false} StaysWide(log: set<Record>, ranges: Tails, limit: nat, tails: Tails, k: nat, rounds: nat)
    requires AreTails(ranges, tails) && k <= rounds
    requires forall p ::
        p in ranges ==>
          p in TailsFrom(log, ranges, limit, tails, k)
            && !Lacks(log, ranges, TailsFrom(log, ranges, limit, tails, k), limit, p)
    ensures TailsFrom(log, ranges, limit, tails, rounds) == TailsFrom(log, ranges, limit, tails, k)
    decreases rounds
  {
    hide *;
    if k < rounds {
      StaysWide(log, ranges, limit, tails, k, rounds - 1);
      NextTails(log, ranges, limit, tails, rounds - 1);
      NoneIsWidened(log, ranges, TailsFrom(log, ranges, limit, tails, k), limit);
    }
  }

  lemma NextTails(log: set<Record>, ranges: Tails, limit: nat, tails: Tails, rounds: nat)
    requires AreTails(ranges, tails)
    ensures var before := TailsFrom(log, ranges, limit, tails, rounds);
      AreTails(ranges, before) && TailsFrom(log, ranges, limit, tails, rounds + 1) ==
        Widened(log, ranges, before, limit)
  {
    hide AreTails, Widened;
  }

  lemma NoneIsWidened(log: set<Record>, ranges: Tails, tails: Tails, limit: nat)
    requires AreTails(ranges, tails) && forall p :: p in ranges ==> p in tails && !Lacks(log, ranges, tails, limit, p)
    ensures Widened(log, ranges, tails, limit) == tails
  {
    hide Lacks;
  }

  // --- ranges without holes ---

  ghost predicate Holds(log: set<Record>, p: Partition, o: int) {
    exists r :: r in log && r.part == p && r.off == o && !r.control
  }

  /** Every offset of the ranges holds a record that is shown. */
  ghost predicate HasNoHoles(log: set<Record>, ranges: Tails) {
    forall p, o :: p in ranges && ranges[p].start <= o < ranges[p].end ==> Holds(log, p, o)
  }

  /** Without holes one round is enough. */
  lemma HoleFreeSuffices(log: set<Record>, ranges: Tails, limit: nat)
    requires IsLog(log) && limit > 0 && ValidRanges(ranges) && HasNoHoles(log, ranges)
    ensures Suffice(log, ranges, TailsOf(log, ranges, limit), limit)
  {
    var first := FirstTails(ranges, limit);
    var once := Widened(log, ranges, first, limit);
    hide *;
    AreFirst(ranges, limit);
    OnceIs(log, ranges, limit, first);
    forall p | p in ranges && p in once ensures !Lacks(log, ranges, once, limit, p) && !IsBlind(log, ranges, once, p) {
      OneRoundRefills(log, ranges, first, limit, p);
    }
    StaysWide(log, ranges, limit, first, 1, MAX_REFILL_ROUNDS);
    AllSuffice(log, ranges, limit, once);
  }

  lemma AreFirst(ranges: Tails, limit: nat)
    requires limit > 0 && ValidRanges(ranges)
    ensures AreTails(ranges, FirstTails(ranges, limit)) && MAX_REFILL_ROUNDS >= 1
    ensures forall log: set<Record> ::
        TailsOf(log, ranges, limit) == TailsFrom(log, ranges, limit, FirstTails(ranges, limit), MAX_REFILL_ROUNDS)
  {
    hide FirstTails, TailsFrom;
  }

  lemma OnceIs(log: set<Record>, ranges: Tails, limit: nat, tails: Tails)
    requires AreTails(ranges, tails)
    ensures TailsFrom(log, ranges, limit, tails, 1) == Widened(log, ranges, tails, limit)
    ensures Widened(log, ranges, tails, limit).Keys == ranges.Keys
  {
    hide Widened;
    assert TailsFrom(log, ranges, limit, tails, 0) == tails;
  }

  lemma AllSuffice(log: set<Record>, ranges: Tails, limit: nat, tails: Tails)
    requires forall p ::
        p in ranges && p in tails ==> !Lacks(log, ranges, tails, limit, p) && !IsBlind(log, ranges, tails, p)
    ensures Suffice(log, ranges, tails, limit)
  {
    hide Lacks, IsBlind;
  }

  lemma OneRoundRefills(log: set<Record>, ranges: Tails, tails: Tails, limit: nat, p: Partition)
    requires IsLog(log) && AreTails(ranges, tails) && HasNoHoles(log, ranges) && p in ranges && p in tails && limit > 0
    ensures var once := Widened(log, ranges, tails, limit);
      p in once && !Lacks(log, ranges, once, limit, p) && !IsBlind(log, ranges, once, p)
  {
    hide *;
    var once := Widened(log, ranges, tails, limit);
    WidenedAt(log, ranges, tails, limit, p);
    DenseTail(log, ranges, tails, p);
    DenseTail(log, ranges, once, p);
    LacksIs(log, ranges, tails, limit, p);
    LacksIs(log, ranges, once, limit, p);
    if Lacks(log, ranges, tails, limit, p) {
      FullIsWider(ranges[p].start, tails[p], limit);
    } else if Lacks(log, ranges, once, limit, p) {
      StillLacks(log, ranges, tails, once, limit, p);
    }
  }

  lemma WidenedAt(log: set<Record>, ranges: Tails, tails: Tails, limit: nat, p: Partition)
    requires AreTails(ranges, tails) && p in ranges && p in tails
    ensures ranges[p].start <= tails[p].start < tails[p].end
    ensures var once := Widened(log, ranges, tails, limit);
      && AreTails(ranges, once) && Reach(tails, once) && p in once
      && once[p] == if Lacks(log, ranges, tails, limit, p)
        then WiderTail(ranges[p].start, tails[p], |Held(log, p, tails[p])|, limit)
                    else tails[p]
  {
    hide Lacks, Held, WiderTail;
  }

  lemma LacksIs(log: set<Record>, ranges: Tails, tails: Tails, limit: nat, p: Partition)
    requires p in ranges && p in tails
    ensures Lacks(log, ranges, tails, limit, p) ==> ranges[p].start < tails[p].start && |Held(log, p, tails[p])| < limit
    ensures IsBlind(log, ranges, tails, p) ==> Held(log, p, tails[p]) == {}
  {
    hide Held, InRanges;
  }

  lemma DenseTail(log: set<Record>, ranges: Tails, tails: Tails, p: Partition)
    requires IsLog(log) && AreTails(ranges, tails) && HasNoHoles(log, ranges) && p in ranges && p in tails
    ensures |Held(log, p, tails[p])| == tails[p].end - tails[p].start > 0
    ensures Held(log, p, tails[p]) != {}
  {
    forall o | tails[p].start <= o < tails[p].end ensures Holds(log, p, o) {
    }
    hide HasNoHoles, Holds;
    DenseSize(log, p, tails[p].start, tails[p].end);
  }

  lemma {:induction false} DenseSize(log: set<Record>, p: Partition, lo: int, hi: int)
    requires IsLog(log) && lo <= hi && forall o :: lo <= o < hi ==> Holds(log, p, o)
    ensures |Shown(log, p, lo, hi)| == hi - lo
    decreases hi - lo
  {
    if lo == hi {
      assert Shown(log, p, lo, hi) == {};
    } else {
      DenseSize(log, p, lo, hi - 1);
      assert Holds(log, p, hi - 1);
      var r :| r in log && r.part == p && r.off == hi - 1 && !r.control;
      assert Shown(log, p, lo, hi) == Shown(log, p, lo, hi - 1) + {r};
    }
  }

  /** A full tail is widened to `limit` offsets, or to the whole range. */
  lemma WiderOfFull(start: int, tail: Range, limit: nat)
    requires start < tail.start < tail.end && tail.end - tail.start < limit
    ensures WiderStart(start, tail, tail.end - tail.start, limit) == Max(start, tail.end - limit)
  {
    var span := tail.end - tail.start;
    var missing := limit - span;
    DivideBack(missing, span, span - 1);
  }

  lemma FullIsWider(start: int, tail: Range, limit: nat)
    requires start < tail.start < tail.end && tail.end - tail.start < limit
    ensures var wider := WiderTail(start, tail, tail.end - tail.start, limit);
      wider.end == tail.end && (wider.start == start || wider.end - wider.start == limit)
  {
    hide WiderStart;
    WiderOfFull(start, tail, limit);
  }

  lemma DivideBack(q: int, b: int, r: int)
    requires b > 0 && 0 <= r < b
    ensures (q * b + r) / b == q
  {
    var d := (q * b + r) / b;
    var m := (q * b + r) % b;
    assert (q - d) * b == m - r;
    MulBounds(q - d, b);
  }

  lemma MulBounds(k: int, b: int)
    requires b > 0
    ensures k >= 1 ==> k * b >= b
    ensures k <= -1 ==> k * b <= -b
  {
  }

  /** More records elsewhere never make a tail lack any. */
  lemma StillLacks(log: set<Record>, ranges: Tails, tails: Tails, wider: Tails, limit: nat, p: Partition)
    requires IsLog(log) && Reach(tails, wider) && p in ranges && p in tails && wider[p] == tails[p]
        && Held(log, p, tails[p]) != {}
    requires Lacks(log, ranges, wider, limit, p)
    ensures Lacks(log, ranges, tails, limit, p)
  {
    var g :| IsOldest(g, Held(log, p, wider[p])) && |NewerThan(InRanges(log, wider),
        JustBelow(wider[p].start, p, g.ts))| < limit;
    var below := JustBelow(wider[p].start, p, g.ts);
    assert InRanges(log, tails) <= InRanges(log, wider);
    SubsetSize(NewerThan(InRanges(log, tails), below), NewerThan(InRanges(log, wider), below));
  }

  // --- pages that are not the newest records ---

  const OLDER := Record(0, 0, 1, false, "older")

  const NEWER := Record(1, 0, 5, false, "newer")

  const BLIND_RANGES: Tails := map[0 := Range(0, 1), 1 := Range(0, 10)]

  const BLIND_TAILS: Tails := map[0 := Range(0, 1), 1 := Range(1, 10)]

  /** With a limit of one, the empty tail of partition 1 is not widened, as the page is full. */
  lemma BlindTailMisses()
    ensures IsLog({OLDER, NEWER}) && Ordered({OLDER, NEWER}) && ValidRanges(BLIND_RANGES)
    ensures TailsOf({OLDER, NEWER}, BLIND_RANGES, 1) == BLIND_TAILS
    ensures FirstOf([OLDER], InRanges({OLDER, NEWER}, BLIND_TAILS), 1, true)
    ensures FirstOf([NEWER], InRanges({OLDER, NEWER}, BLIND_RANGES), 1, true)
  {
    hide *;
    BlindFacts();
    BlindIsLog();
    BlindShows();
    BlindIsEnough();
    AreFirst(BLIND_RANGES, 1);
    NoRounds({OLDER, NEWER}, BLIND_RANGES, 1, BLIND_TAILS);
    StaysWide({OLDER, NEWER}, BLIND_RANGES, 1, BLIND_TAILS, 0, MAX_REFILL_ROUNDS);
    OnlyNewest(OLDER, {OLDER});
    OnlyNewest(NEWER, {OLDER, NEWER});
  }

  lemma BlindFacts()
    ensures ValidRanges(BLIND_RANGES)
    ensures FirstTails(BLIND_RANGES, 1) == BLIND_TAILS && AreTails(BLIND_RANGES, BLIND_TAILS)
    ensures Before(NEWER, OLDER, true)
  {
    hide FirstTails;
    BlindFirst();
  }

  lemma BlindFirst()
    ensures FirstTails(BLIND_RANGES, 1) == BLIND_TAILS
  {
    assert |BLIND_RANGES| == 2;
    assert FairShare(1, 2) == 9;
    hide FairShare;
  }

  lemma BlindIsLog()
    ensures IsLog({OLDER, NEWER}) && Ordered({OLDER, NEWER})
  {
  }

  lemma BlindShows()
    ensures InRanges({OLDER, NEWER}, BLIND_TAILS) == {OLDER} && InRanges({OLDER, NEWER}, BLIND_RANGES) == {OLDER, NEWER}
    ensures Held({OLDER, NEWER}, 1, Range(1, 10)) == {}
  {
  }

  lemma BlindIsEnough()
    ensures forall p ::
        p in BLIND_RANGES ==> p in BLIND_TAILS && !Lacks({OLDER, NEWER}, BLIND_RANGES, BLIND_TAILS, 1, p)
  {
    BlindShows();
    hide InRanges, Held, FirstTails;
  }

  lemma NoRounds(log: set<Record>, ranges: Tails, limit: nat, tails: Tails)
    requires AreTails(ranges, tails)
    ensures TailsFrom(log, ranges, limit, tails, 0) == tails && tails.Keys == ranges.Keys
  {
  }

  lemma OnlyNewest(r: Record, s: set<Record>)
    requires r in s && forall q :: q in s && q != r ==> Before(r, q, true)
    ensures FirstOf([r], s, 1, true)
  {
    SubsetSize({r}, s);
  }

  const FIRST := Record(0, 0, 1, false, "first")

  const LAST := Record(0, 32, 2, false, "last")

  const SPARSE: Tails := map[0 := Range(0, 33)]

  ghost function TailAt(start: int): Tails {
    map[0 := Range(start, 33)]
  }

  /** Each round doubles a tail that holds one record of two; after four it is 32 long. */
  lemma FourRoundsMiss()
    ensures IsLog({FIRST, LAST}) && Ordered({FIRST, LAST}) && ValidRanges(SPARSE)
    ensures TailsOf({FIRST, LAST}, SPARSE, 2) == TailAt(1) && TailAt(1).Keys == {0}
        && Lacks({FIRST, LAST}, SPARSE, TailAt(1), 2, 0)
    ensures FirstOf([LAST], InRanges({FIRST, LAST}, TailAt(1)), 2, true)
    ensures FirstOf([LAST, FIRST], InRanges({FIRST, LAST}, SPARSE), 2, true)
  {
    SparseFacts();
    SparsePages();
    hide *;
    AreFirst(SPARSE, 2);
    NoRounds({FIRST, LAST}, SPARSE, 2, TailAt(31));
    DoublesTail(31, 0);
    DoublesTail(29, 1);
    DoublesTail(25, 2);
    DoublesTail(17, 3);
    LacksOne(1);
  }

  lemma SparseFacts()
    ensures ValidRanges(SPARSE)
    ensures FirstTails(SPARSE, 2) == TailAt(31) && AreTails(SPARSE, TailAt(31)) && TailAt(1).Keys == {0}
        && MAX_REFILL_ROUNDS == 4
  {
    assert |SPARSE| == 1;
  }

  lemma SparsePages()
    ensures IsLog({FIRST, LAST}) && Ordered({FIRST, LAST})
    ensures FirstOf([LAST], InRanges({FIRST, LAST}, TailAt(1)), 2, true)
    ensures FirstOf([LAST, FIRST], InRanges({FIRST, LAST}, SPARSE), 2, true)
  {
    assert InRanges({FIRST, LAST}, TailAt(1)) == {LAST} && InRanges({FIRST, LAST}, SPARSE) == {FIRST, LAST};
    hide InRanges;
  }

  lemma LacksOne(start: int)
    requires 1 <= start < 33
    ensures Held({FIRST, LAST}, 0, Range(start, 33)) == {LAST}
    ensures TailAt(start).Keys == {0} && Lacks({FIRST, LAST}, SPARSE, TailAt(start), 2, 0)
  {
    assert Held({FIRST, LAST}, 0, Range(start, 33)) == {LAST} && InRanges({FIRST, LAST}, TailAt(start)) == {LAST};
    hide Held, InRanges;
    assert IsOldest(LAST, {LAST});
    SubsetSize(NewerThan({LAST}, JustBelow(start, 0, 2)), {LAST});
  }

  lemma DoublesTail(start: int, rounds: nat)
    requires 17 <= start < 33 && AreTails(SPARSE, TailAt(31))
        && TailsFrom({FIRST, LAST}, SPARSE, 2, TailAt(31), rounds) == TailAt(start)
    ensures TailsFrom({FIRST, LAST}, SPARSE, 2, TailAt(31), rounds + 1) == TailAt(2 * start - 33)
  {
    hide *;
    NextTails({FIRST, LAST}, SPARSE, 2, TailAt(31), rounds);
    DoublesOne(start);
  }

  lemma DoublesOne(start: int)
    requires 17 <= start < 33
    ensures AreTails(SPARSE, TailAt(start)) && Widened({FIRST, LAST}, SPARSE, TailAt(start), 2) ==
        TailAt(2 * start - 33)
  {
    LacksOne(start);
    hide Lacks, Held, WiderTail;
    WiderByOne(start);
  }

  lemma WiderByOne(start: int)
    requires 17 <= start < 33
    ensures WiderTail(0, Range(start, 33), 1, 2) == Range(2 * start - 33, 33)
  {
  }
}
