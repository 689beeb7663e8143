/** Records, logs and the order pages are cut in. */
module Records {
  import opened Sets
  import opened Sorting

  type Partition = nat

  /** One record of a topic. `control` marks a transaction marker, which takes
      up an offset but is never shown. `body` stands for key, value and headers. */
  datatype Record = Record(part: Partition, off: int, ts: int, control: bool, body: string)

  /** An offset range [start, end). */
  datatype Range = Range(start: int, end: int)

  /** A log holds at most one record per partition and offset. */
  ghost predicate IsLog(log: set<Record>) {
    forall r, q :: r in log && q in log && r.part == q.part && r.off == q.off ==> r == q
  }

  lemma IsLogSubset(s: set<Record>, log: set<Record>)
    requires IsLog(log) && s <= log
    ensures IsLog(s)
  {
  }

  /** Timestamps do not decrease within a partition. */
  ghost predicate Ordered(log: set<Record>) {
    forall r, q :: r in log && q in log && r.part == q.part && r.off <= q.off ==> r.ts <= q.ts
  }

  /** The records of partition p in [lo, hi) a reader shows, i.e. no control records. */
  ghost function Shown(log: set<Record>, p: Partition, lo: int, hi: int): set<Record> {
    set r | r in log && r.part == p && lo <= r.off < hi && !r.control
  }

  function CompareInt(a: int, b: int): int {
    if a < b then -1 else if a > b then 1 else 0
  }

  /** A comparison, reversed when the newest records come first. */
  function Directed(c: int, newestFirst: bool): int {
    if newestFirst then -c else c
  }

  /** The page order. Newest first times fall, oldest first they rise; at one time
      partitions rise, and within a partition offsets go the way of the times. */
  predicate Before(a: Record, b: Record, newestFirst: bool) {
    if newestFirst
    then a.ts > b.ts || (a.ts == b.ts && (a.part < b.part || (a.part == b.part && a.off > b.off)))
    else a.ts < b.ts || (a.ts == b.ts && (a.part < b.part || (a.part == b.part && a.off < b.off)))
  }

  function CompareMessages(a: Record, b: Record, newestFirst: bool): (c: int)
    ensures c < 0 <==> Before(a, b, newestFirst)
    ensures c > 0 <==> Before(b, a, newestFirst)
  {
    if a.ts != b.ts then Directed(CompareInt(a.ts, b.ts), newestFirst)
    else if a.part != b.part then CompareInt(a.part, b.part)
    else Directed(CompareInt(a.off, b.off), newestFirst)
  }

  /** a comes before b when a partition is walked in the search direction. */
  predicate Ahead(a: Record, b: Record, newestFirst: bool) {
    if newestFirst then a.off > b.off else a.off < b.off
  }

  function Min(a: int, b: int): (m: int)
    ensures m <= a && m <= b && (m == a || m == b)
  {
    if a < b then a else b
  }

  function Max(a: int, b: int): (m: int)
    ensures m >= a && m >= b && (m == a || m == b)
  {
    if a < b then b else a
  }

  ghost function ToSet<T>(s: seq<T>): set<T> {
    set x | x in s
  }

  ghost predicate SortedBefore(s: seq<Record>, newestFirst: bool) {
    forall i, j :: 0 <= i < j < |s| ==> Before(s[i], s[j], newestFirst)
  }

  /** page is what sorting s and taking the first `limit` records gives. */
  ghost predicate FirstOf(page: seq<Record>, s: set<Record>, limit: nat, newestFirst: bool) {
    && |page| == Min(limit, |s|)
    && SortedBefore(page, newestFirst)
    && (forall r :: r in page ==> r in s)
    && (forall r, q :: r in s && r !in page && q in page ==> Before(q, r, newestFirst))
  }

  /** A sorted page in fields: times never go the wrong way, at one time partitions never
      fall, and in a partition offsets go the way of the times. */
  lemma SortedInFields(page: seq<Record>, newestFirst: bool)
    requires SortedBefore(page, newestFirst)
    ensures forall i, j :: 0 <= i < j < |page| ==>
      var a, b := page[i], page[j];
      && (if newestFirst then a.ts >= b.ts else a.ts <= b.ts)
      && (a.ts == b.ts ==> a.part <= b.part)
      && (a.ts == b.ts && a.part == b.part ==> if newestFirst then a.off > b.off else a.off < b.off)
  {
  }

  /** The same holds between what is on the first page and what is not. */
  lemma FirstInFields(page: seq<Record>, s: set<Record>, limit: nat, newestFirst: bool, a: Record, b: Record)
    requires FirstOf(page, s, limit, newestFirst) && a in page && b in s && b !in page
    ensures if newestFirst then a.ts >= b.ts else a.ts <= b.ts
    ensures a.ts == b.ts ==> a.part <= b.part
    ensures a.ts == b.ts && a.part == b.part ==> if newestFirst then a.off > b.off else a.off < b.off
  {
  }

  lemma NoDupCardinality<T>(s: seq<T>)
    requires NoDup(s)
    ensures |ToSet(s)| == |s|
  {
    if s == [] {
      assert ToSet(s) == {};
    } else {
      var init, last := s[..|s| - 1], s[|s| - 1];
      NoDupCardinality(init);
      assert ToSet(s) == ToSet(init) + {last};
      assert last !in init;
    }
  }

  /** The page of a given limit is unique: FirstOf defines it. */
  lemma FirstOfIsUnique(p: seq<Record>, q: seq<Record>, s: set<Record>, limit: nat, newestFirst: bool)
    requires FirstOf(p, s, limit, newestFirst) && FirstOf(q, s, limit, newestFirst)
    ensures p == q
  {
    hide Before;
    SortedNoDup(p, newestFirst);
    SortedNoDup(q, newestFirst);
    NoDupCardinality(p);
    NoDupCardinality(q);
    if ToSet(p) != ToSet(q) {
      var r := OnlyInFirst(ToSet(p), ToSet(q));
      var t := OnlyInFirst(ToSet(q), ToSet(p));
      BeforeIsAsymmetric(r, t, newestFirst);
      assert false;
    }
    SortedSameSet(p, q, newestFirst);
  }

  lemma OnlyInFirst<T>(a: set<T>, b: set<T>) returns (x: T)
    requires a != b && |a| == |b|
    ensures x in a && x !in b
  {
    if a <= b {
      SubsetSize(a, b);
      assert false;
    }
    x :| x in a && x !in b;
  }

  lemma BeforeIsAsymmetric(a: Record, b: Record, newestFirst: bool)
    ensures !(Before(a, b, newestFirst) && Before(b, a, newestFirst))
  {
  }

  lemma SortedNoDup(s: seq<Record>, newestFirst: bool)
    requires SortedBefore(s, newestFirst)
    ensures NoDup(s)
  {
    forall i, j | 0 <= i < j < |s| ensures s[i] != s[j] {
      BeforeIsAsymmetric(s[i], s[j], newestFirst);
    }
  }

  lemma FirstIsLeast(s: seq<Record>, newestFirst: bool)
    requires SortedBefore(s, newestFirst) && s != []
    ensures forall x :: x in s && x != s[0] ==> Before(s[0], x, newestFirst)
  {
  }

  lemma {:induction false} SortedSameSet(p: seq<Record>, q: seq<Record>, newestFirst: bool)
    requires SortedBefore(p, newestFirst) && SortedBefore(q, newestFirst)
    requires ToSet(p) == ToSet(q)
    ensures p == q
  {
    hide Before;
    SortedNoDup(p, newestFirst);
    SortedNoDup(q, newestFirst);
    NoDupCardinality(p);
    NoDupCardinality(q);
    if p != [] {
      assert p[0] in ToSet(q) && q[0] in ToSet(p);
      FirstIsLeast(p, newestFirst);
      FirstIsLeast(q, newestFirst);
      BeforeIsAsymmetric(p[0], q[0], newestFirst);
      assert p == [p[0]] + p[1..] && q == [q[0]] + q[1..];
      SameTails(p, q);
      TailSorted(p, newestFirst);
      TailSorted(q, newestFirst);
      SortedSameSet(p[1..], q[1..], newestFirst);
    }
  }

  lemma TailSorted(s: seq<Record>, newestFirst: bool)
    requires SortedBefore(s, newestFirst) && s != []
    ensures SortedBefore(s[1..], newestFirst)
  {
    hide Before;
  }

  lemma NoDupConcat<T>(a: seq<T>, b: seq<T>)
    requires NoDup(a) && NoDup(b) && forall x :: x in a ==> x !in b
    ensures NoDup(a + b)
    ensures forall x :: x in a + b <==> x in a || x in b
  {
    forall i, j | 0 <= i < j < |a + b| ensures (a + b)[i] != (a + b)[j] {
      assert i < |a| ==> (a + b)[i] in a;
      assert j >= |a| ==> (a + b)[j] in b;
    }
  }

  /** The first records of all, followed by the first of what they leave. */
  lemma JoinPages(a: seq<Record>, b: seq<Record>, all: set<Record>, limit: nat, newestFirst: bool)
    requires FirstOf(a, all, limit, newestFirst) && FirstOf(b, all - ToSet(a), |b|, newestFirst)
    ensures FirstOf(a + b, all, |a + b|, newestFirst)
  {
    hide Before;
    forall r | r in b ensures r in all && r !in a {
      assert r in all - ToSet(a);
    }
    SortedNoDup(a, newestFirst);
    SortedNoDup(b, newestFirst);
    NoDupConcat(a, b);
    NoDupCardinality(a + b);
    assert ToSet(a + b) <= all;
    SubsetSize(ToSet(a + b), all);
    forall i, j | 0 <= i < j < |a + b| ensures Before((a + b)[i], (a + b)[j], newestFirst) {
      assert i < |a| ==> (a + b)[i] in a;
      assert j >= |a| ==> (a + b)[j] in b;
    }
  }

  lemma SameTails<T>(p: seq<T>, q: seq<T>)
    requires NoDup(p) && NoDup(q) && p != [] && q != [] && p[0] == q[0] && ToSet(p) == ToSet(q)
    ensures ToSet(p[1..]) == ToSet(q[1..])
  {
    assert ToSet(p[1..]) == ToSet(p) - {p[0]};
    assert ToSet(q[1..]) == ToSet(q) - {q[0]};
  }

  // --- orders of records ---

  type Order = Less<Record>

  /** compareMessages as an order. */
  function ByTime(newestFirst: bool): Order {
    (a, b) => Before(a, b, newestFirst)
  }

  /** The walking order of a partition. */
  function ByOffset(newestFirst: bool): Order {
    (a, b) => Ahead(a, b, newestFirst)
  }

  lemma OrdersAreOrders(newestFirst: bool)
    ensures IsOrder(ByTime(newestFirst)) && IsOrder(ByOffset(newestFirst))
  {
  }

  /** Sorting the distinct records of a log orders them strictly. */
  lemma SortedStrictly(s: seq<Record>, newestFirst: bool)
    requires NoDup(s) && IsLog(ToSet(s))
    ensures SortedBefore(Sort(s, ByTime(newestFirst)), newestFirst)
    ensures ToSet(Sort(s, ByTime(newestFirst))) == ToSet(s)
    ensures NoDup(Sort(s, ByTime(newestFirst)))
  {
    var t := Sort(s, ByTime(newestFirst));
    SameMultiset(s, t);
    OrdersAreOrders(newestFirst);
    SortSorts(s, ByTime(newestFirst));
    forall i, j | 0 <= i < j < |t| ensures Before(t[i], t[j], newestFirst) {
      SortedPairs(t, ByTime(newestFirst), i, j);
      BeforeIsTotal(t[i], t[j], ToSet(s), newestFirst);
    }
  }

  lemma BeforeIsTotal(a: Record, b: Record, log: set<Record>, newestFirst: bool)
    requires IsLog(log) && a in log && b in log && a != b && !Before(b, a, newestFirst)
    ensures Before(a, b, newestFirst)
  {
    assert a.part != b.part || a.off != b.off;
  }
}
