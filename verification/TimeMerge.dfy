/** Cutting a page of matches: mergeByTime, pageCut and pageMerge of
    internal/kafka/search.go. */
module TimeMerge {
  import opened Sets
  import opened Records
  import opened Sorting

  // --- specification: pick, limit times, the best record in front of a partition ---

  /** r is the first record of its partition in s, in walking order. */
  ghost predicate InFront(r: Record, s: set<Record>, newestFirst: bool) {
    r in s && forall q :: q in s && q.part == r.part && q != r ==> Ahead(r, q, newestFirst)
  }

  ghost predicate IsNext(r: Record, s: set<Record>, newestFirst: bool) {
    InFront(r, s, newestFirst) && forall q :: InFront(q, s, newestFirst) && q != r ==> Before(r, q, newestFirst)
  }

  lemma {:induction false} FrontExists(s: set<Record>, p: Partition, newestFirst: bool)
    requires IsLog(s) && exists r :: r in s && r.part == p
    ensures exists r :: InFront(r, s, newestFirst) && r.part == p
    decreases s
  {
    var r :| r in s && r.part == p;
    var rest := s - {r};
    if exists q :: q in rest && q.part == p {
      FrontExists(rest, p, newestFirst);
      var q :| InFront(q, rest, newestFirst) && q.part == p;
      assert q != r && q.off != r.off;
      assert InFront(if Ahead(r, q, newestFirst) then r else q, s, newestFirst);
    } else {
      assert InFront(r, s, newestFirst);
    }
  }

  /** The Before-least record of a nonempty log. */
  lemma {:induction false} LeastExists(s: set<Record>, newestFirst: bool)
    requires IsLog(s) && s != {}
    ensures exists r :: r in s && forall q :: q in s && q != r ==> Before(r, q, newestFirst)
    decreases s
  {
    var r :| r in s;
    var rest := s - {r};
    if rest == {} {
      assert forall q :: q in s && q != r ==> q in rest;
    } else {
      LeastExists(rest, newestFirst);
      var q :| q in rest && forall t :: t in rest && t != q ==> Before(q, t, newestFirst);
      var least := if Before(r, q, newestFirst) then r else q;
      assert q != r && (q.part != r.part || q.off != r.off);
      forall t | t in s && t != least
        ensures Before(least, t, newestFirst)
      {
        if t != r && t != q {
          assert t in rest;
        }
      }
    }
  }

  lemma NextExists(s: set<Record>, newestFirst: bool)
    requires IsLog(s) && s != {}
    ensures exists r :: IsNext(r, s, newestFirst)
  {
    var fronts := set r | r in s && InFront(r, s, newestFirst);
    var r :| r in s;
    FrontExists(s, r.part, newestFirst);
    var f :| InFront(f, s, newestFirst);
    assert f in fronts;
    LeastExists(fronts, newestFirst);
    var least :| least in fronts && forall q :: q in fronts && q != least ==> Before(least, q, newestFirst);
    assert IsNext(least, s, newestFirst);
  }

  ghost function Next(s: set<Record>, newestFirst: bool): (r: Record)
    requires IsLog(s) && s != {}
    ensures IsNext(r, s, newestFirst)
  {
    NextExists(s, newestFirst);
    var r :| IsNext(r, s, newestFirst);
    r
  }

  lemma NextIsUnique(a: Record, b: Record, s: set<Record>, newestFirst: bool)
    requires IsNext(a, s, newestFirst) && IsNext(b, s, newestFirst)
    ensures a == b
  {
  }

  /** One pick of the merge. */
  ghost function Pick(m: set<Record>, before: set<Record>, newestFirst: bool): (kept: set<Record>)
    requires IsLog(m) && before <= m
    ensures before <= kept <= m
    ensures if m == before then kept == before else |kept| == |before| + 1 && |before| < |m|
  {
    SubsetSize(before, m);
    if m == before then before else before + {Next(m - before, newestFirst)}
  }

  /** The records a page of `k` keeps of the matches m. */
  ghost function Kept(m: set<Record>, k: nat, newestFirst: bool): (kept: set<Record>)
    requires IsLog(m)
    ensures kept <= m && |kept| == Min(k, |m|)
  {
    if k == 0 then {} else Pick(m, Kept(m, k - 1, newestFirst), newestFirst)
  }

  /** In every partition, `kept` is in front of what it leaves of m. */
  ghost predicate KeepsFronts(m: set<Record>, kept: set<Record>, newestFirst: bool) {
    forall r, q :: r in kept && q in m && q !in kept && q.part == r.part ==> Ahead(r, q, newestFirst)
  }

  /** `kept` ranks before everything it leaves of m. */
  ghost predicate KeepsFirst(m: set<Record>, kept: set<Record>, newestFirst: bool) {
    forall r, q :: r in kept && q in m && q !in kept ==> Before(r, q, newestFirst)
  }

  /** What a page keeps of a partition is in front of what it leaves. */
  lemma {:induction false} KeptIsPrefix(m: set<Record>, k: nat, newestFirst: bool)
    requires IsLog(m)
    ensures KeepsFronts(m, Kept(m, k, newestFirst), newestFirst)
  {
    if k > 0 {
      KeptIsPrefix(m, k - 1, newestFirst);
    }
  }

  lemma PickIsFirst(m: set<Record>, before: set<Record>, newestFirst: bool)
    requires IsLog(m) && Ordered(m) && before <= m && KeepsFirst(m, before, newestFirst)
    ensures KeepsFirst(m, Pick(m, before, newestFirst), newestFirst)
  {
    if m != before {
      SubsetSize(before, m);
      var rest := m - before;
      var next := Next(rest, newestFirst);
      forall q | q in rest && q != next ensures Before(next, q, newestFirst) {
        FrontExists(rest, q.part, newestFirst);
        var f :| InFront(f, rest, newestFirst) && f.part == q.part;
      }
    }
  }

  /** With timestamps ordered within each partition the page is the first k by time. */
  lemma {:induction false} KeptIsFirst(m: set<Record>, k: nat, newestFirst: bool)
    requires IsLog(m) && Ordered(m)
    ensures KeepsFirst(m, Kept(m, k, newestFirst), newestFirst)
  {
    if k > 0 {
      KeptIsFirst(m, k - 1, newestFirst);
      PickIsFirst(m, Kept(m, k - 1, newestFirst), newestFirst);
    }
  }

  ghost predicate HasFront(e: Record, rest: set<Record>, newestFirst: bool) {
    exists r :: r in rest && r.part == e.part && Ahead(r, e, newestFirst)
  }

  /** Records behind a remaining record of their own partition are not next. */
  lemma NextIgnoresTails(rest: set<Record>, extra: set<Record>, newestFirst: bool)
    requires IsLog(rest + extra) && rest != {}
    requires forall e :: e in extra ==> HasFront(e, rest, newestFirst)
    ensures Next(rest + extra, newestFirst) == Next(rest, newestFirst)
  {
    var next := Next(rest + extra, newestFirst);
    assert forall q :: InFront(q, rest + extra, newestFirst) ==> q !in extra || q in rest;
    forall q | InFront(q, rest, newestFirst) ensures InFront(q, rest + extra, newestFirst) {
      forall e | e in extra && e.part == q.part && e != q ensures Ahead(q, e, newestFirst) {
        assert HasFront(e, rest, newestFirst);
      }
    }
    assert IsNext(next, rest, newestFirst);
    NextIsUnique(next, Next(rest, newestFirst), rest, newestFirst);
  }

  /** Matches behind `limit` matches of their own partition never change a page of `limit`. */
  lemma {:induction false} KeptIgnoresTails(m: set<Record>, extra: set<Record>, k: nat, limit: nat, newestFirst: bool)
    requires IsLog(m + extra) && k <= limit
    requires forall e :: e in extra ==> limit <= |OfPartition(m, e.part)|
    requires forall e, r :: e in extra && r in m && r.part == e.part ==> Ahead(r, e, newestFirst)
    ensures Kept(m + extra, k, newestFirst) == Kept(m, k, newestFirst)
  {
    hide IsLog, OfPartition, Ahead, Pick;
    IsLogSubset(m, m + extra);
    if k > 0 {
      KeptIgnoresTails(m, extra, k - 1, limit, newestFirst);
      TailsStayBehind(m, extra, Kept(m, k - 1, newestFirst), limit, newestFirst);
    }
  }

  lemma TailHasFront(m: set<Record>, extra: set<Record>, before: set<Record>, limit: nat, newestFirst: bool)
    requires |before| < limit && before <= m
    requires forall e :: e in extra ==> limit <= |OfPartition(m, e.part)|
    requires forall e, r :: e in extra && r in m && r.part == e.part ==> Ahead(r, e, newestFirst)
    ensures forall e :: e in extra ==> e !in m && HasFront(e, m - before, newestFirst)
  {
    forall e | e in extra
      ensures HasFront(e, m - before, newestFirst)
    {
      var r := Unkept(OfPartition(m, e.part), before);
      assert r in m - before && Ahead(r, e, newestFirst);
    }
  }

  lemma TailsStayBehind(m: set<Record>, extra: set<Record>, before: set<Record>, limit: nat, newestFirst: bool)
    requires IsLog(m + extra) && |before| < limit && before <= m
    requires forall e :: e in extra ==> limit <= |OfPartition(m, e.part)|
    requires forall e, r :: e in extra && r in m && r.part == e.part ==> Ahead(r, e, newestFirst)
    ensures Pick(m + extra, before, newestFirst) == Pick(m, before, newestFirst)
  {
    TailHasFront(m, extra, before, limit, newestFirst);
    PickIgnoresTails(m, extra, before, newestFirst);
  }

  lemma PickIgnoresTails(m: set<Record>, extra: set<Record>, before: set<Record>, newestFirst: bool)
    requires IsLog(m + extra) && before <= m
    requires forall e :: e in extra ==> e !in m && HasFront(e, m - before, newestFirst)
    ensures Pick(m + extra, before, newestFirst) == Pick(m, before, newestFirst)
  {
    SubsetSize(before, m);
    if m == before {
      assert extra == {};
      assert m + extra == before;
    } else {
      assert (m + extra) - before == (m - before) + extra;
      NextIgnoresTails(m - before, extra, newestFirst);
      assert m + extra != before;
    }
  }

  lemma Unkept(a: set<Record>, b: set<Record>) returns (r: Record)
    requires |b| < |a|
    ensures r in a && r !in b
  {
    if a <= b {
      SubsetSize(a, b);
      assert false;
    }
    r :| r in a && r !in b;
  }

  ghost function OfPartition(m: set<Record>, p: Partition): set<Record> {
    set r | r in m && r.part == p
  }

  // --- the merge ---

  /** byPart holds the matches of every partition in walking order. */
  ghost predicate Grouped(m: set<Record>, byPart: map<Partition, seq<Record>>, newestFirst: bool) {
    && (forall r :: r in m ==> r.part in byPart)
    && (forall p :: p in byPart ==> IsGroup(m, p, byPart[p], newestFirst))
  }

  ghost predicate IsGroup(m: set<Record>, p: Partition, group: seq<Record>, newestFirst: bool) {
    && (forall r :: r in group <==> r in m && r.part == p)
    && (forall i, j :: 0 <= i < j < |group| ==> Ahead(group[i], group[j], newestFirst))
  }

  ghost predicate IsHead(byPart: map<Partition, seq<Record>>, head: map<Partition, nat>) {
    head.Keys == byPart.Keys && forall p :: p in head ==> head[p] <= |byPart[p]|
  }

  ghost function Picked(byPart: map<Partition, seq<Record>>, head: map<Partition, nat>): set<Record>
    requires IsHead(byPart, head)
  {
    set p, i | p in head && 0 <= i < head[p] :: byPart[p][i]
  }

  ghost predicate IsBest(byPart: map<Partition, seq<Record>>, head: map<Partition, nat>, best: Partition,
                         newestFirst: bool)
    requires IsHead(byPart, head)
  {
    && best in head && head[best] < |byPart[best]|
    && forall p :: p in head && p != best && head[p] < |byPart[p]| ==>
         Before(byPart[best][head[best]], byPart[p][head[p]], newestFirst)
  }

  lemma HeadIsFront(m: set<Record>, byPart: map<Partition, seq<Record>>, head: map<Partition, nat>, p: Partition,
                    newestFirst: bool)
    requires Grouped(m, byPart, newestFirst) && IsHead(byPart, head) && p in head && head[p] < |byPart[p]|
    ensures InFront(byPart[p][head[p]], m - Picked(byPart, head), newestFirst)
    ensures forall r :: InFront(r, m - Picked(byPart, head), newestFirst) && r.part == p ==> r == byPart[p][head[p]]
  {
    var rest := m - Picked(byPart, head);
    var front := byPart[p][head[p]];
    assert front in byPart[p];
    assert front !in Picked(byPart, head) by {
      forall q, i | q in head && 0 <= i < head[q] ensures byPart[q][i] != front {
        assert byPart[q][i] in byPart[q];
        assert q == p ==> Ahead(byPart[p][i], byPart[p][head[p]], newestFirst);
      }
    }
    forall q | q in rest && q.part == p && q != front ensures Ahead(front, q, newestFirst) {
      var j :| 0 <= j < |byPart[p]| && byPart[p][j] == q;
      assert j >= head[p];
    }
  }

  lemma BestIsNext(m: set<Record>, byPart: map<Partition, seq<Record>>, head: map<Partition, nat>, best: Partition,
                   newestFirst: bool)
    requires IsLog(m) && Grouped(m, byPart, newestFirst) && IsHead(byPart, head)
        && IsBest(byPart, head, best, newestFirst)
    ensures IsNext(byPart[best][head[best]], m - Picked(byPart, head), newestFirst)
  {
    var rest := m - Picked(byPart, head);
    HeadIsFront(m, byPart, head, best, newestFirst);
    forall q | InFront(q, rest, newestFirst) && q != byPart[best][head[best]]
      ensures Before(byPart[best][head[best]], q, newestFirst)
    {
      RestHasHead(m, byPart, head, q, newestFirst);
      HeadIsFront(m, byPart, head, q.part, newestFirst);
      assert q.part != best;
    }
  }

  lemma RestHasHead(m: set<Record>, byPart: map<Partition, seq<Record>>, head: map<Partition, nat>, r: Record,
                    newestFirst: bool)
    requires Grouped(m, byPart, newestFirst) && IsHead(byPart, head) && r in m - Picked(byPart, head)
    ensures r.part in head && head[r.part] < |byPart[r.part]|
  {
    var i :| 0 <= i < |byPart[r.part]| && byPart[r.part][i] == r;
    assert i >= head[r.part];
  }

  lemma PickedGrows(byPart: map<Partition, seq<Record>>, head: map<Partition, nat>, p: Partition)
    requires IsHead(byPart, head) && p in head && head[p] < |byPart[p]|
    ensures IsHead(byPart, head[p := head[p] + 1])
    ensures Picked(byPart, head[p := head[p] + 1]) == Picked(byPart, head) + {byPart[p][head[p]]}
  {
    var more := head[p := head[p] + 1];
    forall r | r in Picked(byPart, more) ensures r in Picked(byPart, head) + {byPart[p][head[p]]} {
      var q, i :| q in more && 0 <= i < more[q] && byPart[q][i] == r;
      assert q in head && (i < head[q] || (q == p && i == head[p]));
    }
    forall r | r in Picked(byPart, head) ensures r in Picked(byPart, more) {
      var q, i :| q in head && 0 <= i < head[q] && byPart[q][i] == r;
      assert q in more && i < more[q];
    }
    assert p in more && head[p] < more[p];
  }

  method MergeByTime(matches: seq<Record>, limit: nat, newestFirst: bool)
    returns (byPart: map<Partition, seq<Record>>, head: map<Partition, nat>)
    requires NoDup(matches) && IsLog(ToSet(matches))
    ensures Grouped(ToSet(matches), byPart, newestFirst) && IsHead(byPart, head)
    ensures Picked(byPart, head) == Kept(ToSet(matches), limit, newestFirst)
  {
    byPart := GroupByPartition(matches, newestFirst);
    NoDupCardinality(matches);
    head := MergeHeads(ToSet(matches), byPart, Min(limit, |matches|), newestFirst);
    KeptStops(ToSet(matches), limit, newestFirst);
  }

  lemma NonePicked(m: set<Record>, byPart: map<Partition, seq<Record>>, head: map<Partition, nat>, newestFirst: bool)
    requires IsLog(m) && head.Keys == byPart.Keys && forall p :: p in head ==> head[p] == 0
    ensures IsHead(byPart, head) && Picked(byPart, head) == Kept(m, 0, newestFirst)
  {
  }

  /** The merging loop of mergeByTime: head[p] counts the picks of partition p. */
  method MergeHeads(ghost m: set<Record>, byPart: map<Partition, seq<Record>>, picks: nat, newestFirst: bool)
    returns (head: map<Partition, nat>)
    requires IsLog(m) && Grouped(m, byPart, newestFirst) && picks <= |m|
    ensures IsHead(byPart, head) && Picked(byPart, head) == Kept(m, picks, newestFirst)
  {
    hide *;
    head := NoHeads(byPart);
    NonePicked(m, byPart, head, newestFirst);
    for step := 0 to picks
      invariant IsHead(byPart, head) && Picked(byPart, head) == Kept(m, step, newestFirst)
    {
      var best := BestHead(m, byPart, head, newestFirst);
      MergeStep(m, byPart, head, best, step, newestFirst);
      head := head[best := head[best] + 1];
    }
  }

  function NoHeads(byPart: map<Partition, seq<Record>>): (head: map<Partition, nat>)
    ensures head.Keys == byPart.Keys && forall p :: p in head ==> head[p] == 0
  {
    map p | p in byPart :: 0
  }

  lemma MergeStep(m: set<Record>, byPart: map<Partition, seq<Record>>, head: map<Partition, nat>, best: Partition,
                  step: nat, newestFirst: bool)
    requires IsLog(m) && Grouped(m, byPart, newestFirst) && IsHead(byPart, head)
        && IsBest(byPart, head, best, newestFirst)
    requires Picked(byPart, head) == Kept(m, step, newestFirst) && step < |m|
    ensures IsHead(byPart, head[best := head[best] + 1])
    ensures Picked(byPart, head[best := head[best] + 1]) == Kept(m, step + 1, newestFirst)
  {
    BestIsNext(m, byPart, head, best, newestFirst);
    PickedGrows(byPart, head, best);
    SubsetSize(Kept(m, step, newestFirst), m);
    var rest := m - Picked(byPart, head);
    NextIsUnique(byPart[best][head[best]], Next(rest, newestFirst), rest, newestFirst);
  }

  lemma {:induction false} KeptStops(m: set<Record>, limit: nat, newestFirst: bool)
    requires IsLog(m)
    ensures Kept(m, limit, newestFirst) == Kept(m, Min(limit, |m|), newestFirst)
  {
    if limit > |m| {
      KeptStops(m, limit - 1, newestFirst);
      SubsetSize(Kept(m, limit - 1, newestFirst), m);
    }
  }

  /** The partition whose next match comes first; the order of the partitions
      does not matter, as no two records compare equal. */
  method BestHead(ghost m: set<Record>, byPart: map<Partition, seq<Record>>, head: map<Partition, nat>,
                  newestFirst: bool)
    returns (best: Partition)
    requires IsLog(m) && Grouped(m, byPart, newestFirst) && IsHead(byPart, head)
    requires |Picked(byPart, head)| < |m|
    ensures best in head && IsBest(byPart, head, best, newestFirst)
  {
    var found: int := -1;
    var todo := byPart.Keys;
    while todo != {}
      invariant todo <= head.Keys
      invariant found >= 0 ==> found in head && found !in todo && head[found] < |byPart[found]|
      invariant forall p :: p in head && p !in todo && p != found && head[p] < |byPart[p]| ==>
        found >= 0 && Before(byPart[found][head[found]], byPart[p][head[p]], newestFirst)
    {
      var p :| p in todo;
      todo := todo - {p};
      if head[p] < |byPart[p]| {
        ghost var r := byPart[p][head[p]];
        assert r in byPart[p];
        if found >= 0 {
          assert byPart[found][head[found]] in byPart[found];
        }
        if found < 0 || CompareMessages(byPart[p][head[p]], byPart[found][head[found]], newestFirst) < 0 {
          found := p;
        }
      }
    }
    ghost var r := Unkept(m, Picked(byPart, head));
    RestHasHead(m, byPart, head, r, newestFirst);
    best := found;
  }

  method GroupByPartition(matches: seq<Record>, newestFirst: bool) returns (byPart: map<Partition, seq<Record>>)
    requires NoDup(matches) && IsLog(ToSet(matches))
    ensures Grouped(ToSet(matches), byPart, newestFirst)
  {
    byPart := map[];
    for i := 0 to |matches|
      invariant GroupedRaw(matches[..i], byPart)
    {
      var r := matches[i];
      assert matches[..i + 1] == matches[..i] + [r];
      RawGroupsGrow(matches[..i], byPart, r);
      byPart := byPart[r.part := (if r.part in byPart then byPart[r.part] else []) + [r]];
    }
    assert matches[..|matches|] == matches;
    var todo := byPart.Keys;
    ghost var raw := byPart;
    while todo != {}
      invariant todo <= byPart.Keys == raw.Keys
      invariant forall p :: p in raw ==> byPart[p] == if p in todo then raw[p] else Sort(raw[p], ByOffset(newestFirst))
    {
      var p :| p in todo;
      todo := todo - {p};
      byPart := byPart[p := Sort(byPart[p], ByOffset(newestFirst))];
    }
    SortedGroups(matches, raw, byPart, newestFirst);
  }

  ghost predicate GroupedRaw(matches: seq<Record>, byPart: map<Partition, seq<Record>>) {
    && (forall r :: r in matches ==> r.part in byPart)
    && (forall p :: p in byPart ==> IsRawGroup(matches, p, byPart[p]))
  }

  ghost predicate IsRawGroup(matches: seq<Record>, p: Partition, group: seq<Record>) {
    NoDup(group) && forall r :: r in group <==> r in matches && r.part == p
  }

  lemma RawGroupsGrow(matches: seq<Record>, byPart: map<Partition, seq<Record>>, r: Record)
    requires GroupedRaw(matches, byPart) && r !in matches
    ensures GroupedRaw(matches + [r], byPart[r.part := (if r.part in byPart then byPart[r.part] else []) + [r]])
  {
    var more := byPart[r.part := (if r.part in byPart then byPart[r.part] else []) + [r]];
    forall p | p in more ensures IsRawGroup(matches + [r], p, more[p]) {
      assert p in byPart ==> IsRawGroup(matches, p, byPart[p]);
    }
  }

  lemma SortedGroups(matches: seq<Record>, raw: map<Partition, seq<Record>>, byPart: map<Partition, seq<Record>>,
                     newestFirst: bool)
    requires IsLog(ToSet(matches)) && GroupedRaw(matches, raw)
    requires byPart.Keys == raw.Keys && forall p :: p in raw ==> byPart[p] == Sort(raw[p], ByOffset(newestFirst))
    ensures Grouped(ToSet(matches), byPart, newestFirst)
  {
    forall p | p in raw ensures IsGroup(ToSet(matches), p, byPart[p], newestFirst) {
      SortedGroup(matches, p, raw[p], newestFirst);
    }
  }

  lemma SortedGroup(matches: seq<Record>, p: Partition, raw: seq<Record>, newestFirst: bool)
    requires IsLog(ToSet(matches)) && IsRawGroup(matches, p, raw)
    ensures IsGroup(ToSet(matches), p, Sort(raw, ByOffset(newestFirst)), newestFirst)
  {
    hide Sorted, IsOrder, Sort, IsLog, Ahead;
    var sorted := Sort(raw, ByOffset(newestFirst));
    SameMultiset(raw, sorted);
    OrdersAreOrders(newestFirst);
    SortSorts(raw, ByOffset(newestFirst));
    forall i, j | 0 <= i < j < |sorted| ensures Ahead(sorted[i], sorted[j], newestFirst) {
      SortedPairs(sorted, ByOffset(newestFirst), i, j);
      assert sorted[i] in raw && sorted[j] in raw;
      AheadIsTotal(ToSet(matches), sorted[i], sorted[j], newestFirst);
    }
  }

  lemma AheadIsTotal(log: set<Record>, a: Record, b: Record, newestFirst: bool)
    requires IsLog(log) && a in log && b in log && a != b && a.part == b.part && !Ahead(b, a, newestFirst)
    ensures Ahead(a, b, newestFirst)
  {
  }

  /** Offsets of the first match of every partition that does not fit the page. */
  method PageCut(matches: seq<Record>, limit: nat, newestFirst: bool) returns (cuts: map<Partition, int>)
    requires NoDup(matches) && IsLog(ToSet(matches))
    ensures CutsOf(ToSet(matches), limit, newestFirst, cuts)
  {
    hide *;
    var byPart, head := MergeByTime(matches, limit, newestFirst);
    ghost var m := ToSet(matches);
    ghost var rest := m - Picked(byPart, head);
    HeadBounds(m, byPart, head, newestFirst);
    cuts := map[];
    var todo := byPart.Keys;
    while todo != {}
      invariant todo <= head.Keys
      invariant CutsBut(rest, newestFirst, todo, cuts)
    {
      var p :| p in todo;
      CutStep(m, byPart, head, newestFirst, todo, cuts, p);
      todo := todo - {p};
      if head[p] < |byPart[p]| {
        cuts := cuts[p := byPart[p][head[p]].off];
      }
    }
    AllCut(m, byPart, head, limit, newestFirst, cuts);
  }

  lemma HeadBounds(m: set<Record>, byPart: map<Partition, seq<Record>>, head: map<Partition, nat>, newestFirst: bool)
    requires Grouped(m, byPart, newestFirst) && IsHead(byPart, head)
    ensures head.Keys == byPart.Keys
    ensures forall p :: p in head ==> head[p] <= |byPart[p]|
    ensures CutsBut(m - Picked(byPart, head), newestFirst, head.Keys, map[])
    ensures forall r :: r in Picked(byPart, head) ==> r.part in byPart
  {
    forall r | r in Picked(byPart, head) ensures r.part in byPart {
      var p, i :| p in head && 0 <= i < head[p] && byPart[p][i] == r;
      HeadHasPart(m, byPart, p, i, newestFirst);
    }
  }

  /** The cuts of the partitions outside todo. */
  ghost predicate CutsBut(rest: set<Record>, newestFirst: bool, todo: set<Partition>, cuts: map<Partition, int>) {
    && (forall p ::
      p in cuts ==> p !in todo && exists r :: InFront(r, rest, newestFirst) && r.part == p && cuts[p] == r.off)
    && (forall r :: r in rest && r.part !in todo ==> r.part in cuts)
  }

  lemma CutStep(m: set<Record>, byPart: map<Partition, seq<Record>>, head: map<Partition, nat>, newestFirst: bool,
                todo: set<Partition>, cuts: map<Partition, int>, p: Partition)
    requires Grouped(m, byPart, newestFirst) && IsHead(byPart, head) && p in todo && p in head
    requires CutsBut(m - Picked(byPart, head), newestFirst, todo, cuts)
    ensures CutsBut(m - Picked(byPart, head), newestFirst, todo - {p},
              if head[p] < |byPart[p]| then cuts[p := byPart[p][head[p]].off] else cuts)
  {
    var rest := m - Picked(byPart, head);
    forall r | r in rest && r.part == p ensures head[p] < |byPart[p]| {
      RestHasHead(m, byPart, head, r, newestFirst);
    }
    if head[p] < |byPart[p]| {
      HeadIsFront(m, byPart, head, p, newestFirst);
      HeadHasPart(m, byPart, p, head[p], newestFirst);
    }
    hide Picked, InFront, IsGroup;
  }

  lemma HeadHasPart(m: set<Record>, byPart: map<Partition, seq<Record>>, p: Partition, i: nat, newestFirst: bool)
    requires Grouped(m, byPart, newestFirst) && p in byPart && i < |byPart[p]|
    ensures byPart[p][i].part == p
  {
    assert byPart[p][i] in byPart[p];
  }

  lemma AllCut(m: set<Record>, byPart: map<Partition, seq<Record>>, head: map<Partition, nat>, limit: nat,
               newestFirst: bool,
               cuts: map<Partition, int>)
    requires IsLog(m) && IsHead(byPart, head) && Picked(byPart, head) == Kept(m, limit, newestFirst)
    requires CutsBut(m - Picked(byPart, head), newestFirst, {}, cuts)
    ensures CutsOf(m, limit, newestFirst, cuts)
  {
  }

  /** The cut of a partition is the offset of its first match left off the page. */
  ghost predicate CutsOf(m: set<Record>, limit: nat, newestFirst: bool, cuts: map<Partition, int>)
    requires IsLog(m)
  {
    var rest := m - Kept(m, limit, newestFirst);
    && (forall p :: p in cuts ==> exists r :: InFront(r, rest, newestFirst) && r.part == p && cuts[p] == r.off)
    && (forall r :: r in rest ==> r.part in cuts)
  }

  /** The matches a page keeps, in page order. */
  method PageMerge(matches: seq<Record>, limit: nat, newestFirst: bool) returns (page: seq<Record>)
    requires NoDup(matches) && IsLog(ToSet(matches))
    ensures SortedBefore(page, newestFirst)
    ensures ToSet(page) == Kept(ToSet(matches), limit, newestFirst)
    ensures |page| == Min(limit, |matches|)
    // In fields.
    ensures forall i, j :: 0 <= i < j < |page| ==>
              if newestFirst then page[i].ts >= page[j].ts else page[i].ts <= page[j].ts
    ensures forall i, j :: 0 <= i < j < |page| && page[i].ts == page[j].ts ==>
              && page[i].part <= page[j].part
              && (page[i].part == page[j].part ==>
                (page[i].off > page[j].off <==> newestFirst) && page[i].off != page[j].off)
  {
    hide *;
    var byPart, head := MergeByTime(matches, limit, newestFirst);
    ghost var m := ToSet(matches);
    HeadBounds(m, byPart, head, newestFirst);
    NonePaged(byPart, head);
    page := [];
    var todo := byPart.Keys;
    while todo != {}
      invariant todo <= head.Keys
      invariant PagedBut(byPart, head, todo, page)
    {
      var p :| p in todo;
      PageStep(m, byPart, head, todo, page, p, newestFirst);
      todo := todo - {p};
      page := page + byPart[p][..head[p]];
    }
    AllPaged(m, byPart, head, page);
    SortedStrictly(page, newestFirst);
    NoDupCardinality(matches);
    page := Sort(page, ByTime(newestFirst));
    NoDupCardinality(page);
    SortedInFields(page, newestFirst);
  }

  /** The picks of the partitions outside todo. */
  ghost predicate PagedBut(byPart: map<Partition, seq<Record>>, head: map<Partition, nat>, todo: set<Partition>,
                           page: seq<Record>) {
    && NoDup(page) && IsHead(byPart, head)
    && forall r :: r in page <==> r in Picked(byPart, head) && r.part !in todo
  }

  lemma NonePaged(byPart: map<Partition, seq<Record>>, head: map<Partition, nat>)
    requires IsHead(byPart, head) && forall r :: r in Picked(byPart, head) ==> r.part in byPart
    ensures PagedBut(byPart, head, byPart.Keys, [])
  {
    hide Picked;
  }

  lemma PageStep(m: set<Record>, byPart: map<Partition, seq<Record>>, head: map<Partition, nat>, todo: set<Partition>,
                 page: seq<Record>, p: Partition, newestFirst: bool)
    requires Grouped(m, byPart, newestFirst) && PagedBut(byPart, head, todo, page) && p in todo && p in head
    ensures head[p] <= |byPart[p]|
    ensures PagedBut(byPart, head, todo - {p}, page + byPart[p][..head[p]])
  {
    hide Picked, Grouped, NoDup;
    PickedOf(m, byPart, head, p, newestFirst);
    NoDupConcat(page, byPart[p][..head[p]]);
  }

  lemma AllPaged(m: set<Record>, byPart: map<Partition, seq<Record>>, head: map<Partition, nat>, page: seq<Record>)
    requires PagedBut(byPart, head, {}, page) && IsLog(m) && Picked(byPart, head) <= m
    ensures NoDup(page) && ToSet(page) == Picked(byPart, head) && IsLog(ToSet(page))
  {
    hide Picked;
  }

  lemma PickedOf(m: set<Record>, byPart: map<Partition, seq<Record>>, head: map<Partition, nat>, p: Partition,
                 newestFirst: bool)
    requires Grouped(m, byPart, newestFirst) && IsHead(byPart, head) && p in head
    ensures forall r :: r in byPart[p][..head[p]] <==> r in Picked(byPart, head) && r.part == p
    ensures NoDup(byPart[p][..head[p]])
  {
    forall r | r in Picked(byPart, head) && r.part == p ensures r in byPart[p][..head[p]] {
      var q, i :| q in head && 0 <= i < head[q] && byPart[q][i] == r;
      assert byPart[q][i] in byPart[q];
    }
    forall r | r in byPart[p][..head[p]] ensures r in Picked(byPart, head) && r.part == p {
      var i :| 0 <= i < head[p] && byPart[p][i] == r;
      assert byPart[p][i] in byPart[p];
    }
    forall i, j | 0 <= i < j < head[p] ensures byPart[p][i] != byPart[p][j] {
      assert Ahead(byPart[p][i], byPart[p][j], newestFirst);
    }
  }
}
