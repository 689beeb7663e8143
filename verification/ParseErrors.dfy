/** The records a search could not evaluate: which of them it keeps and lists
    (parseError and page of internal/kafka/search.go). */
module ParseErrors {
  import opened Sets
  import opened Records
  import opened Sorting
  import opened SearchState

  /** kept holds the parse errors of a partition, beyond the cap only the highest
      (newest-first) or the lowest offsets. */
  ghost predicate IsDetail(all: seq<int>, kept: seq<int>, newestFirst: bool) {
    && NoDup(kept) && |kept| == Min(ERROR_OFFSETS_CAP, |all|)
    && (forall o :: o in kept ==> o in all)
    && (forall k, o :: k in kept && o in all && o !in kept ==> if newestFirst then o < k else k < o)
  }

  ghost predicate AreDetails(errored: map<Partition, seq<int>>, details: map<Partition, seq<int>>, newestFirst: bool) {
    forall p: Partition :: IsDetail(OffsetsIn(errored, p), OffsetsIn(details, p), newestFirst)
  }

  lemma NoDetails(newestFirst: bool)
    ensures AreDetails(map[], map[], newestFirst)
  {
  }

  /** Which index of a full list holds its lowest offset. */
  method LowestAt(s: seq<int>) returns (lowest: nat)
    requires s != []
    ensures lowest < |s| && forall o :: o in s ==> s[lowest] <= o
  {
    lowest := 0;
    for i := 0 to |s|
      invariant lowest < |s| && forall j :: 0 <= j < i ==> s[lowest] <= s[j]
    {
      if s[i] < s[lowest] {
        lowest := i;
      }
    }
  }

  /** Keeps one more parse error; oldest-first it lies behind all before it. */
  method KeepError(ghost errored: map<Partition, seq<int>>, details: map<Partition, seq<int>>, p: Partition, off: int,
                   newestFirst: bool)
    returns (more: map<Partition, seq<int>>)
    requires AreDetails(errored, details, newestFirst) && NoDup(OffsetsIn(errored, p)) && off !in OffsetsIn(errored, p)
    requires !newestFirst ==> forall o :: o in OffsetsIn(errored, p) ==> o < off
    ensures AreDetails(errored[p := OffsetsIn(errored, p) + [off]], more, newestFirst)
  {
    hide IsDetail;
    var ds := OffsetsIn(details, p);
    ghost var all := OffsetsIn(errored, p);
    more := details;
    if |ds| < ERROR_OFFSETS_CAP {
      KeepsAll(all, ds, off, newestFirst);
      more := details[p := ds + [off]];
    } else if newestFirst {
      HasDetails(all, ds, newestFirst);
      var lowest := LowestAt(ds);
      KeepsHighest(all, ds, off, lowest);
      if ds[lowest] < off {
        more := details[p := ds[lowest := off]];
      }
    } else {
      KeepsLowest(all, ds, off);
    }
    OneDetail(errored, details, more, p, off, newestFirst);
  }

  lemma OneDetail(errored: map<Partition, seq<int>>, details: map<Partition, seq<int>>, more: map<Partition, seq<int>>,
                  p: Partition, off: int, newestFirst: bool)
    requires AreDetails(errored, details, newestFirst) && (more == details || more == details[p := OffsetsIn(more, p)])
    requires IsDetail(OffsetsIn(errored, p) + [off], OffsetsIn(more, p), newestFirst)
    ensures AreDetails(errored[p := OffsetsIn(errored, p) + [off]], more, newestFirst)
  {
    hide IsDetail;
    forall q: Partition ensures IsDetail(OffsetsIn(errored[p := OffsetsIn(errored, p) + [off]], q), OffsetsIn(more, q),
                                         newestFirst) {
      assert IsDetail(OffsetsIn(errored, q), OffsetsIn(details, q), newestFirst);
    }
  }

  lemma HasDetails(all: seq<int>, ds: seq<int>, newestFirst: bool)
    requires IsDetail(all, ds, newestFirst) && |ds| >= ERROR_OFFSETS_CAP
    ensures ds != []
  {
  }

  lemma KeepsAll(all: seq<int>, ds: seq<int>, off: int, newestFirst: bool)
    requires IsDetail(all, ds, newestFirst) && NoDup(all) && off !in all && |ds| < ERROR_OFFSETS_CAP
    ensures IsDetail(all + [off], ds + [off], newestFirst)
  {
    SameOffsets(all, ds);
    assert forall o :: o in all + [off] <==> o in all || o == off;
    assert forall o :: o in ds + [off] <==> o in ds || o == off;
  }

  /** As many distinct offsets of a list as it has are all of them. */
  lemma SameOffsets(all: seq<int>, some: seq<int>)
    requires NoDup(all) && NoDup(some) && |some| == |all| && forall o :: o in some ==> o in all
    ensures forall o :: o in all ==> o in some
  {
    NoDupCardinality(all);
    NoDupCardinality(some);
    SubsetSize(ToSet(some), ToSet(all));
    assert ToSet(some) == ToSet(all);
    forall o | o in all ensures o in some {
      assert o in ToSet(all);
    }
  }

  lemma KeepsHighest(all: seq<int>, ds: seq<int>, off: int, lowest: nat)
    requires IsDetail(all, ds, true) && NoDup(all) && off !in all && |ds| >= ERROR_OFFSETS_CAP
    requires lowest < |ds| && forall o :: o in ds ==> ds[lowest] <= o
    ensures ds[lowest] < off ==> IsDetail(all + [off], ds[lowest := off], true)
    ensures ds[lowest] >= off ==> IsDetail(all + [off], ds, true)
  {
    var more := ds[lowest := off];
    assert forall o :: o in all + [off] <==> o in all || o == off;
    assert ds[lowest] in ds;
    forall o ensures o in more <==> o == off || (o in ds && o != ds[lowest]) {
      if o in ds && o != ds[lowest] {
        var i :| 0 <= i < |ds| && ds[i] == o;
        assert more[i] == o;
      }
      assert more[lowest] == off;
    }
  }

  lemma KeepsLowest(all: seq<int>, ds: seq<int>, off: int)
    requires IsDetail(all, ds, false) && |ds| >= ERROR_OFFSETS_CAP && forall o :: o in all ==> o < off
    ensures IsDetail(all + [off], ds, false)
  {
    assert forall o :: o in all + [off] <==> o in all || o == off;
  }

  /** An error not seen before; oldest-first it lies behind all before it. */
  lemma NewError(matcher: Matcher, seen: set<Record>, errored: map<Partition, seq<int>>, rec: Record, newestFirst: bool)
    requires AreOffsets(Errors(matcher, seen), errored) && rec !in seen && IsLog(seen + {rec})
    requires !newestFirst ==> forall r :: r in seen && r.part == rec.part ==> r.off < rec.off
    ensures NoDup(OffsetsIn(errored, rec.part)) && rec.off !in OffsetsIn(errored, rec.part)
    ensures !newestFirst ==> forall o :: o in OffsetsIn(errored, rec.part) ==> o < rec.off
  {
    forall o | o in OffsetsIn(errored, rec.part) ensures o != rec.off && (!newestFirst ==> o < rec.off) {
      assert (rec.part, o) in Spots(Errors(matcher, seen));
      var r :| r in Errors(matcher, seen) && (r.part, r.off) == (rec.part, o);
      assert r in seen + {rec} && rec in seen + {rec};
    }
  }

  // --- the listed errors ---

  /** The offsets of s behind the cursor of p. */
  ghost function BehindOf(s: seq<int>, newestFirst: bool, next: map<Partition, int>, p: Partition): set<int> {
    set o | o in s && IsBehind(newestFirst, next, p, o)
  }

  /** Behind the cursor the kept errors are all there are, or as many as the cap. */
  lemma KeptBehind(all: seq<int>, kept: seq<int>, newestFirst: bool, next: map<Partition, int>, p: Partition)
    requires IsDetail(all, kept, newestFirst) && NoDup(all)
    ensures BehindOf(kept, newestFirst, next, p) <= BehindOf(all, newestFirst, next, p)
    ensures |BehindOf(kept, newestFirst, next, p)| >= Min(ERROR_OFFSETS_CAP, |BehindOf(all, newestFirst, next, p)|)
    ensures |BehindOf(kept, newestFirst, next, p)| <= |BehindOf(all, newestFirst, next, p)|
  {
    var k, a := BehindOf(kept, newestFirst, next, p), BehindOf(all, newestFirst, next, p);
    assert k <= a;
    SubsetSize(k, a);
    if |all| <= ERROR_OFFSETS_CAP {
      SameOffsets(all, kept);
      assert k == a;
    } else if forall o :: o in kept ==> IsBehind(newestFirst, next, p, o) {
      assert k == ToSet(kept);
      NoDupCardinality(kept);
    } else {
      assert k == a;
    }
  }

  /** All errors of some partitions behind the cursors. */
  ghost function SpotsBehind(errored: map<Partition, seq<int>>, parts: set<Partition>, newestFirst: bool,
                             next: map<Partition, int>): set<(Partition, int)> {
    set p, o | p in parts && p in errored && o in errored[p] && IsBehind(newestFirst, next, p, o) :: (p, o)
  }

  /** What the list holds once the given partitions were gone through. */
  ghost predicate Lists(list: seq<(Partition, int)>, errored: map<Partition, seq<int>>, parts: set<Partition>,
                        newestFirst: bool, next: map<Partition, int>) {
    && AreAscending(list)
    && (forall s :: s in list ==> s in SpotsBehind(errored, parts, newestFirst, next))
    && |list| == Min(ERROR_OFFSETS_CAP, |SpotsBehind(errored, parts, newestFirst, next)|)
  }

  function Increasing(): Less<int> {
    (a: int, b: int) => a < b
  }

  /** Distinct numbers, sorted. */
  lemma SortedNumbers(s: seq<int>)
    requires NoDup(s)
    ensures var t := Sort(s, Increasing());
        |t| == |s| && (forall o :: o in t <==> o in s) && forall i, j :: 0 <= i < j < |t| ==> t[i] < t[j]
  {
    var t := Sort(s, Increasing());
    SameMultiset(s, t);
    SortSorts(s, Increasing());
    forall i, j | 0 <= i < j < |t| ensures t[i] < t[j] {
      SortedPairs(t, Increasing(), i, j);
    }
  }

  /** The keys of a map in ascending order. */
  method SortedKeys(keys: set<Partition>) returns (parts: seq<Partition>)
    ensures forall p :: p in parts <==> p in keys
    ensures forall i, j :: 0 <= i < j < |parts| ==> parts[i] < parts[j]
  {
    parts := [];
    var todo := keys;
    while todo != {}
      invariant todo <= keys && forall p :: p in parts <==> p in keys && p !in todo
      invariant forall i, j :: 0 <= i < j < |parts| ==> parts[i] < parts[j]
      invariant forall p, q :: p in parts && q in todo ==> p < q
      decreases |todo|
    {
      var p := Least(todo);
      assert forall i :: 0 <= i < |parts| ==> parts[i] in parts;
      todo := todo - {p};
      parts := parts + [p];
    }
  }

  method Least(s: set<Partition>) returns (p: Partition)
    requires s != {}
    ensures p in s && forall q :: q in s ==> p <= q
  {
    p :| p in s;
    var todo := s - {p};
    while todo != {}
      invariant todo <= s && p in s && forall q :: q in s && q !in todo ==> p <= q
    {
      var q :| q in todo;
      todo := todo - {q};
      if q < p {
        p := q;
      }
    }
  }

  /** Lists the parse errors behind the cursors, at most as many as the cap, by
      partition and offset. */
  method ListErrors(visited: map<Partition, seq<int>>, errored: map<Partition, seq<int>>,
                    details: map<Partition, seq<int>>,
                    newestFirst: bool, next: map<Partition, int>)
    returns (list: seq<(Partition, int)>)
    requires AreDetails(errored, details, newestFirst) && forall p :: p in errored && errored[p] != [] ==> p in visited
    requires forall p :: p in errored ==> NoDup(errored[p])
    ensures Lists(list, errored, errored.Keys, newestFirst, next)
  {
    hide IsDetail, SpotsBehind, AreAscending;
    var parts := SortedKeys(visited.Keys);
    list := [];
    NothingListed(errored, newestFirst, next);
    for n := 0 to |parts|
      invariant Lists(list, errored, ToSet(parts[..n]), newestFirst, next)
    {
      var p := parts[n];
      var ds := OffsetsIn(details, p);
      SortedDetails(OffsetsIn(errored, p), ds, newestFirst);
      list := ListOne(list, errored, ToSet(parts[..n]), newestFirst, next, p, ds, Sort(ds, Increasing()));
      assert parts[..n + 1] == parts[..n] + [p];
      assert ToSet(parts[..n + 1]) == ToSet(parts[..n]) + {p};
    }
    assert parts[..|parts|] == parts;
    assert ToSet(parts) == visited.Keys;
    MoreParts(errored, visited.Keys, newestFirst, next);
  }

  lemma NothingListed(errored: map<Partition, seq<int>>, newestFirst: bool, next: map<Partition, int>)
    ensures Lists([], errored, {}, newestFirst, next) && ToSet<Partition>([]) == {}
  {
    assert SpotsBehind(errored, {}, newestFirst, next) == {};
  }

  lemma MoreParts(errored: map<Partition, seq<int>>, parts: set<Partition>, newestFirst: bool,
                  next: map<Partition, int>)
    requires forall p :: p in errored && errored[p] != [] ==> p in parts
    ensures SpotsBehind(errored, parts, newestFirst, next) == SpotsBehind(errored, errored.Keys, newestFirst, next)
  {
  }

  lemma SortedDetails(all: seq<int>, ds: seq<int>, newestFirst: bool)
    requires IsDetail(all, ds, newestFirst)
    ensures IsSortOf(Sort(ds, Increasing()), ds)
  {
    SortedNumbers(ds);
  }

  ghost predicate IsSortOf(sorted: seq<int>, ds: seq<int>) {
    (forall o :: o in sorted <==> o in ds) && forall i, j :: 0 <= i < j < |sorted| ==> sorted[i] < sorted[j]
  }

  /** What of the first offsets was listed behind list0. */
  ghost predicate ListsMore(list0: seq<(Partition, int)>, list: seq<(Partition, int)>, p: Partition, first: seq<int>,
                            newestFirst: bool, next: map<Partition, int>)
  {
    && AreAscending(list)
    && (forall s :: s in list ==> s in list0 || (s.0 == p && s.1 in BehindOf(first, newestFirst, next, p)))
    && |list| == Min(ERROR_OFFSETS_CAP, |list0| + |BehindOf(first, newestFirst, next, p)|)
  }

  /** Goes through the details of one more partition. */
  method ListOne(list0: seq<(Partition, int)>, ghost errored: map<Partition, seq<int>>, ghost parts: set<Partition>,
                 newestFirst: bool, next: map<Partition, int>, p: Partition, ghost ds: seq<int>, sorted: seq<int>)
    returns (list: seq<(Partition, int)>)
    requires Lists(list0, errored, parts, newestFirst, next) && forall q :: q in parts ==> q < p
    requires IsDetail(OffsetsIn(errored, p), ds, newestFirst) && NoDup(OffsetsIn(errored, p)) && IsSortOf(sorted, ds)
    ensures Lists(list, errored, parts + {p}, newestFirst, next)
  {
    hide *;
    list := list0;
    NothingMore(list0, errored, parts, p, newestFirst, next);
    for i := 0 to |sorted|
      invariant ListsMore(list0, list, p, sorted[..i], newestFirst, next)
    {
      var off := sorted[i];
      assert sorted[..i + 1] == sorted[..i] + [off];
      OneMoreOffset(list0, list, errored, parts, p, sorted, i, ds, newestFirst, next);
      if IsBehind(newestFirst, next, p, off) && |list| < ERROR_OFFSETS_CAP {
        list := list + [(p, off)];
      }
    }
    assert sorted[..|sorted|] == sorted;
    ListedAll(list0, list, errored, parts, p, ds, sorted, newestFirst, next);
  }

  lemma NothingMore(list0: seq<(Partition, int)>, errored: map<Partition, seq<int>>, parts: set<Partition>,
                    p: Partition,
                    newestFirst: bool, next: map<Partition, int>)
    requires Lists(list0, errored, parts, newestFirst, next)
    ensures ListsMore(list0, list0, p, [], newestFirst, next)
  {
    hide SpotsBehind, AreAscending;
    assert BehindOf([], newestFirst, next, p) == {};
  }

  lemma OneMoreOffset(list0: seq<(Partition, int)>, list: seq<(Partition, int)>, errored: map<Partition, seq<int>>,
                      parts: set<Partition>,
                      p: Partition, sorted: seq<int>, i: nat, ds: seq<int>, newestFirst: bool,
                        next: map<Partition, int>)
    requires Lists(list0, errored, parts, newestFirst, next) && forall q :: q in parts ==> q < p
    requires IsSortOf(sorted, ds) && i < |sorted| && ListsMore(list0, list, p, sorted[..i], newestFirst, next)
    ensures
      var off := sorted[i];
      ListsMore(list0, if IsBehind(newestFirst, next, p, off) && |list| < ERROR_OFFSETS_CAP then list + [(p, off)]
        else list,
        p, sorted[..i] + [off], newestFirst, next)
  {
    hide *;
    var off := sorted[i];
    BehindMore(sorted, i, ds, newestFirst, next, p);
    forall s | s in list ensures IsBelow(s, (p, off)) {
      SortedUp(sorted, ds);
      ListedBelow(list0, list, errored, parts, p, sorted, i, newestFirst, next, s);
    }
    AddOffset(list0, list, p, sorted[..i], off, newestFirst, next);
  }

  lemma SortedUp(sorted: seq<int>, ds: seq<int>)
    requires IsSortOf(sorted, ds)
    ensures forall i, j :: 0 <= i < j < |sorted| ==> sorted[i] < sorted[j]
  {
  }

  lemma BehindMore(sorted: seq<int>, i: nat, ds: seq<int>, newestFirst: bool, next: map<Partition, int>, p: Partition)
    requires IsSortOf(sorted, ds) && i < |sorted|
    ensures
      var off := sorted[i];
      var before := BehindOf(sorted[..i], newestFirst, next, p);
      off !in before && BehindOf(sorted[..i] + [off], newestFirst, next, p) == if IsBehind(newestFirst, next, p, off)
        then before + {off} else before
  {
    hide IsBehind;
  }

  lemma AddOffset(list0: seq<(Partition, int)>, list: seq<(Partition, int)>, p: Partition, first: seq<int>, off: int,
                  newestFirst: bool, next: map<Partition, int>)
    requires ListsMore(list0, list, p, first, newestFirst, next) && forall s :: s in list ==> IsBelow(s, (p, off))
    requires off !in BehindOf(first, newestFirst, next, p)
    requires BehindOf(first + [off], newestFirst, next, p) ==
             if IsBehind(newestFirst, next, p, off) then BehindOf(first, newestFirst, next, p) + {off}
               else BehindOf(first, newestFirst, next, p)
    ensures ListsMore(list0, if IsBehind(newestFirst, next, p, off) && |list| < ERROR_OFFSETS_CAP
        then list + [(p, off)] else list,
              p, first + [off], newestFirst, next)
  {
    hide AreAscending, BehindOf, IsBehind, IsBelow;
    AscendsMore(list, (p, off));
    assert forall s :: s in list + [(p, off)] <==> s in list || s == (p, off);
  }

  lemma ListedBelow(list0: seq<(Partition, int)>, list: seq<(Partition, int)>, errored: map<Partition, seq<int>>,
                    parts: set<Partition>,
                    p: Partition, sorted: seq<int>, i: nat, newestFirst: bool, next: map<Partition, int>,
                      s: (Partition, int))
    requires Lists(list0, errored, parts, newestFirst, next) && forall q :: q in parts ==> q < p
    requires forall j, k :: 0 <= j < k < |sorted| ==> sorted[j] < sorted[k]
    requires i < |sorted| && ListsMore(list0, list, p, sorted[..i], newestFirst, next) && s in list
    ensures IsBelow(s, (p, sorted[i]))
  {
    hide AreAscending;
    if s in list0 {
      assert s in SpotsBehind(errored, parts, newestFirst, next);
    }
  }

  lemma AscendsMore(list: seq<(Partition, int)>, s: (Partition, int))
    requires AreAscending(list) && forall x :: x in list ==> IsBelow(x, s)
    ensures AreAscending(list + [s])
  {
    hide IsBelow;
    assert forall i :: 0 <= i < |list| ==> list[i] in list;
  }

  lemma ListedAll(list0: seq<(Partition, int)>, list: seq<(Partition, int)>, errored: map<Partition, seq<int>>,
                  parts: set<Partition>,
                  p: Partition, ds: seq<int>, sorted: seq<int>, newestFirst: bool, next: map<Partition, int>)
    requires Lists(list0, errored, parts, newestFirst, next) && forall q :: q in parts ==> q < p
    requires IsDetail(OffsetsIn(errored, p), ds, newestFirst) && NoDup(OffsetsIn(errored, p)) && IsSortOf(sorted, ds)
    requires ListsMore(list0, list, p, sorted, newestFirst, next)
    ensures Lists(list, errored, parts + {p}, newestFirst, next)
  {
    hide AreAscending, IsBehind, IsDetail;
    var all := OffsetsIn(errored, p);
    KeptBehind(all, ds, newestFirst, next, p);
    assert BehindOf(sorted, newestFirst, next, p) == BehindOf(ds, newestFirst, next, p);
    SpotsOfOneMore(errored, parts, p, newestFirst, next);
  }

  lemma SpotsOfOneMore(errored: map<Partition, seq<int>>, parts: set<Partition>, p: Partition, newestFirst: bool,
                       next: map<Partition, int>)
    requires p !in parts
    ensures |SpotsBehind(errored, parts + {p}, newestFirst, next)| ==
            |SpotsBehind(errored, parts, newestFirst, next)| + |BehindOf(OffsetsIn(errored, p), newestFirst, next, p)|
  {
    hide IsBehind;
    var own := BehindOf(OffsetsIn(errored, p), newestFirst, next, p);
    var spots := set o | o in own :: (p, o);
    assert SpotsBehind(errored, parts + {p}, newestFirst, next) ==
      SpotsBehind(errored, parts, newestFirst, next) + spots;
    SpotsOfOne(own, p);
  }

  lemma {:induction false} SpotsOfOne(own: set<int>, p: Partition)
    ensures |set o | o in own :: (p, o)| == |own|
  {
    if |own| == 0 {
      assert (set o | o in own :: (p, o)) == {};
    } else {
      var x := AnElement(own);
      SpotsOfOne(own - {x}, p);
      assert (set o | o in own :: (p, o)) == (set o | o in own - {x} :: (p, o)) + {(p, x)};
    }
  }

  /** The listed errors are errors behind the cursors, as many as the cap allows. */
  lemma ListIsOfErrors(errors: set<Record>, errored: map<Partition, seq<int>>, list: seq<(Partition, int)>,
                       newestFirst: bool, next: map<Partition, int>, behind: set<Record>)
    requires IsLog(errors) && AreOffsets(errors, errored) && Lists(list, errored, errored.Keys, newestFirst, next)
    requires behind == set r | r in errors && IsBehind(newestFirst, next, r.part, r.off)
    ensures IsErrorList(list, behind)
  {
    hide IsBehind, AreAscending;
    assert SpotsBehind(errored, errored.Keys, newestFirst, next) == Spots(behind);
    IsLogSubset(behind, errors);
    SpotsCount(behind);
  }

  lemma ErrorOffsets(errors: set<Record>, seen: set<Record>, errored: map<Partition, seq<int>>,
                     visited: map<Partition, seq<int>>)
    requires AreOffsets(errors, errored) && AreOffsets(seen, visited) && errors <= seen
    ensures forall p :: p in errored ==> NoDup(errored[p])
    ensures forall p :: p in errored && errored[p] != [] ==> p in visited
  {
    forall p | p in errored && errored[p] != [] ensures p in visited {
      var off := errored[p][0];
      assert off in errored[p];
      assert (p, off) in Spots(errors);
    }
  }
}
