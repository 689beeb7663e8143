/** The line diff of two texts: frontend/src/lib/text-diff.ts. */
module TextDiff {
  import opened Options
  import opened EditDistance
  import opened Frontier

  // --- exploring ---

  /** v holds the points of step d, diagonal k at index k + offset; there is no step -1. */
  ghost predicate HoldsStep(a: seq<Line>, b: seq<Line>, v: seq<int>, offset: int, d: int) {
    d >= 0 ==> forall k :: OnStep(d, k) ==> 0 <= k + offset < |v| && v[k + offset] == Furthest(a, b, d, k)
  }

  /** The frontier as step d finds it. */
  ghost predicate IsBefore(a: seq<Line>, b: seq<Line>, v: seq<int>, offset: int, d: int) {
    0 <= d < offset && |v| == 2 * offset + 1 && HoldsStep(a, b, v, offset, d - 1) && (d == 0 ==> v[1 + offset] == 0)
  }

  ghost predicate ReachesNot(a: seq<Line>, b: seq<Line>, d: nat) {
    forall k :: OnStep(d, k) ==> !Reaches(a, b, d, k)
  }

  /** One step of the greedy algorithm; it stops where both sides end. */
  method Step(a: seq<Line>, b: seq<Line>, v: array<int>, offset: int, d: int) returns (found: bool)
    requires IsBefore(a, b, v[..], offset, d)
    modifies v
    ensures found <==> !ReachesNot(a, b, d)
    ensures !found ==> HoldsStep(a, b, v[..], offset, d)
  {
    hide Furthest, Entry, Slide, HoldsStep;
    found := false;
    var k := -d;
    while k <= d
      invariant k <= d ==> OnStep(d, k)
      invariant k > d ==> k == d + 2 && HoldsStep(a, b, v[..], offset, d) && ReachesNot(a, b, d)
      invariant HoldsPart(a, b, v[..], offset, d, k)
      invariant d == 0 && k <= d ==> v[1 + offset] == 0
      invariant HoldsStep(a, b, v[..], offset, d - 1)
    {
      NeighboursHold(a, b, v[..], offset, d, k);
      var x;
      if k == -d || (k != d && v[k - 1 + offset] < v[k + 1 + offset]) {
        x := v[k + 1 + offset];
      } else {
        x := v[k - 1 + offset] + 1;
      }
      assert x == Entry(a, b, d, k);
      ghost var entry, before := x, v[..];
      var y := x - k;
      while x < |a| && y < |b| && a[x] == b[y]
        invariant x >= entry && y == x - k >= 0
        invariant Slide(a, b, x, k) == Slide(a, b, entry, k) && v[..] == before
        decreases |a| - x
      {
        SlideOn(a, b, x, k);
        x := x + 1;
        y := y + 1;
      }
      SlideOn(a, b, x, k);
      FurthestIsSlide(a, b, d, k);
      WritePoint(a, b, before, offset, d, k);
      v[k + offset] := x;
      assert v[..] == before[k + offset := x];
      if x >= |a| && y >= |b| {
        assert Reaches(a, b, d, k);
        return true;
      }
      k := k + 2;
    }
  }

  /** The diagonals before k hold step d, which reached no end there. */
  ghost predicate HoldsPart(a: seq<Line>, b: seq<Line>, v: seq<int>, offset: int, d: int, k: int)
    requires d >= 0
  {
    forall j ::
      OnStep(d, j) && j < k ==> 0 <= j + offset < |v| && v[j + offset] == Furthest(a, b, d, j) && !Reaches(a, b, d, j)
  }

  lemma SlideOn(a: seq<Line>, b: seq<Line>, x: nat, k: int)
    requires x >= k
    ensures Slide(a, b, x, k) == if x < |a| && x - k < |b| && a[x] == b[x - k] then Slide(a, b, x + 1, k) else x
  {
  }

  /** The entry of diagonal k from its neighbours. */
  lemma NeighboursHold(a: seq<Line>, b: seq<Line>, v: seq<int>, offset: int, d: int, k: int)
    requires 0 <= d < offset && |v| == 2 * offset + 1 && HoldsStep(a, b, v, offset, d - 1)
        && (d == 0 ==> v[1 + offset] == 0)
    requires OnStep(d, k)
    ensures 0 <= k - 1 + offset && k + 1 + offset < |v|
    ensures Entry(a, b, d, k) == if k == -d || (k != d && v[k - 1 + offset] < v[k + 1 + offset]) then v[k + 1 + offset]
        else v[k - 1 + offset] + 1
  {
    hide Furthest, Entry;
    EntryOfNeighbours(a, b, d, k);
  }

  /** Writing diagonal k of step d leaves the step before alone. */
  lemma WritePoint(a: seq<Line>, b: seq<Line>, v: seq<int>, offset: int, d: int, k: int)
    requires 0 <= d < offset && |v| == 2 * offset + 1 && OnStep(d, k)
    requires HoldsStep(a, b, v, offset, d - 1) && HoldsPart(a, b, v, offset, d, k)
    ensures var w := v[k + offset := Furthest(a, b, d, k)];
      && HoldsStep(a, b, w, offset, d - 1)
      && (!Reaches(a, b, d, k) ==> HoldsPart(a, b, w, offset, d, k + 2))
      && (!Reaches(a, b, d, k) && k + 2 > d ==> HoldsStep(a, b, w, offset, d) && ReachesNot(a, b, d))
  {
    hide Furthest, Reaches;
    var w := v[k + offset := Furthest(a, b, d, k)];
    forall j | OnStep(d, j) && j < k + 2 ensures j <= k && j + offset >= 0 {
    }
    var before := d - 1;
    forall j | OnStep(before, j) ensures j != k && 0 <= j + offset < |w| && w[j + offset] == v[j + offset] {
    }
  }

  lemma EntryOfNeighbours(a: seq<Line>, b: seq<Line>, d: int, k: int)
    requires d >= 0 && OnStep(d, k)
    ensures d == 0 ==> Entry(a, b, d, k) == 0
    ensures d > 0 && k + d > 0 ==> OnStep(d - 1, k - 1)
    ensures d > 0 && k < d ==> OnStep(d - 1, k + 1)
    ensures d > 0 && k + d == 0 ==> Entry(a, b, d, k) == Furthest(a, b, d - 1, k + 1)
    ensures d > 0 && k == d ==> Entry(a, b, d, k) == Furthest(a, b, d - 1, k - 1) + 1
    ensures d > 0 && k + d > 0 && k < d ==>
              Entry(a, b, d, k) == if Furthest(a, b, d - 1, k - 1) < Furthest(a, b, d - 1, k + 1)
                                   then Furthest(a, b, d - 1, k + 1) else Furthest(a, b, d - 1, k - 1) + 1
  {
    hide Furthest;
  }

  /** The frontier around step d, index k + d + 1 for diagonal k. */
  ghost predicate IsSnapshot(a: seq<Line>, b: seq<Line>, s: seq<int>, d: int) {
    |s| == 2 * d + 3 && HoldsStep(a, b, s, d + 1, d - 1)
  }

  /** Steps until both sides end, at most max; each step leaves a snapshot. */
  method Explore(a: seq<Line>, b: seq<Line>, max: int) returns (found: int, trace: seq<seq<int>>)
    requires max >= -1
    ensures found >= 0 <==> Dist(a, b, |a|, |b|) <= max
    ensures found >= 0 ==> found == Dist(a, b, |a|, |b|) && |trace| == found + 1
    ensures found >= 0 ==> forall d :: 0 <= d < |trace| ==> IsSnapshot(a, b, trace[d], d)
  {
    hide Furthest, Dist, Reaches;
    var offset := max + 1;
    var v := new int[2 * max + 3](_ => 0);
    trace, found := [], -1;
    var d := 0;
    while d <= max
      invariant 0 <= d <= max + 1 && |trace| == d
      invariant d <= max ==> IsBefore(a, b, v[..], offset, d)
      invariant forall e :: 0 <= e < d ==> IsSnapshot(a, b, trace[e], e) && ReachesNot(a, b, e)
    {
      var snap := v[offset - d - 1..offset + d + 2];
      SnapshotOf(a, b, v[..], offset, d);
      trace := trace + [snap];
      var reached := Step(a, b, v, offset, d);
      if reached {
        found := d;
        FoundIsDist(a, b, d);
        return;
      }
      d := d + 1;
    }
    NotFoundIsFar(a, b, max);
  }

  lemma SnapshotOf(a: seq<Line>, b: seq<Line>, v: seq<int>, offset: int, d: int)
    requires IsBefore(a, b, v, offset, d)
    ensures 0 <= offset - d - 1 && offset + d + 2 <= |v|
    ensures IsSnapshot(a, b, v[offset - d - 1..offset + d + 2], d)
  {
    hide Furthest;
  }

  lemma FoundIsDist(a: seq<Line>, b: seq<Line>, d: nat)
    requires !ReachesNot(a, b, d) && forall e: nat :: e < d ==> ReachesNot(a, b, e)
    ensures d == Dist(a, b, |a|, |b|)
  {
    hide Reaches, Dist;
    var k :| OnStep(d, k) && Reaches(a, b, d, k);
    FirstReachIsDist(a, b, d, k);
    SomeReach(a, b);
    assert Dist(a, b, |a|, |b|) >= d;
  }

  lemma NotFoundIsFar(a: seq<Line>, b: seq<Line>, max: int)
    requires forall e: nat :: e <= max ==> ReachesNot(a, b, e)
    ensures Dist(a, b, |a|, |b|) > max
  {
    hide Reaches, Dist, ReachesNot;
    if Dist(a, b, |a|, |b|) <= max {
      assert ReachesNot(a, b, Dist(a, b, |a|, |b|));
      SomeReach(a, b);
    }
  }

  lemma SomeReach(a: seq<Line>, b: seq<Line>)
    ensures !ReachesNot(a, b, Dist(a, b, |a|, |b|))
  {
    hide Reaches, Dist;
    DistReaches(a, b);
  }

  // --- backtracking ---

  function Reversed<T>(s: seq<T>): (r: seq<T>)
    ensures |r| == |s|
  {
    if s == [] then [] else [s[|s| - 1]] + Reversed(s[..|s| - 1])
  }

  lemma ReversedPush<T>(s: seq<T>, x: T)
    ensures Reversed(s + [x]) == [x] + Reversed(s)
  {
    assert (s + [x])[..|s|] == s;
  }

  /** A slide runs along equal lines. */
  lemma {:induction false} SlideIsEqual(a: seq<Line>, b: seq<Line>, x: nat, k: int, t: int)
    requires k <= x <= t < Slide(a, b, x, k)
    ensures t < |a| && t - k < |b| && a[t] == b[t - k]
    decreases |a| - x
  {
    if x < t {
      SlideIsEqual(a, b, x + 1, k, t);
    }
  }

  /** ops, read backwards, explains what follows (x, y). */
  ghost predicate Explained(a: seq<Line>, b: seq<Line>, ops: seq<DiffOp>, x: int, y: int) {
    0 <= x <= |a| && 0 <= y <= |b| && Explains(a, b, Reversed(ops), x, y, |a|, |b|)
  }

  lemma PushOp(a: seq<Line>, b: seq<Line>, ops: seq<DiffOp>, op: DiffOp, x: int, y: int)
    requires Explained(a, b, ops, x, y)
    requires match op
             case Equal(line, i, j) => x == i > 0 && y == j > 0 && line == a[x - 1] == b[y - 1]
             case Delete(line, i) => x == i > 0 && line == a[x - 1]
             case Insert(line, j) => y == j > 0 && line == b[y - 1]
    ensures Explained(a, b, ops + [op], if op.Insert? then x else x - 1, if op.Delete? then y else y - 1)
    ensures Cost(Reversed(ops + [op])) == Cost(Reversed(ops)) + if op.Equal? then 0 else 1
  {
    ReversedPush(ops, op);
    assert ([op] + Reversed(ops))[1..] == Reversed(ops);
  }

  /** Line t of a and line t - k of b are there and equal. */
  predicate Matches(a: seq<Line>, b: seq<Line>, t: int, k: int) {
    0 < t <= |a| && 0 < t - k <= |b| && a[t - 1] == b[t - k - 1]
  }

  lemma PushEqual(a: seq<Line>, b: seq<Line>, ops: seq<DiffOp>, x: int, y: int)
    requires Explained(a, b, ops, x, y) && Matches(a, b, x, x - y)
    ensures 0 < x <= |a| && 0 < y <= |b|
    ensures Explained(a, b, ops + [Equal(a[x - 1], x, y)], x - 1, y - 1)
    ensures Cost(Reversed(ops + [Equal(a[x - 1], x, y)])) == Cost(Reversed(ops))
  {
    PushOp(a, b, ops, Equal(a[x - 1], x, y), x, y);
  }

  /** No insertion is directly followed by a deletion: a changed line shows its old form first. */
  ghost predicate DeletesFirst(ops: seq<DiffOp>) {
    forall i :: 0 < i < |ops| && ops[i - 1].Insert? ==> !ops[i].Delete?
  }

  /** The same of a script read backwards. */
  ghost predicate InsertsFirst(ops: seq<DiffOp>) {
    forall i :: 0 < i < |ops| && ops[i - 1].Delete? ==> !ops[i].Insert?
  }

  lemma PushInTurn(ops: seq<DiffOp>, op: DiffOp)
    requires InsertsFirst(ops) && (op.Insert? && ops != [] ==> !ops[|ops| - 1].Delete?)
    ensures InsertsFirst(ops + [op]) && (ops + [op])[|ops + [op]| - 1] == op
  {
  }

  lemma {:induction false} ReversedAt<T>(s: seq<T>, i: nat)
    requires i < |s|
    ensures Reversed(s)[i] == s[|s| - 1 - i]
  {
    if i > 0 {
      ReversedAt(s[..|s| - 1], i - 1);
    }
  }

  lemma InTurnReversed(ops: seq<DiffOp>)
    requires InsertsFirst(ops)
    ensures DeletesFirst(Reversed(ops))
  {
    forall i | 0 < i < |ops| && Reversed(ops)[i - 1].Insert? ensures !Reversed(ops)[i].Delete? {
      ReversedAt(ops, i - 1);
      ReversedAt(ops, i);
    }
  }

  /** On step d + 1 the diagonal above k was entered from k, by a deletion. */
  ghost predicate LeavesByDelete(a: seq<Line>, b: seq<Line>, d: int, k: int) {
    d >= 0 && OnStep(d, k) && (OnStep(d, k + 2) ==> Furthest(a, b, d, k + 2) <= Furthest(a, b, d, k))
  }

  lemma CameByDelete(a: seq<Line>, b: seq<Line>, snap: seq<int>, d: int, k: int)
    requires d > 0 && OnStep(d, k) && IsSnapshot(a, b, snap, d) && |snap| == 2 * d + 3 && CameFrom(snap, d, k) == k - 1
    ensures LeavesByDelete(a, b, d - 1, k - 1)
  {
    hide Furthest;
  }

  /** An insertion that a deletion follows at once would have been a deletion: the
      diagonal above was further already. */
  lemma TurnsBack(a: seq<Line>, b: seq<Line>, snap: seq<int>, d: int, k: int)
    requires d > 0 && OnStep(d, k) && IsSnapshot(a, b, snap, d) && |snap| == 2 * d + 3 && CameFrom(snap, d, k) == k + 1
    requires LeavesByDelete(a, b, d, k)
    ensures Furthest(a, b, d, k) > snap[k + 1 + d + 1]
  {
    hide Furthest;
    assert OnStep(d - 1, k + 1) && snap[k + 1 + d + 1] == Furthest(a, b, d - 1, k + 1);
    StepGetsFurther(a, b, d, k + 2);
  }

  /** Walks back from the end through the snapshots, one edit per step. */
  method Backtrack(a: seq<Line>, b: seq<Line>, found: nat, trace: seq<seq<int>>) returns (script: seq<DiffOp>)
    requires found == Dist(a, b, |a|, |b|) && |trace| == found + 1
    requires forall d :: 0 <= d < |trace| ==> IsSnapshot(a, b, trace[d], d)
    ensures Explains(a, b, script, 0, 0, |a|, |b|) && Cost(script) == found
    ensures DeletesFirst(script)
  {
    hide *;
    var ops: seq<DiffOp> := [];
    var x, y := |a|, |b|;
    var d := found;
    StartsAtEnd(a, b);
    NothingPushed();
    while d > 0
      invariant 0 <= d <= found && |trace| == found + 1 && Explained(a, b, ops, x, y) && IsPoint(a, b, d, x, y)
      invariant Cost(Reversed(ops)) + d == found
      invariant InsertsFirst(ops) && (ops != [] && ops[|ops| - 1].Delete? ==> LeavesByDelete(a, b, d, x - y))
    {
      var snap := trace[d];
      var k := x - y;
      PointFacts(a, b, d, x, y);
      StepBack(a, b, snap, d, x, y);
      var prevK := CameFrom(snap, d, k);
      var prevX := snap[prevK + d + 1];
      var prevY := prevX - prevK;
      ghost var x0, afterDelete := x, ops != [] && ops[|ops| - 1].Delete?;
      if prevK == k + 1 && afterDelete {
        TurnsBack(a, b, snap, d, k);
      } else if prevK == k - 1 {
        CameByDelete(a, b, snap, d, k);
      }
      while x > prevX && y > prevY
        invariant x - y == k && prevX <= x && prevY <= y && Explained(a, b, ops, x, y)
        invariant forall t :: prevX < t <= x && prevY < t - k ==> Matches(a, b, t, k)
        invariant Cost(Reversed(ops)) + d == found
        invariant InsertsFirst(ops) && (ops != [] && ops[|ops| - 1].Delete? ==> x == x0 && afterDelete)
      {
        PushEqual(a, b, ops, x, y);
        PushInTurn(ops, Equal(a[x - 1], x, y));
        ops := ops + [Equal(a[x - 1], x, y)];
        x, y := x - 1, y - 1;
      }
      ExplainedBounds(a, b, ops, x, y);
      if x == prevX {
        PushOp(a, b, ops, Insert(b[y - 1], y), x, y);
        PushInTurn(ops, Insert(b[y - 1], y));
        ops := ops + [Insert(b[y - 1], y)];
      } else {
        PushOp(a, b, ops, Delete(a[x - 1], x), x, y);
        PushInTurn(ops, Delete(a[x - 1], x));
        ops := ops + [Delete(a[x - 1], x)];
      }
      x, y := prevX, prevY;
      d := d - 1;
    }
    FirstPoint(a, b, x, y);
    while x > 0 && y > 0
      invariant x == y >= 0 && Explained(a, b, ops, x, y)
      invariant forall t :: 0 < t <= x ==> Matches(a, b, t, 0)
      invariant Cost(Reversed(ops)) == found && InsertsFirst(ops)
    {
      PushEqual(a, b, ops, x, y);
      PushInTurn(ops, Equal(a[x - 1], x, y));
      ops := ops + [Equal(a[x - 1], x, y)];
      x, y := x - 1, y - 1;
    }
    script := Reversed(ops);
    ExplainedFromStart(a, b, ops);
    InTurnReversed(ops);
  }

  lemma NothingPushed()
    ensures InsertsFirst([]) && DeletesFirst([])
  {
  }

  /** (x, y) is where step d stops on its diagonal. */
  ghost predicate IsPoint(a: seq<Line>, b: seq<Line>, d: int, x: int, y: int) {
    d >= 0 && OnStep(d, x - y) && x == Furthest(a, b, d, x - y)
  }

  lemma PointFacts(a: seq<Line>, b: seq<Line>, d: int, x: int, y: int)
    requires IsPoint(a, b, d, x, y)
    ensures OnStep(d, x - y) && -d <= x - y <= d && d >= 0 && x == Furthest(a, b, d, x - y)
  {
    hide Furthest;
  }

  lemma StartsAtEnd(a: seq<Line>, b: seq<Line>)
    ensures Explained(a, b, [], |a|, |b|) && Cost(Reversed<DiffOp>([])) == 0
    ensures IsPoint(a, b, Dist(a, b, |a|, |b|), |a|, |b|)
  {
    hide Furthest, Dist;
    DistReaches(a, b);
    FirstReachIsDist(a, b, Dist(a, b, |a|, |b|), |a| - |b|);
  }

  /** The diagonal step d came from, as the snapshot tells it. */
  function CameFrom(snap: seq<int>, d: int, k: int): (prevK: int)
    requires d > 0 && -d <= k <= d && |snap| == 2 * d + 3
    ensures -d <= prevK <= d && (prevK == k + 1 || prevK == k - 1)
  {
    if k == -d || (k != d && snap[k + d] < snap[k + d + 2]) then k + 1 else k - 1
  }

  lemma StepBack(a: seq<Line>, b: seq<Line>, snap: seq<int>, d: int, x: int, y: int)
    requires d > 0 && IsPoint(a, b, d, x, y) && IsSnapshot(a, b, snap, d)
    ensures |snap| == 2 * d + 3
    ensures
      var k := x - y;
      var prevK := CameFrom(snap, d, k);
      var prevX := snap[prevK + d + 1];
      var prevY := prevX - prevK;
      && 0 <= prevX <= x && 0 <= prevY <= y && x + y > prevX + prevY
      && IsPoint(a, b, d - 1, prevX, prevY)
      && forall t :: prevX < t <= x && prevY < t - k ==> Matches(a, b, t, k)
  {
    hide Furthest, Entry, Slide;
    var k := x - y;
    EntryOfNeighbours(a, b, d, k);
    FurthestIsSlide(a, b, d, k);
    var prevK := CameFrom(snap, d, k);
    var prevX := snap[prevK + d + 1];
    assert OnStep(d - 1, prevK);
    assert prevX == Furthest(a, b, d - 1, prevK);
    var entry := Entry(a, b, d, k);
    assert entry == if prevK == k + 1 then prevX else prevX + 1;
    assert x >= entry >= k;
    forall t | entry < t <= x ensures Matches(a, b, t, k) {
      SlideIsEqual(a, b, entry, k, t - 1);
    }
  }

  lemma FirstPoint(a: seq<Line>, b: seq<Line>, x: int, y: int)
    requires IsPoint(a, b, 0, x, y)
    ensures x == y >= 0 && forall t :: 0 < t <= x ==> Matches(a, b, t, 0)
  {
    hide Furthest, Slide;
    FurthestIsSlide(a, b, 0, 0);
    forall t | 0 < t <= x ensures Matches(a, b, t, 0) {
      SlideIsEqual(a, b, 0, 0, t - 1);
    }
  }

  lemma ExplainedBounds(a: seq<Line>, b: seq<Line>, ops: seq<DiffOp>, x: int, y: int)
    requires Explained(a, b, ops, x, y)
    ensures 0 <= x <= |a| && 0 <= y <= |b|
  {
  }

  lemma ExplainedFromStart(a: seq<Line>, b: seq<Line>, ops: seq<DiffOp>)
    requires Explained(a, b, ops, 0, 0)
    ensures Explains(a, b, Reversed(ops), 0, 0, |a|, |b|)
  {
  }

  /** The script of a shortest edit, None when it has more than maxEdits edits. */
  method Myers(a: seq<Line>, b: seq<Line>, maxEdits: nat) returns (ops: Option<seq<DiffOp>>)
    ensures ops == None <==> Dist(a, b, |a|, |b|) > maxEdits
    ensures ops.Some? ==> Explains(a, b, ops.value, 0, 0, |a|, |b|) && Cost(ops.value) == Dist(a, b, |a|, |b|)
    ensures ops.Some? ==> DeletesFirst(ops.value)
  {
    var n, m := |a|, |b|;
    DistAtLeast(a, b, n, m);
    if n == 0 && m == 0 {
      return Some([]);
    }
    hide Dist, Explains, Cost;
    var max := if n + m < maxEdits then n + m else maxEdits;
    var found, trace := Explore(a, b, max);
    if found < 0 {
      return None;
    }
    var script := Backtrack(a, b, found, trace);
    ops := Some(script);
  }

  // --- whole texts ---

  /** text.split("\n") */
  function SplitLines(text: string): (lines: seq<Line>)
    ensures lines != []
  {
    if text == "" then [""]
    else
      var rest := SplitLines(text[1..]);
      if text[0] == '\n' then [""] + rest else [[text[0]] + rest[0]] + rest[1..]
  }

  function JoinLines(lines: seq<Line>): string
    requires lines != []
  {
    if |lines| == 1 then lines[0] else lines[0] + "\n" + JoinLines(lines[1..])
  }

  lemma {:induction false} JoinSplit(text: string)
    ensures JoinLines(SplitLines(text)) == text
  {
    if text != "" {
      JoinSplit(text[1..]);
      var rest := SplitLines(text[1..]);
      assert text == [text[0]] + text[1..];
      if text[0] == '\n' {
        assert ([""] + rest)[1..] == rest;
      } else {
        assert ([[text[0]] + rest[0]] + rest[1..])[1..] == rest[1..];
      }
    }
  }

  /** No line holds a line break, and every line break of the text ends one. */
  lemma {:induction false} SplitsAtBreaks(text: string)
    ensures forall l :: l in SplitLines(text) ==> '\n' !in l
    ensures |SplitLines(text)| == multiset(text)['\n'] + 1
  {
    if text != "" {
      SplitsAtBreaks(text[1..]);
      var rest := SplitLines(text[1..]);
      assert text == [text[0]] + text[1..];
      assert rest[0] in rest;
      assert forall l :: l in rest[1..] ==> l in rest;
    }
  }

  /** The unchanged lines a[x..n], b[y..y + n - x]. */
  function Unchanged(a: seq<Line>, x: nat, y: nat, n: nat): seq<DiffOp>
    requires x <= n <= |a|
    decreases n - x
  {
    if x == n then [] else [Equal(a[x], x + 1, y + 1)] + Unchanged(a, x + 1, y + 1, n)
  }

  lemma {:induction false} UnchangedExplains(a: seq<Line>, b: seq<Line>, x: nat, y: nat, n: nat, m: nat)
    requires x <= n <= |a| && y <= m <= |b| && a[x..n] == b[y..m]
    ensures Explains(a, b, Unchanged(a, x, y, n), x, y, n, m) && Cost(Unchanged(a, x, y, n)) == 0
    decreases n - x
  {
    assert n - x == |a[x..n]| == |b[y..m]| == m - y;
    if x < n {
      assert a[x] == a[x..n][0] && b[y] == b[y..m][0];
      assert a[x + 1..n] == a[x..n][1..] && b[y + 1..m] == b[y..m][1..];
      UnchangedExplains(a, b, x + 1, y + 1, n, m);
    }
  }

  lemma {:induction false} UnchangedSnoc(a: seq<Line>, x: nat, y: nat, n: nat)
    requires x <= n < |a|
    ensures Unchanged(a, x, y, n + 1) == Unchanged(a, x, y, n) + [Equal(a[n], n + 1, y + n - x + 1)]
    decreases n - x
  {
    if x < n {
      UnchangedSnoc(a, x + 1, y + 1, n);
    }
  }

  /** A script of a slice, renumbered for the whole. */
  function ShiftOp(op: DiffOp, start: nat): DiffOp {
    match op
    case Equal(line, i, j) => Equal(line, i + start, j + start)
    case Delete(line, i) => Delete(line, i + start)
    case Insert(line, j) => Insert(line, j + start)
  }

  function Shifted(ops: seq<DiffOp>, start: nat): seq<DiffOp> {
    seq(|ops|, t requires 0 <= t < |ops| => ShiftOp(ops[t], start))
  }

  lemma {:induction false} ShiftedExplains(a: seq<Line>, b: seq<Line>, ops: seq<DiffOp>, start: nat, x: nat, y: nat,
                                           n: nat, m: nat)
    requires start + x <= n <= |a| && start + y <= m <= |b|
    requires Explains(a[start..n], b[start..m], ops, x, y, n - start, m - start)
    ensures Explains(a, b, Shifted(ops, start), start + x, start + y, n, m) && Cost(Shifted(ops, start)) == Cost(ops)
  {
    if ops != [] {
      assert Shifted(ops, start)[1..] == Shifted(ops[1..], start);
      match ops[0]
      case Equal(line, i, j) => ShiftedExplains(a, b, ops[1..], start, x + 1, y + 1, n, m);
      case Delete(line, i) => ShiftedExplains(a, b, ops[1..], start, x + 1, y, n, m);
      case Insert(line, j) => ShiftedExplains(a, b, ops[1..], start, x, y + 1, n, m);
    }
  }

  /** The length of the common prefix and, behind it, the start of the common suffix. */
  method Peel(a: seq<Line>, b: seq<Line>) returns (start: nat, endA: nat, endB: nat)
    ensures start <= endA <= |a| && start <= endB <= |b|
    ensures a[..start] == b[..start] && a[endA..] == b[endB..]
  {
    start := 0;
    while start < |a| && start < |b| && a[start] == b[start]
      invariant start <= |a| && start <= |b| && a[..start] == b[..start]
    {
      assert a[..start + 1] == a[..start] + [a[start]] && b[..start + 1] == b[..start] + [b[start]];
      start := start + 1;
    }
    endA, endB := |a|, |b|;
    while endA > start && endB > start && a[endA - 1] == b[endB - 1]
      invariant start <= endA <= |a| && start <= endB <= |b| && a[endA..] == b[endB..]
    {
      assert a[endA - 1..] == [a[endA - 1]] + a[endA..] && b[endB - 1..] == [b[endB - 1]] + b[endB..];
      endA, endB := endA - 1, endB - 1;
    }
  }

  lemma PeeledDist(a: seq<Line>, b: seq<Line>, start: nat, endA: nat, endB: nat)
    requires start <= endA <= |a| && start <= endB <= |b| && a[..start] == b[..start] && a[endA..] == b[endB..]
    ensures Dist(a[start..endA], b[start..endB], endA - start, endB - start) == Dist(a, b, |a|, |b|)
  {
    hide Dist;
    SuffixIsFree(a, b, endA, endB);
    PrefixIsFree(a, b, start, endA - start, endB - start);
    DistOfPrefixes(a[start..], b[start..], endA - start, endB - start, endA - start, endB - start);
    assert a[start..][..endA - start] == a[start..endA] && b[start..][..endB - start] == b[start..endB];
  }

  /** Diffs two texts line by line: a shortest script, or None when the texts
      differ in more than maxEdits deleted plus inserted lines. */
  method DiffLines(a: string, b: string, maxEdits: nat) returns (ops: Option<seq<DiffOp>>)
    ensures ops == None <==> Distance(a, b) > maxEdits
    ensures ops.Some? ==> IsDiff(a, b, ops.value) && Cost(ops.value) == Distance(a, b)
    // The lines are those between the line breaks.
    ensures ops.Some? ==> forall i :: 0 <= i < |ops.value| ==> '\n' !in ops.value[i].line
    ensures ops.Some? ==>
        |OldLines(ops.value)| == multiset(a)['\n'] + 1 && |NewLines(ops.value)| == multiset(b)['\n'] + 1
    ensures ops.Some? ==> JoinLines(OldLines(ops.value)) == a && JoinLines(NewLines(ops.value)) == b
    // A changed line shows its deletion first.
    ensures ops.Some? ==> forall i :: 0 < i < |ops.value| && ops.value[i - 1].Insert? ==> !ops.value[i].Delete?
  {
    hide *;
    DistanceIs(a, b);
    var al, bl := SplitLines(a), SplitLines(b);
    var start, endA, endB := Peel(al, bl);
    PeeledDist(al, bl, start, endA, endB);
    var middle := Myers(al[start..endA], bl[start..endB], maxEdits);
    if middle.None? {
      return None;
    }
    var out: seq<DiffOp> := [];
    var i := 0;
    NoneUnchanged(al, 0, 0);
    NoneUnchanged(al, endA, endB);
    while i < start
      invariant 0 <= i <= start && out == Unchanged(al, 0, 0, i)
    {
      UnchangedSnoc(al, 0, 0, i);
      out := out + [Equal(al[i], i + 1, i + 1)];
      i := i + 1;
    }
    out := out + Shifted(middle.value, start);
    ghost var before := out;
    i := endA;
    var j := endB;
    while i < |al|
      invariant endA <= i <= |al| && j == endB + i - endA && out == before + Unchanged(al, endA, endB, i)
    {
      UnchangedSnoc(al, endA, endB, i);
      out := out + [Equal(al[i], i + 1, j + 1)];
      i, j := i + 1, j + 1;
    }
    Assembled(al, bl, start, endA, endB, middle.value);
    assert out == Unchanged(al, 0, 0, start) + Shifted(middle.value, start) + Unchanged(al, endA, endB, |al|);
    ShownInTurn(al, start, endA, endB, middle.value);
    DiffIsOfLines(a, b, out);
    DeletesFirstIs(out);
    ops := Some(out);
  }

  lemma DistanceIs(a: string, b: string)
    ensures Distance(a, b) == Dist(SplitLines(a), SplitLines(b), |SplitLines(a)|, |SplitLines(b)|)
    ensures forall ops ::
              IsDiff(a, b, ops) <==>
                Explains(SplitLines(a), SplitLines(b), ops, 0, 0, |SplitLines(a)|, |SplitLines(b)|)
  {
    hide Dist, SplitLines, Explains;
  }

  lemma NoneUnchanged(al: seq<Line>, x: nat, y: nat)
    requires x <= |al|
    ensures Unchanged(al, x, y, x) == []
  {
  }

  lemma DeletesFirstIs(ops: seq<DiffOp>)
    requires DeletesFirst(ops)
    ensures forall i :: 0 < i < |ops| && ops[i - 1].Insert? ==> !ops[i].Delete?
  {
  }

  /** Unchanged lines around a script leave its order as it is. */
  lemma ShownInTurn(al: seq<Line>, start: nat, endA: nat, endB: nat, middle: seq<DiffOp>)
    requires start <= endA <= |al| && DeletesFirst(middle)
    ensures DeletesFirst(Unchanged(al, 0, 0, start) + Shifted(middle, start) + Unchanged(al, endA, endB, |al|))
  {
    UnchangedIsEqual(al, 0, 0, start);
    UnchangedIsEqual(al, endA, endB, |al|);
    var head, body, tail := Unchanged(al, 0, 0, start), Shifted(middle, start), Unchanged(al, endA, endB, |al|);
    hide Unchanged;
    assert forall i :: 0 < i < |body| && body[i - 1].Insert? ==> !body[i].Delete?;
  }

  lemma {:induction false} UnchangedIsEqual(a: seq<Line>, x: nat, y: nat, n: nat)
    requires x <= n <= |a|
    ensures forall i :: 0 <= i < |Unchanged(a, x, y, n)| ==> Unchanged(a, x, y, n)[i].Equal?
    decreases n - x
  {
    if x < n {
      UnchangedIsEqual(a, x + 1, y + 1, n);
    }
  }

  lemma DiffIsOfLines(a: string, b: string, ops: seq<DiffOp>)
    requires IsDiff(a, b, ops)
    ensures forall i :: 0 <= i < |ops| ==> '\n' !in ops[i].line
    ensures |OldLines(ops)| == multiset(a)['\n'] + 1 && |NewLines(ops)| == multiset(b)['\n'] + 1
    ensures JoinLines(OldLines(ops)) == a && JoinLines(NewLines(ops)) == b
  {
    hide Explains, Cost, OldLines, NewLines, JoinLines, SplitLines;
    DiffReadsBack(a, b, ops);
    var al, bl := SplitLines(a), SplitLines(b);
    SplitsAtBreaks(a);
    SplitsAtBreaks(b);
    ScriptReadsBack(al, bl, ops, 0, 0, |al|, |bl|);
    assert al[0..|al|] == al && bl[0..|bl|] == bl;
    forall i | 0 <= i < |ops| ensures '\n' !in ops[i].line {
      LineIsOld(ops, i);
    }
  }

  lemma {:induction false} LineIsOld(ops: seq<DiffOp>, i: nat)
    requires i < |ops|
    ensures ops[i].line in OldLines(ops) || ops[i].line in NewLines(ops)
  {
    if i > 0 {
      LineIsOld(ops[1..], i - 1);
    }
  }

  /** The least number of deleted and inserted lines between two texts. */
  function Distance(a: string, b: string): nat {
    Dist(SplitLines(a), SplitLines(b), |SplitLines(a)|, |SplitLines(b)|)
  }

  ghost predicate IsDiff(a: string, b: string, ops: seq<DiffOp>) {
    Explains(SplitLines(a), SplitLines(b), ops, 0, 0, |SplitLines(a)|, |SplitLines(b)|)
  }

  lemma Assembled(al: seq<Line>, bl: seq<Line>, start: nat, endA: nat, endB: nat, middle: seq<DiffOp>)
    requires start <= endA <= |al| && start <= endB <= |bl| && al[..start] == bl[..start] && al[endA..] == bl[endB..]
    requires Explains(al[start..endA], bl[start..endB], middle, 0, 0, endA - start, endB - start)
    ensures
      var ops := Unchanged(al, 0, 0, start) + Shifted(middle, start) + Unchanged(al, endA, endB, |al|);
      Explains(al, bl, ops, 0, 0, |al|, |bl|) && Cost(ops) == Cost(middle)
  {
    hide Explains, Cost, Shifted, Unchanged;
    var head, body, tail := Unchanged(al, 0, 0, start), Shifted(middle, start), Unchanged(al, endA, endB, |al|);
    assert al[0..start] == al[..start] && bl[0..start] == bl[..start];
    UnchangedExplains(al, bl, 0, 0, start, start);
    ShiftedExplains(al, bl, middle, start, 0, 0, endA, endB);
    assert al[endA..|al|] == al[endA..] && bl[endB..|bl|] == bl[endB..];
    UnchangedExplains(al, bl, endA, endB, |al|, |bl|);
    JoinScripts(al, bl, head, body, 0, 0, start, start, endA, endB);
    JoinScripts(al, bl, head + body, tail, 0, 0, endA, endB, |al|, |bl|);
  }

  /** A diff reads back as the two texts, and no diff of them is cheaper than the distance. */
  lemma DiffReadsBack(a: string, b: string, ops: seq<DiffOp>)
    requires IsDiff(a, b, ops)
    ensures OldLines(ops) != [] && JoinLines(OldLines(ops)) == a
    ensures NewLines(ops) != [] && JoinLines(NewLines(ops)) == b
    ensures Cost(ops) >= Distance(a, b)
  {
    hide Explains, Cost, OldLines, NewLines, JoinLines, SplitLines;
    var al, bl := SplitLines(a), SplitLines(b);
    ScriptReadsBack(al, bl, ops, 0, 0, |al|, |bl|);
    ScriptCosts(al, bl, ops, 0, 0);
    assert al[0..|al|] == al && bl[0..|bl|] == bl;
    JoinSplit(a);
    JoinSplit(b);
  }
}
