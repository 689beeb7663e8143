/** The furthest-reaching points of Myers' greedy algorithm. */
module Frontier {
  import opened EditDistance

  /** Step d reaches the diagonals -d, -d + 2, ..., d. */
  predicate OnStep(d: int, k: int) {
    -d <= k <= d && (k + d) % 2 == 0
  }

  /** Follows equal lines from (x, x - k), staying inside the grid. */
  function Slide(a: seq<Line>, b: seq<Line>, x: nat, k: int): (r: nat)
    requires x >= k
    ensures r >= x
    decreases |a| - x
  {
    if x < |a| && x - k < |b| && a[x] == b[x - k] then Slide(a, b, x + 1, k) else x
  }

  /** The x at which step d enters diagonal k, possibly outside the grid. */
  function Entry(a: seq<Line>, b: seq<Line>, d: nat, k: int): (x: nat)
    requires OnStep(d, k)
    ensures x >= k
    decreases d, 0
  {
    if d == 0 then 0
    else if k + d == 0 then Furthest(a, b, d - 1, k + 1)
    else if k == d then Furthest(a, b, d - 1, k - 1) + 1
    else
      var below, above := Furthest(a, b, d - 1, k - 1), Furthest(a, b, d - 1, k + 1);
      if below < above then above else below + 1
  }

  /** The furthest x step d reaches on diagonal k. */
  function Furthest(a: seq<Line>, b: seq<Line>, d: nat, k: int): (x: nat)
    requires OnStep(d, k)
    ensures x >= k
    decreases d, 1
  {
    Slide(a, b, Entry(a, b, d, k), k)
  }

  /** Step d reaches the end of both sides on diagonal k. */
  predicate Reaches(a: seq<Line>, b: seq<Line>, d: nat, k: int)
    requires OnStep(d, k)
  {
    var x := Furthest(a, b, d, k);
    x >= |a| && x - k >= |b|
  }

  /** The distance to a point, with a cost of one per line outside the grid. */
  function Outer(a: seq<Line>, b: seq<Line>, x: nat, y: nat): nat {
    var i, j := if x < |a| then x else |a|, if y < |b| then y else |b|;
    Dist(a, b, i, j) + (x - i) + (y - j)
  }

  lemma OuterStep(a: seq<Line>, b: seq<Line>, x: nat, y: nat)
    ensures Outer(a, b, x + 1, y) <= Outer(a, b, x, y) + 1 && Outer(a, b, x, y + 1) <= Outer(a, b, x, y) + 1
  {
    var i, j := if x < |a| then x else |a|, if y < |b| then y else |b|;
    if x < |a| {
      OneLine(a, b, x + 1, j);
    }
    if y < |b| {
      OneLine(a, b, i, y + 1);
    }
  }

  lemma {:induction false} OuterSlide(a: seq<Line>, b: seq<Line>, x: nat, k: int)
    requires x >= k
    ensures var r := Slide(a, b, x, k); Outer(a, b, r, r - k) == Outer(a, b, x, x - k)
    decreases |a| - x
  {
    if x < |a| && x - k < |b| && a[x] == b[x - k] {
      OuterSlide(a, b, x + 1, k);
    }
  }

  /** Step d enters a diagonal from one of its neighbours. */
  lemma EntryFrom(a: seq<Line>, b: seq<Line>, d: nat, k: int)
    requires OnStep(d, k)
    ensures d == 0 ==> k == 0 && Entry(a, b, d, k) == 0
    ensures d > 0 ==>
              || (OnStep(d - 1, k - 1) && Entry(a, b, d, k) == Furthest(a, b, d - 1, k - 1) + 1)
              || (OnStep(d - 1, k + 1) && Entry(a, b, d, k) == Furthest(a, b, d - 1, k + 1))
  {
    hide Furthest;
  }

  lemma FurthestIsSlide(a: seq<Line>, b: seq<Line>, d: nat, k: int)
    requires OnStep(d, k)
    ensures Furthest(a, b, d, k) == Slide(a, b, Entry(a, b, d, k), k)
  {
    hide Entry, Slide;
  }

  lemma OuterStart(a: seq<Line>, b: seq<Line>)
    ensures Outer(a, b, 0, 0) == 0
  {
  }

  /** Step d only reaches points d edits away, inside the grid and outside. */
  lemma {:induction false} ReachedIsNear(a: seq<Line>, b: seq<Line>, d: nat, k: int)
    requires OnStep(d, k)
    ensures var x := Furthest(a, b, d, k); Outer(a, b, x, x - k) <= d
    decreases d
  {
    hide *;
    EntryFrom(a, b, d, k);
    FurthestIsSlide(a, b, d, k);
    var x := Entry(a, b, d, k);
    OuterSlide(a, b, x, k);
    if d == 0 {
      OuterStart(a, b);
    } else if OnStep(d - 1, k - 1) && x == Furthest(a, b, d - 1, k - 1) + 1 {
      ReachedIsNear(a, b, d - 1, k - 1);
      OuterStep(a, b, x - 1, x - k);
    } else {
      ReachedIsNear(a, b, d - 1, k + 1);
      OuterStep(a, b, x, x - k - 1);
    }
  }

  /** A slide does not stop at equal lines. */
  lemma {:induction false} SlideStops(a: seq<Line>, b: seq<Line>, x: nat, k: int)
    requires x >= k
    ensures var r := Slide(a, b, x, k); !(r < |a| && r - k < |b| && a[r] == b[r - k])
    decreases |a| - x
  {
    if x < |a| && x - k < |b| && a[x] == b[x - k] {
      SlideStops(a, b, x + 1, k);
    }
  }

  lemma FurthestStops(a: seq<Line>, b: seq<Line>, d: nat, k: int)
    requires OnStep(d, k)
    ensures var r := Furthest(a, b, d, k); !(r < |a| && r - k < |b| && a[r] == b[r - k])
  {
    hide Entry;
    SlideStops(a, b, Entry(a, b, d, k), k);
  }

  /** A step gets further than its neighbours did. */
  lemma StepGetsFurther(a: seq<Line>, b: seq<Line>, d: nat, k: int)
    requires OnStep(d, k) && d > 0
    ensures OnStep(d - 1, k - 1) ==> Furthest(a, b, d, k) > Furthest(a, b, d - 1, k - 1)
    ensures OnStep(d - 1, k + 1) ==> Furthest(a, b, d, k) >= Furthest(a, b, d - 1, k + 1)
  {
    assert Furthest(a, b, d, k) >= Entry(a, b, d, k);
    hide Furthest;
  }

  /** Step d reaches at least as far as every point at most d edits away. */
  lemma {:induction false} NearIsReached(a: seq<Line>, b: seq<Line>, d: nat, i: nat, j: nat)
    requires i <= |a| && j <= |b| && Dist(a, b, i, j) <= d && OnStep(d, i - j)
    ensures Furthest(a, b, d, i - j) >= i
    decreases d, i + j
  {
    hide Furthest, Dist;
    DistUnfolds(a, b, i, j);
    var k := i - j;
    if i > 0 && j > 0 && a[i - 1] == b[j - 1] {
      NearIsReached(a, b, d, i - 1, j - 1);
      FurthestStops(a, b, d, k);
    } else if i > 0 && (j == 0 || Dist(a, b, i - 1, j) <= Dist(a, b, i, j - 1)) {
      DistAtLeast(a, b, i - 1, j);
      NearIsReached(a, b, d - 1, i - 1, j);
      StepGetsFurther(a, b, d, k);
    } else if j > 0 {
      DistAtLeast(a, b, i, j - 1);
      NearIsReached(a, b, d - 1, i, j - 1);
      StepGetsFurther(a, b, d, k);
    }
  }

  /** Every distance has the parity of its diagonal. */
  lemma DistOnStep(a: seq<Line>, b: seq<Line>)
    ensures OnStep(Dist(a, b, |a|, |b|), |a| - |b|)
  {
    hide Dist, Lcs;
    DistAtLeast(a, b, |a|, |b|);
    DistIsLcs(a, b, |a|, |b|);
  }

  /** No step before the distance reaches the end of both sides; the step of the
      distance does, exactly and only on the last diagonal. */
  lemma FirstReachIsDist(a: seq<Line>, b: seq<Line>, d: nat, k: int)
    requires OnStep(d, k) && Reaches(a, b, d, k)
    ensures Dist(a, b, |a|, |b|) <= d
    ensures d == Dist(a, b, |a|, |b|) ==> k == |a| - |b| && Furthest(a, b, d, k) == |a|
  {
    hide Furthest, Dist;
    ReachedIsNear(a, b, d, k);
  }

  lemma DistReaches(a: seq<Line>, b: seq<Line>)
    ensures OnStep(Dist(a, b, |a|, |b|), |a| - |b|) && Reaches(a, b, Dist(a, b, |a|, |b|), |a| - |b|)
  {
    hide Furthest, Dist;
    DistOnStep(a, b);
    NearIsReached(a, b, Dist(a, b, |a|, |b|), |a|, |b|);
  }
}
