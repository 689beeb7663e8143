/** The sort of the standard libraries: slices.SortFunc and Array.prototype.sort. */
module Sorting {

  type Less<!T> = (T, T) -> bool

  ghost predicate NoDup<T>(s: seq<T>) {
    forall i, j :: 0 <= i < j < |s| ==> s[i] != s[j]
  }

  ghost predicate IsOrder<T(!new)>(less: Less<T>) {
    && (forall a, b, c :: !less(c, b) && !less(b, a) ==> !less(c, a))
    && (forall a, b :: less(a, b) ==> !less(b, a))
  }

  /** No later element is less than an earlier one. */
  ghost predicate Sorted<T(!new)>(s: seq<T>, less: Less<T>) {
    s != [] ==> (forall y :: y in s[1..] ==> !less(y, s[0])) && Sorted(s[1..], less)
  }

  function Insert<T>(x: T, s: seq<T>, less: Less<T>): (t: seq<T>)
    ensures multiset(t) == multiset(s) + multiset{x}
  {
    if s == [] || !less(s[0], x) then [x] + s
    else
      assert s == [s[0]] + s[1..];
      [s[0]] + Insert(x, s[1..], less)
  }

  lemma {:induction false} InsertSorted<T(!new)>(x: T, s: seq<T>, less: Less<T>)
    requires IsOrder(less) && Sorted(s, less)
    ensures Sorted(Insert(x, s, less), less)
  {
    var t := Insert(x, s, less);
    if s == [] {
      assert t[1..] == [];
    } else if less(s[0], x) {
      InsertSorted(x, s[1..], less);
      var rest := Insert(x, s[1..], less);
      assert t[1..] == rest;
      forall y | y in rest ensures !less(y, s[0]) {
        assert y in multiset(rest);
        assert y == x || y in s[1..];
      }
    } else {
      assert t[1..] == s;
      forall y | y in s ensures !less(y, x) {
        assert y == s[0] || y in s[1..];
      }
    }
  }

  lemma {:induction false} SortedPairs<T(!new)>(s: seq<T>, less: Less<T>, i: nat, j: nat)
    requires Sorted(s, less) && i < j < |s|
    ensures !less(s[j], s[i])
  {
    if i == 0 {
      assert s[j] == s[1..][j - 1];
    } else {
      SortedPairs(s[1..], less, i - 1, j - 1);
    }
  }

  function Sort<T>(s: seq<T>, less: Less<T>): (t: seq<T>)
    ensures multiset(t) == multiset(s)
  {
    if s == [] then []
    else
      assert s == [s[0]] + s[1..];
      Insert(s[0], Sort(s[1..], less), less)
  }

  lemma {:induction false} SortSorts<T(!new)>(s: seq<T>, less: Less<T>)
    requires IsOrder(less)
    ensures Sorted(Sort(s, less), less)
  {
    if s != [] {
      SortSorts(s[1..], less);
      InsertSorted(s[0], Sort(s[1..], less), less);
    }
  }

  lemma SameMultiset<T>(s: seq<T>, t: seq<T>)
    requires multiset(s) == multiset(t)
    ensures |s| == |t|
    ensures forall x :: x in s <==> x in t
    ensures NoDup(s) ==> NoDup(t)
  {
    assert |s| == |multiset(s)| && |t| == |multiset(t)|;
    forall x ensures x in s <==> x in t {
      assert x in s <==> x in multiset(s);
      assert x in t <==> x in multiset(t);
    }
    if NoDup(s) && !NoDup(t) {
      var i, j :| 0 <= i < j < |t| && t[i] == t[j];
      TwiceCounts(t, i, j);
      OnceCounts(s, t[i]);
      assert false;
    }
  }

  /** Each element of t is one of s. */
  lemma SameElements<T>(s: seq<T>, t: seq<T>)
    requires multiset(s) == multiset(t)
    ensures |s| == |t| && forall i :: 0 <= i < |t| ==> exists j :: 0 <= j < |s| && s[j] == t[i]
  {
    assert |s| == |multiset(s)| && |t| == |multiset(t)|;
    forall i | 0 <= i < |t| ensures exists j :: 0 <= j < |s| && s[j] == t[i] {
      assert t[i] in multiset(t);
      assert t[i] in s;
    }
  }

  lemma TwiceCounts<T>(t: seq<T>, i: int, j: int)
    requires 0 <= i < j < |t| && t[i] == t[j]
    ensures multiset(t)[t[i]] >= 2
  {
    assert t == t[..j] + [t[j]] + t[j + 1..];
    assert t[i] in t[..j];
  }

  lemma OnceCounts<T>(s: seq<T>, x: T)
    requires NoDup(s)
    ensures multiset(s)[x] <= 1
  {
    if s != [] {
      assert s == [s[0]] + s[1..];
      OnceCounts(s[1..], x);
    }
  }
}
