/** Edit scripts between two line sequences and the least number of edits. */
module EditDistance {
  type Line = string

  /** Line numbers are 1-based; Equal has one on both sides. */
  datatype DiffOp =
    | Equal(line: Line, a: nat, b: nat)
    | Delete(line: Line, a: nat)
    | Insert(line: Line, b: nat)

  /** ops turns the lines a[x..n] into b[y..m], with their line numbers. */
  ghost predicate Explains(a: seq<Line>, b: seq<Line>, ops: seq<DiffOp>, x: nat, y: nat, n: nat, m: nat)
    requires x <= n <= |a| && y <= m <= |b|
  {
    if ops == [] then x == n && y == m
    else match ops[0]
      case Equal(line, i, j) =>
        x < n && y < m && line == a[x] == b[y] && i == x + 1 && j == y + 1
          && Explains(a, b, ops[1..], x + 1, y + 1, n, m)
      case Delete(line, i) =>
        x < n && line == a[x] && i == x + 1 && Explains(a, b, ops[1..], x + 1, y, n, m)
      case Insert(line, j) =>
        y < m && line == b[y] && j == y + 1 && Explains(a, b, ops[1..], x, y + 1, n, m)
  }

  /** Deleted plus inserted lines. */
  function Cost(ops: seq<DiffOp>): nat {
    if ops == [] then 0 else (if ops[0].Equal? then 0 else 1) + Cost(ops[1..])
  }

  /** The lines a script keeps or deletes, and those it keeps or inserts. */
  function OldLines(ops: seq<DiffOp>): seq<Line> {
    if ops == [] then [] else (if ops[0].Insert? then [] else [ops[0].line]) + OldLines(ops[1..])
  }

  function NewLines(ops: seq<DiffOp>): seq<Line> {
    if ops == [] then [] else (if ops[0].Delete? then [] else [ops[0].line]) + NewLines(ops[1..])
  }

  /** Reading a script gives both sides back. */
  lemma {:induction false} ScriptReadsBack(a: seq<Line>, b: seq<Line>, ops: seq<DiffOp>, x: nat, y: nat, n: nat, m: nat)
    requires x <= n <= |a| && y <= m <= |b| && Explains(a, b, ops, x, y, n, m)
    ensures OldLines(ops) == a[x..n] && NewLines(ops) == b[y..m]
  {
    if ops != [] {
      match ops[0]
      case Equal(line, i, j) =>
        ScriptReadsBack(a, b, ops[1..], x + 1, y + 1, n, m);
        FirstOfSlice(a, x, n);
        FirstOfSlice(b, y, m);
      case Delete(line, i) =>
        ScriptReadsBack(a, b, ops[1..], x + 1, y, n, m);
        FirstOfSlice(a, x, n);
      case Insert(line, j) =>
        ScriptReadsBack(a, b, ops[1..], x, y + 1, n, m);
        FirstOfSlice(b, y, m);
    }
  }

  lemma FirstOfSlice(s: seq<Line>, x: nat, n: nat)
    requires x < n <= |s|
    ensures s[x..n] == [s[x]] + s[x + 1..n]
  {
  }

  /** Scripts compose. */
  lemma {:induction false} JoinScripts(a: seq<Line>, b: seq<Line>, s: seq<DiffOp>, t: seq<DiffOp>,
                                       x: nat, y: nat, u: nat, v: nat, n: nat, m: nat)
    requires x <= u <= n <= |a| && y <= v <= m <= |b|
    requires Explains(a, b, s, x, y, u, v) && Explains(a, b, t, u, v, n, m)
    ensures Explains(a, b, s + t, x, y, n, m) && Cost(s + t) == Cost(s) + Cost(t)
  {
    if s == [] {
      assert s + t == t;
    } else {
      assert (s + t)[0] == s[0] && (s + t)[1..] == s[1..] + t;
      match s[0]
      case Equal(line, i, j) => JoinScripts(a, b, s[1..], t, x + 1, y + 1, u, v, n, m);
      case Delete(line, i) => JoinScripts(a, b, s[1..], t, x + 1, y, u, v, n, m);
      case Insert(line, j) => JoinScripts(a, b, s[1..], t, x, y + 1, u, v, n, m);
    }
  }

  /** The least number of deleted and inserted lines between a[..i] and b[..j]. */
  function Dist(a: seq<Line>, b: seq<Line>, i: nat, j: nat): nat
    requires i <= |a| && j <= |b|
  {
    if i == 0 then j
    else if j == 0 then i
    else if a[i - 1] == b[j - 1] then Dist(a, b, i - 1, j - 1)
    else 1 + var p, q := Dist(a, b, i - 1, j), Dist(a, b, i, j - 1); if p < q then p else q
  }

  /** One line more on one side changes the distance by at most one. */
  lemma {:induction false} OneLine(a: seq<Line>, b: seq<Line>, i: nat, j: nat)
    requires i <= |a| && j <= |b|
    ensures i > 0 ==> -1 <= Dist(a, b, i, j) - Dist(a, b, i - 1, j) <= 1
    ensures j > 0 ==> -1 <= Dist(a, b, i, j) - Dist(a, b, i, j - 1) <= 1
    decreases i + j
  {
    if i > 0 && j > 0 {
      OneLine(a, b, i - 1, j);
      OneLine(a, b, i, j - 1);
    }
  }

  lemma {:induction false} DistAtLeast(a: seq<Line>, b: seq<Line>, i: nat, j: nat)
    requires i <= |a| && j <= |b|
    ensures i - j <= Dist(a, b, i, j) && j - i <= Dist(a, b, i, j) <= i + j
    decreases i + j
  {
    if i > 0 && j > 0 {
      DistAtLeast(a, b, i - 1, j - 1);
      DistAtLeast(a, b, i - 1, j);
      DistAtLeast(a, b, i, j - 1);
    }
  }

  /** No script is cheaper than the distance. */
  lemma {:induction false} ScriptCosts(a: seq<Line>, b: seq<Line>, ops: seq<DiffOp>, x: nat, y: nat)
    requires x <= |a| && y <= |b| && Explains(a, b, ops, x, y, |a|, |b|)
    ensures Dist(a, b, |a|, |b|) <= Dist(a, b, x, y) + Cost(ops)
  {
    if ops != [] {
      match ops[0]
      case Equal(line, i, j) => ScriptCosts(a, b, ops[1..], x + 1, y + 1);
      case Delete(line, i) => OneLine(a, b, x + 1, y); ScriptCosts(a, b, ops[1..], x + 1, y);
      case Insert(line, j) => OneLine(a, b, x, y + 1); ScriptCosts(a, b, ops[1..], x, y + 1);
    }
  }

  /** The length of a longest common subsequence of a[..i] and b[..j]. */
  function Lcs(a: seq<Line>, b: seq<Line>, i: nat, j: nat): nat
    requires i <= |a| && j <= |b|
  {
    if i == 0 || j == 0 then 0
    else if a[i - 1] == b[j - 1] then 1 + Lcs(a, b, i - 1, j - 1)
    else var p, q := Lcs(a, b, i - 1, j), Lcs(a, b, i, j - 1); if p < q then q else p
  }

  lemma {:induction false} DistIsLcs(a: seq<Line>, b: seq<Line>, i: nat, j: nat)
    requires i <= |a| && j <= |b|
    ensures Dist(a, b, i, j) == i + j - 2 * Lcs(a, b, i, j)
    decreases i + j
  {
    if i > 0 && j > 0 {
      DistIsLcs(a, b, i - 1, j - 1);
      DistIsLcs(a, b, i - 1, j);
      DistIsLcs(a, b, i, j - 1);
    }
  }

  // --- peeling off common lines ---

  lemma DistUnfolds(a: seq<Line>, b: seq<Line>, i: nat, j: nat)
    requires i <= |a| && j <= |b|
    ensures i == 0 || j == 0 ==> Dist(a, b, i, j) == i + j
    ensures i > 0 && j > 0 && a[i - 1] == b[j - 1] ==> Dist(a, b, i, j) == Dist(a, b, i - 1, j - 1)
    ensures i > 0 && j > 0 && a[i - 1] != b[j - 1] ==>
              Dist(a, b, i, j) == 1 + var p, q := Dist(a, b, i - 1, j), Dist(a, b, i, j - 1); if p < q then p else q
  {
  }

  /** A common prefix of s lines costs nothing. */
  lemma {:induction false} PrefixIsFree(a: seq<Line>, b: seq<Line>, s: nat, i: nat, j: nat)
    requires s + i <= |a| && s + j <= |b| && a[..s] == b[..s]
    ensures Dist(a, b, s + i, s + j) == Dist(a[s..], b[s..], i, j)
    decreases i + j
  {
    hide Dist;
    if i == 0 || j == 0 {
      SharedPrefix(a, b, s, i, j);
      DistUnfolds(a[s..], b[s..], i, j);
    } else {
      DistUnfolds(a, b, s + i, s + j);
      DistUnfolds(a[s..], b[s..], i, j);
      assert a[s..][i - 1] == a[s + i - 1] && b[s..][j - 1] == b[s + j - 1];
      PrefixIsFree(a, b, s, i - 1, j - 1);
      PrefixIsFree(a, b, s, i - 1, j);
      PrefixIsFree(a, b, s, i, j - 1);
    }
  }

  lemma {:induction false} SharedPrefix(a: seq<Line>, b: seq<Line>, s: nat, i: nat, j: nat)
    requires s + i <= |a| && s + j <= |b| && a[..s] == b[..s] && (i == 0 || j == 0)
    ensures Dist(a, b, s + i, s + j) == i + j
    decreases s + i + j
  {
    hide Dist;
    DistAtLeast(a, b, s + i, s + j);
    if i > 0 {
      SharedPrefix(a, b, s, i - 1, j);
      OneLine(a, b, s + i, s + j);
    } else if j > 0 {
      SharedPrefix(a, b, s, i, j - 1);
      OneLine(a, b, s + i, s + j);
    } else {
      EqualLinesAreFree(a, b, s);
    }
  }

  lemma {:induction false} EqualLinesAreFree(a: seq<Line>, b: seq<Line>, s: nat)
    requires s <= |a| && s <= |b| && a[..s] == b[..s]
    ensures Dist(a, b, s, s) == 0
  {
    if s > 0 {
      assert a[..s - 1] == a[..s][..s - 1] && b[..s - 1] == b[..s][..s - 1];
      assert a[s - 1] == a[..s][s - 1] && b[s - 1] == b[..s][s - 1];
      EqualLinesAreFree(a, b, s - 1);
    }
  }

  /** Equal lines at both ends cost nothing. */
  lemma {:induction false} SuffixIsFree(a: seq<Line>, b: seq<Line>, n: nat, m: nat)
    requires n <= |a| && m <= |b| && a[n..] == b[m..]
    ensures Dist(a, b, |a|, |b|) == Dist(a, b, n, m)
    decreases |a| - n
  {
    if n < |a| {
      assert a[n] == a[n..][0] && b[m] == b[m..][0];
      assert a[n + 1..] == a[n..][1..] && b[m + 1..] == b[m..][1..];
      SuffixIsFree(a, b, n + 1, m + 1);
    } else {
      assert |b[m..]| == 0;
    }
  }

  /** The distance looks at the given prefixes only. */
  lemma {:induction false} DistOfPrefixes(a: seq<Line>, b: seq<Line>, n: nat, m: nat, i: nat, j: nat)
    requires i <= n <= |a| && j <= m <= |b|
    ensures Dist(a[..n], b[..m], i, j) == Dist(a, b, i, j)
    decreases i + j
  {
    if i > 0 && j > 0 {
      DistOfPrefixes(a, b, n, m, i - 1, j - 1);
      DistOfPrefixes(a, b, n, m, i - 1, j);
      DistOfPrefixes(a, b, n, m, i, j - 1);
    }
  }
}
