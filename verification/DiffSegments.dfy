/** What a diff shows and what it collapses: toSegments of frontend/src/lib/text-diff.ts. */
module DiffSegments {
  import opened EditDistance

  datatype Segment = Lines(ops: seq<DiffOp>) | Skip(ops: seq<DiffOp>)

  function Flatten(segments: seq<Segment>): seq<DiffOp> {
    if segments == [] then [] else Flatten(segments[..|segments| - 1]) + segments[|segments| - 1].ops
  }

  /** For every op whether it is collapsed. */
  function Collapsed(segments: seq<Segment>): seq<bool> {
    if segments == [] then []
    else
      var last := segments[|segments| - 1];
      Collapsed(segments[..|segments| - 1]) + seq(|last.ops|, _ => last.Skip?)
  }

  /** Op t is at most `context` away from a change. */
  ghost predicate Near(ops: seq<DiffOp>, context: nat, t: int) {
    exists u :: 0 <= u < |ops| && t - context <= u <= t + context && !ops[u].Equal?
  }

  /** Op t is out of view: it is far from every change, and not the only such op of its run. */
  ghost predicate Far(ops: seq<DiffOp>, context: nat, t: int) {
    && !Near(ops, context, t)
    && ((t + 1 < |ops| && !Near(ops, context, t + 1)) || (t > 0 && !Near(ops, context, t - 1)))
  }

  /** Visible segments are as long as they can be, and no segment is empty. */
  ghost predicate AreMerged(segments: seq<Segment>) {
    && (forall i :: 0 <= i < |segments| ==> segments[i].ops != [])
    && (forall i :: 0 < i < |segments| ==> segments[i - 1].Lines? != segments[i].Lines?)
  }

  /** The segments show ops[..i]. */
  ghost predicate AreSegments(ops: seq<DiffOp>, context: nat, segments: seq<Segment>, i: nat)
    requires i <= |ops|
  {
    && Flatten(segments) == ops[..i]
    && |Collapsed(segments)| == i
    && (forall t :: 0 <= t < i ==> (Collapsed(segments)[t] <==> Far(ops, context, t)))
    && AreMerged(segments)
  }

  /** Appends to the last segment when it is visible, or adds one. */
  function PushLines(segments: seq<Segment>, run: seq<DiffOp>): (more: seq<Segment>)
    ensures more != [] && more[|more| - 1].Lines?
  {
    if segments != [] && segments[|segments| - 1].Lines?
    then segments[|segments| - 1 := Lines(segments[|segments| - 1].ops + run)]
    else segments + [Lines(run)]
  }

  lemma PushedLines(ops: seq<DiffOp>, context: nat, segments: seq<Segment>, i: nat, j: nat)
    requires i < j <= |ops| && AreSegments(ops, context, segments, i)
    requires forall t :: i <= t < j ==> !Far(ops, context, t)
    ensures AreSegments(ops, context, PushLines(segments, ops[i..j]), j)
  {
    hide Far;
    var more := PushLines(segments, ops[i..j]);
    if segments != [] && segments[|segments| - 1].Lines? {
      assert more[..|more| - 1] == segments[..|segments| - 1];
      assert Flatten(more) == Flatten(segments) + ops[i..j];
      assert Collapsed(more) == Collapsed(segments) + seq(j - i, _ => false);
    } else {
      assert more[..|more| - 1] == segments;
    }
    assert ops[..j] == ops[..i] + ops[i..j];
  }

  lemma PushedSkip(ops: seq<DiffOp>, context: nat, segments: seq<Segment>, i: nat, j: nat)
    requires i < j <= |ops| && AreSegments(ops, context, segments, i)
    requires segments == [] || segments[|segments| - 1].Lines?
    requires forall t :: i <= t < j ==> Far(ops, context, t)
    ensures AreSegments(ops, context, segments + [Skip(ops[i..j])], j)
  {
    hide Far;
    var more := segments + [Skip(ops[i..j])];
    assert more[..|more| - 1] == segments;
    assert ops[..j] == ops[..i] + ops[i..j];
  }

  /** [s, e) is a longest run of equal ops. */
  ghost predicate IsRun(ops: seq<DiffOp>, s: int, e: int) {
    && 0 <= s < e <= |ops|
    && (forall t :: s <= t < e ==> ops[t].Equal?)
    && (s > 0 ==> !ops[s - 1].Equal?)
    && (e < |ops| ==> !ops[e].Equal?)
  }

  /** Only the neighbours of a run make its ops near. */
  lemma NearInRun(ops: seq<DiffOp>, context: nat, s: int, e: int, t: int)
    requires IsRun(ops, s, e) && s <= t < e
    ensures Near(ops, context, t) <==> (s > 0 && t - s < context) || (e < |ops| && e - t <= context)
  {
    if s > 0 && t - s < context {
      assert !ops[s - 1].Equal?;
    }
    if e < |ops| && e - t <= context {
      assert !ops[e].Equal?;
    }
  }

  /** What of a run is collapsed. */
  lemma FarInRun(ops: seq<DiffOp>, context: nat, s: int, e: int)
    requires IsRun(ops, s, e)
    ensures
      var first := s + if s == 0 then 0 else context;
      var last := e - if e == |ops| then 0 else context;
      forall t :: s <= t < e ==> (Far(ops, context, t) <==> last - first > 1 && first <= t < last)
  {
    hide Near;
    var first := s + if s == 0 then 0 else context;
    var last := e - if e == |ops| then 0 else context;
    forall t | s <= t < e ensures Far(ops, context, t) <==> last - first > 1 && first <= t < last {
      NearInRun(ops, context, s, e, t);
      if t + 1 < e {
        NearInRun(ops, context, s, e, t + 1);
      } else if t + 1 < |ops| {
        ChangeIsNear(ops, context, e);
      }
      if t > s {
        NearInRun(ops, context, s, e, t - 1);
      } else if t > 0 {
        ChangeIsNear(ops, context, s - 1);
      }
    }
  }

  lemma ChangeIsNear(ops: seq<DiffOp>, context: nat, u: int)
    requires 0 <= u < |ops| && !ops[u].Equal?
    ensures Near(ops, context, u) && !Far(ops, context, u)
  {
    assert u - context <= u <= u + context;
  }

  /** Shows the changes and what is near them; hides other lines where two or more are in a row. */
  method ToSegments(ops: seq<DiffOp>, context: nat) returns (segments: seq<Segment>)
    ensures AreSegments(ops, context, segments, |ops|)
  {
    hide *;
    segments := [];
    NothingShown(ops, context, segments);
    var i := 0;
    while i < |ops|
      invariant 0 <= i <= |ops| && AreSegments(ops, context, segments, i)
      invariant i == 0 ==> segments == []
      invariant 0 < i < |ops| ==> ops[i - 1].Equal? != ops[i].Equal?
      invariant 0 < i && !ops[i - 1].Equal? ==> segments != [] && segments[|segments| - 1].Lines?
    {
      var start := i;
      if !ops[i].Equal? {
        while i < |ops| && !ops[i].Equal?
          invariant start <= i <= |ops| && (i == start ==> i < |ops| && !ops[i].Equal?)
          invariant forall t :: start <= t < i ==> !ops[t].Equal?
        {
          i := i + 1;
        }
        forall t | start <= t < i ensures !Far(ops, context, t) {
          ChangeIsNear(ops, context, t);
        }
        PushedLines(ops, context, segments, start, i);
        segments := PushLines(segments, ops[start..i]);
        continue;
      }
      while i < |ops| && ops[i].Equal?
        invariant start <= i <= |ops| && (i == start ==> i < |ops| && ops[i].Equal?)
        invariant forall t :: start <= t < i ==> ops[t].Equal?
      {
        i := i + 1;
      }
      var keepBefore := if start == 0 then 0 else context;
      var keepAfter := if i >= |ops| then 0 else context;
      RunFound(ops, start, i);
      FarInRun(ops, context, start, i);
      if i - start <= keepBefore + keepAfter + 1 {
        PushedLines(ops, context, segments, start, i);
        segments := PushLines(segments, ops[start..i]);
        continue;
      }
      if keepBefore > 0 {
        PushedLines(ops, context, segments, start, start + keepBefore);
        segments := PushLines(segments, ops[start..start + keepBefore]);
      }
      PushedSkip(ops, context, segments, start + keepBefore, i - keepAfter);
      segments := segments + [Skip(ops[start + keepBefore..i - keepAfter])];
      if keepAfter > 0 {
        PushedLines(ops, context, segments, i - keepAfter, i);
        segments := PushLines(segments, ops[i - keepAfter..i]);
      }
    }
  }

  lemma NothingShown(ops: seq<DiffOp>, context: nat, segments: seq<Segment>)
    requires segments == []
    ensures AreSegments(ops, context, segments, 0)
  {
  }

  lemma RunFound(ops: seq<DiffOp>, s: int, e: int)
    requires 0 <= s < e <= |ops| && (forall t :: s <= t < e ==> ops[t].Equal?)
    requires (s > 0 ==> !ops[s - 1].Equal?) && (e < |ops| ==> !ops[e].Equal?)
    ensures IsRun(ops, s, e)
  {
  }
}
