/** The canonical form of JSON texts: canonicalJson of frontend/src/lib/canonical-json.ts. */
module CanonicalJson {
  import opened Options
  import opened Sorting
  import opened JsonText
  import opened JsonDouble
  import opened JsonNumber
  import opened NumberText
  import opened JsonSyntax
  import opened JsonGrammar
  import opened JsonParser
  import opened JsonNormal
  import opened JsonLayout
  import opened JsonLines
  import opened JsonValue

  // --- normal nodes of one value are one node ---

  lemma {:induction false} ProperDeeper(node: Node, depth: nat, deeper: nat)
    requires IsProper(node, depth) && depth <= deeper
    ensures IsProper(node, deeper)
    decreases node
  {
    hide IsNumberText;
    match node
    case Arr(items) =>
      forall i | 0 <= i < |items| ensures IsProper(items[i], deeper - 1) {
        ProperDeeper(items[i], depth - 1, deeper - 1);
      }
    case Obj(entries) =>
      forall i | 0 <= i < |entries| ensures IsProper(entries[i].node, deeper - 1) {
        ProperDeeper(entries[i].node, depth - 1, deeper - 1);
      }
    case _ =>
  }

  ghost predicate AreNormalItems(items: seq<Node>, ignoreOrder: bool) {
    && (forall i :: 0 <= i < |items| ==> IsNormal(items[i], ignoreOrder))
    && (ignoreOrder ==> forall i, j :: 0 <= i < j < |items| ==> !Precedes(Compact(items[j]), Compact(items[i])))
  }

  ghost predicate AreNormalEntries(entries: seq<Entry>, ignoreOrder: bool) {
    && AreDistinct(entries)
    && (forall i :: 0 <= i < |entries| ==> IsNormal(entries[i].node, ignoreOrder))
    && (forall i, j :: 0 <= i < j < |entries| ==> !Precedes(entries[j].name, entries[i].name))
  }

  lemma {:induction false} SameNormal(a: Node, b: Node, ignoreOrder: bool, depth: nat)
    requires IsNormal(a, ignoreOrder) && IsNormal(b, ignoreOrder) && IsProper(a, depth) && IsProper(b, depth)
        && depth <= MAX_NESTING
    requires Denote(a, ignoreOrder) == Denote(b, ignoreOrder)
    ensures a == b
    decreases a, 1
  {
    hide IsNumberText, NumberOf, ValueOf, IsLoose, DenoteItems, DenoteEntries, Precedes, Compact;
    match a
    case Num(t) => SameNumber(t, b.text);
    case Arr(items) =>
      if ignoreOrder {
        SameBags(items, b.items, depth);
      } else {
        SameLists(items, b.items, depth);
      }
    case Obj(entries) => SameRecords(entries, b.entries, ignoreOrder, depth);
    case _ =>
  }

  lemma SameNumber(t: Text, u: Text)
    requires IsNumberText(t) && IsNumberText(u)
    requires Denote(Num(t), false) == Denote(Num(u), false)
    ensures t == u
  {
    hide NumberOf, ValueOf, NormalForm, NormalText, LiteralText;
    NormalFormIsCanonical(NumberOf(t), NumberOf(u));
  }

  lemma {:induction false} SameLists(s: seq<Node>, t: seq<Node>, depth: nat)
    requires AreNormalItems(s, false) && AreNormalItems(t, false) && AreProperItems(s, depth)
        && AreProperItems(t, depth) && depth <= MAX_NESTING
    requires DenoteItems(s, false) == DenoteItems(t, false)
    ensures s == t
    decreases s, 0
  {
    hide IsNormal, IsProper, Denote;
    assert |s| == |DenoteItems(s, false)| == |DenoteItems(t, false)| == |t|;
    forall i | 0 <= i < |s| ensures s[i] == t[i] {
      assert Denote(s[i], false) == DenoteItems(s, false)[i] == DenoteItems(t, false)[i] == Denote(t[i], false);
      SameNormal(s[i], t[i], false, depth - 1);
    }
  }

  lemma {:induction false} SameBags(s: seq<Node>, t: seq<Node>, depth: nat)
    requires AreNormalItems(s, true) && AreNormalItems(t, true) && AreProperItems(s, depth) && AreProperItems(t, depth)
        && depth <= MAX_NESTING
    requires multiset(DenoteItems(s, true)) == multiset(DenoteItems(t, true))
    ensures s == t
    decreases s, 0
  {
    hide *;
    if s == [] || t == [] {
      EmptyBags(s, t);
    } else {
      var j := Counterpart(s, t);
      var i := Counterpart(t, s);
      ItemFacts(s, 0, depth);
      ItemFacts(s, i, depth);
      ItemFacts(t, 0, depth);
      ItemFacts(t, j, depth);
      SameNormal(s[0], t[j], true, depth - 1);
      SameNormal(s[i], t[0], true, depth - 1);
      SameFirst(s, t, i, j, depth);
      SameTailBags(s, t);
      SameBags(s[1..], t[1..], depth);
      assert s == [s[0]] + s[1..] && t == [t[0]] + t[1..];
    }
  }

  lemma EmptyBags(s: seq<Node>, t: seq<Node>)
    requires multiset(DenoteItems(s, true)) == multiset(DenoteItems(t, true)) && (s == [] || t == [])
    ensures s == t
  {
    hide Denote;
    SameElements(DenoteItems(s, true), DenoteItems(t, true));
  }

  /** The item of t that denotes the same as the first of s. */
  lemma Counterpart(s: seq<Node>, t: seq<Node>) returns (j: nat)
    requires multiset(DenoteItems(s, true)) == multiset(DenoteItems(t, true)) && s != []
    ensures j < |t| && Denote(s[0], true) == Denote(t[j], true)
  {
    hide Denote;
    var u, v := DenoteItems(s, true), DenoteItems(t, true);
    SameElements(v, u);
    j :| 0 <= j < |v| && v[j] == u[0];
  }

  lemma ItemFacts(s: seq<Node>, i: nat, depth: nat)
    requires AreNormalItems(s, true) && AreProperItems(s, depth) && i < |s|
    ensures depth > 0 && IsNormal(s[i], true) && IsProper(s[i], depth - 1)
    ensures AreNormalItems(s[1..], true) && AreProperItems(s[1..], depth)
  {
    hide IsNormal, IsProper, Precedes, Compact;
  }

  lemma SameTailBags(s: seq<Node>, t: seq<Node>)
    requires s != [] && t != [] && s[0] == t[0]
    requires multiset(DenoteItems(s, true)) == multiset(DenoteItems(t, true))
    ensures multiset(DenoteItems(s[1..], true)) == multiset(DenoteItems(t[1..], true))
  {
    hide Denote;
    var u, v := DenoteItems(s, true), DenoteItems(t, true);
    SameWithout(u, v, 0);
    assert v[..0] + v[1..] == v[1..];
    assert DenoteItems(s[1..], true) == u[1..] && DenoteItems(t[1..], true) == v[1..];
  }

  /** The least items of two sorted lists that hold each other's least item are the same. */
  lemma SameFirst(s: seq<Node>, t: seq<Node>, i: nat, j: nat, depth: nat)
    requires AreNormalItems(s, true) && AreNormalItems(t, true) && AreProperItems(s, depth) && AreProperItems(t, depth)
        && depth <= MAX_NESTING
    requires i < |s| && j < |t| && s[0] == t[j] && t[0] == s[i]
    ensures s[0] == t[0]
  {
    hide IsNormal, IsProper, Compact, Precedes;
    assert i > 0 ==> !Precedes(Compact(s[i]), Compact(s[0]));
    assert j > 0 ==> !Precedes(Compact(t[j]), Compact(t[0]));
    PrecedesIsTotal(Compact(s[0]), Compact(t[0]));
    ProperDeeper(s[0], depth - 1, MAX_NESTING);
    ProperDeeper(t[0], depth - 1, MAX_NESTING);
    PrintIsInjective(s[0], t[0]);
  }

  lemma {:induction false} SameRecords(s: seq<Entry>, t: seq<Entry>, ignoreOrder: bool, depth: nat)
    requires AreNormalEntries(s, ignoreOrder) && AreNormalEntries(t, ignoreOrder)
    requires AreProperEntries(s, depth) && AreProperEntries(t, depth) && depth <= MAX_NESTING
    requires DenoteEntries(s, ignoreOrder) == DenoteEntries(t, ignoreOrder)
    ensures s == t
    decreases s, 0
  {
    hide IsNormal, IsProper, Denote, Precedes, DenoteEntries;
    if s == [] || t == [] {
      BothEmpty(s, t, ignoreOrder);
    } else {
      FieldOf(s, 0, ignoreOrder);
      FieldOf(t, 0, ignoreOrder);
      var j := FieldComesFrom(t, s[0].name, ignoreOrder);
      var i := FieldComesFrom(s, t[0].name, ignoreOrder);
      assert j > 0 ==> !Precedes(t[j].name, t[0].name);
      assert i > 0 ==> !Precedes(s[i].name, s[0].name);
      PrecedesIsTotal(s[0].name, t[0].name);
      SameNormal(s[0].node, t[0].node, ignoreOrder, depth - 1);
      FieldsWithout(s, ignoreOrder);
      FieldsWithout(t, ignoreOrder);
      SameRecords(s[1..], t[1..], ignoreOrder, depth);
      assert s == [s[0]] + s[1..] && t == [t[0]] + t[1..];
    }
  }

  lemma BothEmpty(s: seq<Entry>, t: seq<Entry>, ignoreOrder: bool)
    requires DenoteEntries(s, ignoreOrder) == DenoteEntries(t, ignoreOrder) && (s == [] || t == [])
    ensures s == t
  {
    hide Denote, DenoteEntries;
    EmptyDenotes(s, ignoreOrder);
    EmptyDenotes(t, ignoreOrder);
  }

  lemma EmptyDenotes(s: seq<Entry>, ignoreOrder: bool)
    ensures DenoteEntries(s, ignoreOrder) == map[] <==> s == []
  {
    hide Denote;
    if s != [] {
      assert s[0].name in DenoteEntries(s, ignoreOrder);
    }
  }

  lemma FieldsWithout(s: seq<Entry>, ignoreOrder: bool)
    requires AreDistinct(s) && s != []
    ensures DenoteEntries(s[1..], ignoreOrder) == DenoteEntries(s, ignoreOrder) - {s[0].name}
  {
    hide Denote;
    NotDenoted(s[1..], s[0].name, ignoreOrder);
  }

  /** Normalizing decides whether two nodes denote the same value. */
  lemma NormalizeIsCanonical(a: Node, b: Node, ignoreOrder: bool)
    requires IsProper(a, MAX_NESTING) && IsProper(b, MAX_NESTING)
    ensures Normalize(a, ignoreOrder).node == Normalize(b, ignoreOrder).node <==>
        Denote(a, ignoreOrder) == Denote(b, ignoreOrder)
  {
    hide IsProper, IsNormal, Normalize, Denote;
    NormalizeKeepsValue(a, ignoreOrder, MAX_NESTING);
    NormalizeKeepsValue(b, ignoreOrder, MAX_NESTING);
    NormalizedIsProper(a, ignoreOrder, MAX_NESTING);
    NormalizedIsProper(b, ignoreOrder, MAX_NESTING);
    NormalizedIsNormal(a, ignoreOrder);
    NormalizedIsNormal(b, ignoreOrder);
    if Denote(a, ignoreOrder) == Denote(b, ignoreOrder) {
      SameNormal(Normalize(a, ignoreOrder).node, Normalize(b, ignoreOrder).node, ignoreOrder, MAX_NESTING);
    }
  }

  // --- texts ---

  /** The canonical text, None when the text is not one JSON value. */
  function Canonical(t: Text, ignoreOrder: bool): Option<Text> {
    match Parse(t)
    case None => None
    case Some(node) => Some(Render(Normalize(node, ignoreOrder).node, []))
  }

  method CanonicalJson(text: Text, ignoreArrayOrder: bool) returns (r: Option<Text>)
    ensures r == Canonical(text, ignoreArrayOrder)
    ensures r.Some? ==> IsLaidOut(r.value)
  {
    hide Parse, Render, Normalize, IsLaidOut;
    var parser := new Parser(text);
    var node := parser.Document();
    r := if node.None? then None else Some(Render(Normalize(node.value, ignoreArrayOrder).node, []));
    if r.Some? {
      RenderedIsLaidOut(text, ignoreArrayOrder);
    }
  }

  /** Exactly the texts of the grammar, nested at most 512 deep, have a canonical form. */
  lemma CanonicalIsTotal(t: Text, ignoreOrder: bool)
    ensures Canonical(t, ignoreOrder).Some? <==> exists before, tree, after :: Writes(t, before, tree, after)
  {
    hide Parse, Render, Normalize, Writes, NodeOf, IsTree;
    if Parse(t).Some? {
      ParseIsExact(t, Parse(t).value);
    }
    forall before, tree, after | Writes(t, before, tree, after) ensures Canonical(t, ignoreOrder).Some? {
      WritesIsTree(t, before, tree, after);
      ParseIsExact(t, NodeOf(tree));
    }
  }

  lemma WritesIsTree(t: Text, before: Text, tree: Tree, after: Text)
    requires Writes(t, before, tree, after)
    ensures IsTree(tree) && Nesting(tree) <= MAX_NESTING
  {
    hide IsTree, TreeText, Nesting;
  }

  /** Two JSON texts whose numbers are within 2^53 have one canonical form if and only if
      they denote the same value: numbers as exact rationals, objects as maps with the
      last of duplicate names, arrays as sequences, or as multisets at every depth. */
  lemma CanonicalDecides(a: Text, b: Text, ignoreOrder: bool, beforeA: Text, treeA: Tree, afterA: Text, beforeB: Text,
                         treeB: Tree, afterB: Text)
    requires Writes(a, beforeA, treeA, afterA) && Writes(b, beforeB, treeB, afterB)
    requires IsTree(treeA) && IsTree(treeB) && IsWithin(treeA, TWO_53) && IsWithin(treeB, TWO_53)
    ensures Canonical(a, ignoreOrder).Some? && Canonical(b, ignoreOrder).Some?
    ensures Canonical(a, ignoreOrder) == Canonical(b, ignoreOrder) <==>
        TreeValue(treeA, ignoreOrder) == TreeValue(treeB, ignoreOrder)
  {
    hide Parse, Render, Normalize, Writes, NodeOf, IsTree, Nesting, IsProper, TreeValue, Denote, IsWithin;
    WritesIsTree(a, beforeA, treeA, afterA);
    WritesIsTree(b, beforeB, treeB, afterB);
    var m, n := NodeOf(treeA), NodeOf(treeB);
    ParseIsExact(a, m);
    ParseIsExact(b, n);
    TreeMeans(treeA, ignoreOrder, MAX_NESTING, TWO_53);
    TreeMeans(treeB, ignoreOrder, MAX_NESTING, TWO_53);
    NormalizeIsCanonical(m, n, ignoreOrder);
    NormalizedIsProper(m, ignoreOrder, MAX_NESTING);
    NormalizedIsProper(n, ignoreOrder, MAX_NESTING);
    PrintIsInjective(Normalize(m, ignoreOrder).node, Normalize(n, ignoreOrder).node);
  }

  /** The canonical form of a canonical form is itself, given numbers within 2^53 + 1. */
  lemma CanonicalIsFixed(t: Text, ignoreOrder: bool, before: Text, tree: Tree, after: Text)
    requires Writes(t, before, tree, after) && IsTree(tree) && IsWithin(tree, TWO_53 + 1)
    ensures Canonical(t, ignoreOrder).Some?
    ensures Canonical(Canonical(t, ignoreOrder).value, ignoreOrder) == Canonical(t, ignoreOrder)
  {
    hide Parse, Render, Normalize, Writes, NodeOf, IsTree, Nesting, IsProper, TreeValue, Denote, IsWithin;
    WritesIsTree(t, before, tree, after);
    var node := NodeOf(tree);
    ParseIsExact(t, node);
    TreeMeans(tree, ignoreOrder, MAX_NESTING, TWO_53 + 1);
    var normal := Normalize(node, ignoreOrder).node;
    NormalizedIsProper(node, ignoreOrder, MAX_NESTING);
    PrintedIsParsed(normal);
    NormalizeKeepsValue(node, ignoreOrder, MAX_NESTING);
    NormalizeIsCanonical(normal, node, ignoreOrder);
  }

  /** A canonical form lists names in order, and items if their order is ignored. */
  lemma CanonicalIsInOrder(t: Text, ignoreOrder: bool, before: Text, tree: Tree, after: Text)
    requires Writes(t, before, tree, after) && IsTree(tree) && IsWithin(tree, TWO_53 + 1)
    ensures Canonical(t, ignoreOrder).Some? && Parse(Canonical(t, ignoreOrder).value).Some?
    ensures IsInOrder(Parse(Canonical(t, ignoreOrder).value).value, ignoreOrder)
  {
    hide Parse, Render, Normalize, Writes, NodeOf, IsTree, Nesting, IsProper, TreeValue, Denote, IsWithin, IsInOrder;
    WritesIsTree(t, before, tree, after);
    var node := NodeOf(tree);
    ParseIsExact(t, node);
    TreeMeans(tree, ignoreOrder, MAX_NESTING, TWO_53 + 1);
    NormalizedIsProper(node, ignoreOrder, MAX_NESTING);
    PrintedIsParsed(Normalize(node, ignoreOrder).node);
    NormalizedIsInOrder(node, ignoreOrder);
  }
}
