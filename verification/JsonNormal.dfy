/** Normalizing and printing nodes: normalize and render of
    frontend/src/lib/canonical-json.ts. */
module JsonNormal {
  import opened Sorting
  import opened JsonText
  import opened JsonNumber
  import opened JsonScanner
  import opened JsonString
  import opened JsonSyntax
  import opened NumberText

  // --- printing ---

  /** The indented text of a node. */
  function Render(node: Node, indent: Text): Text {
    var inner := indent + [SPACE, SPACE];
    match node
    case Lit(w) => w
    case Num(t) => t
    case Str(v) => Stringify(v)
    case Arr(items) =>
      if items == [] then [OPEN_BRACKET, CLOSE_BRACKET]
      else [OPEN_BRACKET, NEWLINE] + RenderItems(items, inner) + ([NEWLINE] + indent + [CLOSE_BRACKET])
    case Obj(entries) =>
      if entries == [] then [OPEN_BRACE, CLOSE_BRACE]
      else [OPEN_BRACE, NEWLINE] + RenderEntries(entries, inner) + ([NEWLINE] + indent + [CLOSE_BRACE])
  }

  function RenderItems(items: seq<Node>, inner: Text): Text {
    if items == [] then []
    else inner + Render(items[0], inner) + if |items| == 1 then []
      else [COMMA, NEWLINE] + RenderItems(items[1..], inner)
  }

  function RenderEntries(entries: seq<Entry>, inner: Text): Text {
    if entries == [] then []
    else
      inner + Stringify(entries[0].name) + [COLON, SPACE] + Render(entries[0].node, inner)
      + if |entries| == 1 then [] else [COMMA, NEWLINE] + RenderEntries(entries[1..], inner)
  }

  /** The compact text of a node. */
  function Compact(node: Node): Text {
    match node
    case Lit(w) => w
    case Num(t) => t
    case Str(v) => Stringify(v)
    case Arr(items) => [OPEN_BRACKET] + CompactItems(items) + [CLOSE_BRACKET]
    case Obj(entries) => [OPEN_BRACE] + CompactEntries(entries) + [CLOSE_BRACE]
  }

  function CompactItems(items: seq<Node>): Text {
    if items == [] then []
    else Compact(items[0]) + if |items| == 1 then [] else [COMMA] + CompactItems(items[1..])
  }

  function CompactEntries(entries: seq<Entry>): Text {
    if entries == [] then []
    else
      Stringify(entries[0].name) + [COLON] + Compact(entries[0].node)
      + if |entries| == 1 then [] else [COMMA] + CompactEntries(entries[1..])
  }

  // --- normalizing ---

  /** A normalized node and its compact text. */
  datatype Normalized = Normalized(node: Node, key: Text)

  datatype Named = Named(name: Text, child: Normalized)

  function ByKey(): Less<Normalized> {
    (x: Normalized, y: Normalized) => Precedes(x.key, y.key)
  }

  function ByName(): Less<Named> {
    (x: Named, y: Named) => Precedes(x.name, y.name)
  }

  /** The items' texts, separated by commas. */
  function JoinKeys(items: seq<Normalized>): Text {
    if items == [] then []
    else items[0].key + if |items| == 1 then [] else [COMMA] + JoinKeys(items[1..])
  }

  function JoinParts(items: seq<Named>): Text {
    if items == [] then []
    else Stringify(items[0].name) + [COLON] + items[0].child.key + if |items| == 1 then []
      else [COMMA] + JoinParts(items[1..])
  }

  function Nodes(items: seq<Normalized>): (nodes: seq<Node>)
    ensures |nodes| == |items| && forall i :: 0 <= i < |items| ==> nodes[i] == items[i].node
  {
    seq(|items|, i requires 0 <= i < |items| => items[i].node)
  }

  function Entries(items: seq<Named>): (entries: seq<Entry>)
    ensures |entries| == |items| && forall i ::
        0 <= i < |items| ==> entries[i] == Entry(items[i].name, items[i].child.node)
  {
    seq(|items|, i requires 0 <= i < |items| => Entry(items[i].name, items[i].child.node))
  }

  /** Sorts names, and array items as well when their order is ignored. */
  function Normalize(node: Node, ignoreOrder: bool): Normalized {
    match node
    case Lit(w) => Normalized(node, w)
    case Num(t) => Normalized(node, t)
    case Str(v) => Normalized(node, Stringify(v))
    case Arr(items) =>
      var all := NormalizeItems(items, ignoreOrder);
      var sorted := if ignoreOrder then Sort(all, ByKey()) else all;
      Normalized(Arr(Nodes(sorted)), [OPEN_BRACKET] + JoinKeys(sorted) + [CLOSE_BRACKET])
    case Obj(entries) =>
      var sorted := Sort(NormalizeEntries(entries, ignoreOrder), ByName());
      Normalized(Obj(Entries(sorted)), [OPEN_BRACE] + JoinParts(sorted) + [CLOSE_BRACE])
  }

  function NormalizeItems(items: seq<Node>, ignoreOrder: bool): (all: seq<Normalized>)
    ensures |all| == |items| && forall i :: 0 <= i < |items| ==> all[i] == Normalize(items[i], ignoreOrder)
  {
    if items == [] then [] else [Normalize(items[0], ignoreOrder)] + NormalizeItems(items[1..], ignoreOrder)
  }

  function NormalizeEntries(entries: seq<Entry>, ignoreOrder: bool): (all: seq<Named>)
    ensures |all| == |entries|
    ensures forall i :: 0 <= i < |entries| ==> all[i] == Named(entries[i].name, Normalize(entries[i].node, ignoreOrder))
  {
    if entries == [] then []
    else [Named(entries[0].name, Normalize(entries[0].node, ignoreOrder))] + NormalizeEntries(entries[1..], ignoreOrder)
  }

  // --- what nodes look like ---

  /** The literal of a normalized number text. */
  function NumberOf(t: Text): Literal {
    var r := ReadNumber(t, false);
    if r.Scanned? then r.token else ZERO_LITERAL
  }

  predicate IsNumberText(t: Text) {
    IsNormalText(t, NumberOf(t))
  }

  predicate AreDistinct(entries: seq<Entry>) {
    forall i, j :: 0 <= i < j < |entries| ==> entries[i].name != entries[j].name
  }

  /** A node the parser can give, nested at most `depth` deep. */
  ghost predicate IsProper(node: Node, depth: nat) {
    match node
    case Lit(w) => w == NULL || w == TRUE || w == FALSE
    case Num(t) => IsNumberText(t)
    case Str(v) => true
    case Arr(items) => items != [] ==> depth > 0 && forall i :: 0 <= i < |items| ==> IsProper(items[i], depth - 1)
    case Obj(entries) =>
      && AreDistinct(entries)
      && (entries != [] ==> depth > 0 && forall i :: 0 <= i < |entries| ==> IsProper(entries[i].node, depth - 1))
  }

  /** What normalizing brings about: names in order, and items in the order of their texts. */
  ghost predicate IsNormal(node: Node, ignoreOrder: bool) {
    match node
    case Arr(items) =>
      && (forall i :: 0 <= i < |items| ==> IsNormal(items[i], ignoreOrder))
      && (ignoreOrder ==> forall i, j :: 0 <= i < j < |items| ==> !Precedes(Compact(items[j]), Compact(items[i])))
    case Obj(entries) =>
      && (forall i :: 0 <= i < |entries| ==> IsNormal(entries[i].node, ignoreOrder))
      && (forall i, j :: 0 <= i < j < |entries| ==> !Precedes(entries[j].name, entries[i].name))
    case _ => true
  }

  // --- normalized nodes ---

  lemma KeysAreOrders()
    ensures IsOrder(ByKey()) && IsOrder(ByName())
  {
    hide Precedes;
    forall a, b, c | !ByKey()(c, b) && !ByKey()(b, a) ensures !ByKey()(c, a) {
      PrecedesIsTransitive(a.key, b.key, c.key);
    }
    forall a, b, c | !ByName()(c, b) && !ByName()(b, a) ensures !ByName()(c, a) {
      PrecedesIsTransitive(a.name, b.name, c.name);
    }
    forall a, b | ByKey()(a, b) ensures !ByKey()(b, a) {
      PrecedesIsTotal(a.key, b.key);
    }
    forall a, b | ByName()(a, b) ensures !ByName()(b, a) {
      PrecedesIsTotal(a.name, b.name);
    }
  }

  /** The key is the compact text of the node, whatever order the items have. */
  lemma {:induction false} KeyIsCompact(node: Node, ignoreOrder: bool)
    ensures Normalize(node, ignoreOrder).key == Compact(Normalize(node, ignoreOrder).node)
  {
    match node
    case Arr(items) =>
      var all := NormalizeItems(items, ignoreOrder);
      forall i | 0 <= i < |items| ensures all[i].key == Compact(all[i].node) {
        KeyIsCompact(items[i], ignoreOrder);
      }
      var sorted := if ignoreOrder then Sort(all, ByKey()) else all;
      SameElements(all, sorted);
      JoinedKeys(sorted);
    case Obj(entries) =>
      var all := NormalizeEntries(entries, ignoreOrder);
      forall i | 0 <= i < |entries| ensures all[i].child.key == Compact(all[i].child.node) {
        KeyIsCompact(entries[i].node, ignoreOrder);
      }
      var sorted := Sort(all, ByName());
      SameElements(all, sorted);
      JoinedParts(sorted);
    case _ =>
  }

  lemma {:induction false} JoinedKeys(items: seq<Normalized>)
    requires forall i :: 0 <= i < |items| ==> items[i].key == Compact(items[i].node)
    ensures JoinKeys(items) == CompactItems(Nodes(items))
  {
    hide Compact;
    if items != [] {
      JoinedKeys(items[1..]);
      assert Nodes(items)[1..] == Nodes(items[1..]);
    }
  }

  lemma {:induction false} JoinedParts(items: seq<Named>)
    requires forall i :: 0 <= i < |items| ==> items[i].child.key == Compact(items[i].child.node)
    ensures JoinParts(items) == CompactEntries(Entries(items))
  {
    hide Compact, Stringify;
    if items != [] {
      JoinedParts(items[1..]);
      assert Entries(items)[1..] == Entries(items[1..]);
    }
  }

  /** Normalizing keeps nodes proper. */
  lemma {:induction false} NormalizedIsProper(node: Node, ignoreOrder: bool, depth: nat)
    requires IsProper(node, depth)
    ensures IsProper(Normalize(node, ignoreOrder).node, depth)
    decreases node
  {
    hide IsNumberText, JoinKeys, JoinParts, Stringify, Sort;
    match node
    case Arr(items) =>
      var all := NormalizeItems(items, ignoreOrder);
      forall i | 0 <= i < |items| ensures IsProper(all[i].node, depth - 1) {
        NormalizedIsProper(items[i], ignoreOrder, depth - 1);
      }
      ItemsAreProper(all, if ignoreOrder then Sort(all, ByKey()) else all, depth);
    case Obj(entries) =>
      var all := NormalizeEntries(entries, ignoreOrder);
      forall i | 0 <= i < |entries| ensures IsProper(all[i].child.node, depth - 1) {
        NormalizedIsProper(entries[i].node, ignoreOrder, depth - 1);
      }
      EntriesAreProper(all, Sort(all, ByName()), depth);
    case _ =>
  }

  lemma ItemsAreProper(all: seq<Normalized>, sorted: seq<Normalized>, depth: nat)
    requires multiset(sorted) == multiset(all)
    requires all != [] ==> depth > 0 && forall i :: 0 <= i < |all| ==> IsProper(all[i].node, depth - 1)
    ensures IsProper(Arr(Nodes(sorted)), depth)
  {
    SameElements(all, sorted);
    forall i | 0 <= i < |sorted| ensures depth > 0 && IsProper(Nodes(sorted)[i], depth - 1) {
      var j :| 0 <= j < |all| && all[j] == sorted[i];
    }
  }

  lemma EntriesAreProper(all: seq<Named>, sorted: seq<Named>, depth: nat)
    requires multiset(sorted) == multiset(all)
    requires forall i, j :: 0 <= i < j < |all| ==> all[i].name != all[j].name
    requires all != [] ==> depth > 0 && forall i :: 0 <= i < |all| ==> IsProper(all[i].child.node, depth - 1)
    ensures IsProper(Obj(Entries(sorted)), depth)
  {
    SameElements(all, sorted);
    SortKeepsNames(all, sorted);
    forall i | 0 <= i < |sorted| ensures depth > 0 && IsProper(Entries(sorted)[i].node, depth - 1) {
      var j :| 0 <= j < |all| && all[j] == sorted[i];
    }
  }

  lemma SortKeepsNames(all: seq<Named>, sorted: seq<Named>)
    requires multiset(sorted) == multiset(all)
    requires forall i, j :: 0 <= i < j < |all| ==> all[i].name != all[j].name
    ensures forall i, j :: 0 <= i < j < |sorted| ==> sorted[i].name != sorted[j].name
  {
    SameMultiset(all, sorted);
    forall i, j | 0 <= i < j < |sorted| ensures sorted[i].name != sorted[j].name {
      assert sorted[i] in all && sorted[j] in all && sorted[i] != sorted[j];
    }
  }

  /** Normalizing sorts. */
  lemma {:induction false} NormalizedIsNormal(node: Node, ignoreOrder: bool)
    ensures IsNormal(Normalize(node, ignoreOrder).node, ignoreOrder)
    decreases node
  {
    hide Compact, JoinKeys, JoinParts, Stringify, Sort;
    match node
    case Arr(items) =>
      var all := NormalizeItems(items, ignoreOrder);
      forall i | 0 <= i < |items| ensures IsNormal(all[i].node, ignoreOrder) && all[i].key == Compact(all[i].node) {
        NormalizedIsNormal(items[i], ignoreOrder);
        KeyIsCompact(items[i], ignoreOrder);
      }
      ItemsAreNormal(all, ignoreOrder);
    case Obj(entries) =>
      var all := NormalizeEntries(entries, ignoreOrder);
      forall i | 0 <= i < |entries| ensures IsNormal(all[i].child.node, ignoreOrder) {
        NormalizedIsNormal(entries[i].node, ignoreOrder);
      }
      EntriesAreNormal(all, ignoreOrder);
    case _ =>
  }

  lemma ItemsAreNormal(all: seq<Normalized>, ignoreOrder: bool)
    requires forall i :: 0 <= i < |all| ==> IsNormal(all[i].node, ignoreOrder) && all[i].key == Compact(all[i].node)
    ensures IsNormal(Arr(Nodes(if ignoreOrder then Sort(all, ByKey()) else all)), ignoreOrder)
  {
    hide Compact, Sort, Sorted, IsOrder, Precedes;
    if ignoreOrder {
      var sorted := Sort(all, ByKey());
      KeysAreOrders();
      SortSorts(all, ByKey());
      ItemsInOrder(all, sorted, ignoreOrder);
      forall i, j | 0 <= i < j < |sorted| ensures !Precedes(Compact(sorted[j].node), Compact(sorted[i].node)) {
        SortedPairs(sorted, ByKey(), i, j);
      }
    }
  }

  lemma ItemsInOrder(all: seq<Normalized>, sorted: seq<Normalized>, ignoreOrder: bool)
    requires multiset(sorted) == multiset(all)
    requires forall i :: 0 <= i < |all| ==> IsNormal(all[i].node, ignoreOrder) && all[i].key == Compact(all[i].node)
    ensures forall i ::
        0 <= i < |sorted| ==> IsNormal(sorted[i].node, ignoreOrder) && sorted[i].key == Compact(sorted[i].node)
  {
    hide Compact, IsNormal;
    SameElements(all, sorted);
    forall i | 0 <= i < |sorted| ensures IsNormal(sorted[i].node, ignoreOrder)
      && sorted[i].key == Compact(sorted[i].node) {
      var j :| 0 <= j < |all| && all[j] == sorted[i];
    }
  }

  lemma EntriesAreNormal(all: seq<Named>, ignoreOrder: bool)
    requires forall i :: 0 <= i < |all| ==> IsNormal(all[i].child.node, ignoreOrder)
    ensures IsNormal(Obj(Entries(Sort(all, ByName()))), ignoreOrder)
  {
    hide Sort, Sorted, IsOrder, Precedes;
    var sorted := Sort(all, ByName());
    KeysAreOrders();
    SameElements(all, sorted);
    SortSorts(all, ByName());
    forall i | 0 <= i < |sorted| ensures IsNormal(sorted[i].child.node, ignoreOrder) {
      var j :| 0 <= j < |all| && all[j] == sorted[i];
    }
    forall i, j | 0 <= i < j < |sorted| ensures !Precedes(sorted[j].name, sorted[i].name) {
      SortedPairs(sorted, ByName(), i, j);
    }
  }
}
