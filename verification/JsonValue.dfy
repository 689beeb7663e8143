/** The values JSON texts denote, and that normal nodes stand for them one to one. */
module JsonValue {
  import opened Sorting
  import opened JsonText
  import opened JsonDouble
  import opened JsonNumber
  import opened NumberText
  import opened JsonScanner
  import opened JsonString
  import opened JsonSyntax
  import opened JsonNormal
  import opened JsonLayout

  /** Numbers are exact rationals, objects are maps; an array is a multiset when its order is ignored. */
  datatype Value =
    | Constant(word: Text)
    | Rational(number: real)
    | Characters(text: Text)
    | List(items: seq<Value>)
    | Bag(bag: multiset<Value>)
    | Record(fields: map<Text, Value>)

  // --- what a text denotes ---

  ghost function ArrayValue(items: seq<Value>, ignoreOrder: bool): Value {
    if ignoreOrder then Bag(multiset(items)) else List(items)
  }

  /** The value a text of the grammar denotes; of duplicate names the last counts. */
  ghost function TreeValue(t: Tree, ignoreOrder: bool): Value
    requires IsTree(t)
  {
    match t
    case Word(w) => Constant(w)
    case Number(l) => Rational(ValueOf(l))
    case StringOf(token) => Characters(TokenUnits(token))
    case Array(blank, items) => ArrayValue(ItemValues(items, ignoreOrder), ignoreOrder)
    case Object(blank, members) => Record(Fields(members, ignoreOrder))
  }

  ghost function ItemValues(items: seq<Padded>, ignoreOrder: bool): seq<Value>
    requires AreItems(items)
  {
    if items == [] then [] else [TreeValue(items[0].value, ignoreOrder)] + ItemValues(items[1..], ignoreOrder)
  }

  ghost function Fields(members: seq<Member>, ignoreOrder: bool): map<Text, Value>
    requires AreMembers(members)
  {
    if members == [] then map[]
    else
      var m := members[0];
      map[TokenUnits(m.name) := TreeValue(m.value.value, ignoreOrder)] + Fields(members[1..], ignoreOrder)
  }

  /** Every number of the tree is within n. */
  ghost predicate IsWithin(t: Tree, n: nat)
    requires IsTree(t)
    decreases t, 0
  {
    match t
    case Number(l) => Within(l, n)
    case Array(blank, items) => AreWithin(items, n)
    case Object(blank, members) => AreMembersWithin(members, n)
    case _ => true
  }

  ghost predicate AreWithin(items: seq<Padded>, n: nat)
    requires AreItems(items)
    decreases items, 0
  {
    items != [] ==> IsWithin(items[0].value, n) && AreWithin(items[1..], n)
  }

  ghost predicate AreMembersWithin(members: seq<Member>, n: nat)
    requires AreMembers(members)
    decreases members, 0
  {
    members != [] ==> IsWithin(members[0].value.value, n) && AreMembersWithin(members[1..], n)
  }

  // --- what a node denotes ---

  ghost function Denote(node: Node, ignoreOrder: bool): Value {
    match node
    case Lit(w) => Constant(w)
    case Num(t) => Rational(if IsLoose(NumberOf(t)) then ValueOf(NumberOf(t)) else 0.0)
    case Str(v) => Characters(v)
    case Arr(items) => ArrayValue(DenoteItems(items, ignoreOrder), ignoreOrder)
    case Obj(entries) => Record(DenoteEntries(entries, ignoreOrder))
  }

  ghost function DenoteItems(items: seq<Node>, ignoreOrder: bool): (values: seq<Value>)
    ensures |values| == |items| && forall i :: 0 <= i < |items| ==> values[i] == Denote(items[i], ignoreOrder)
  {
    if items == [] then [] else [Denote(items[0], ignoreOrder)] + DenoteItems(items[1..], ignoreOrder)
  }

  ghost function DenoteEntries(entries: seq<Entry>, ignoreOrder: bool): map<Text, Value> {
    if entries == [] then map[]
    else map[entries[0].name := Denote(entries[0].node, ignoreOrder)] + DenoteEntries(entries[1..], ignoreOrder)
  }

  // --- parsed nodes ---

  /** A parsed node is proper if its numbers are within 2^53 + 1, and denotes what its
      text denotes if they are within 2^53. */
  lemma {:induction false} TreeMeans(t: Tree, ignoreOrder: bool, depth: nat, n: nat)
    requires IsTree(t) && Nesting(t) <= depth && IsWithin(t, n) && n <= TWO_53 + 1
    ensures IsProper(NodeOf(t), depth)
    ensures n <= TWO_53 ==> Denote(NodeOf(t), ignoreOrder) == TreeValue(t, ignoreOrder)
    decreases t, 1
  {
    hide NormalizeNumber, LiteralText, NormalForm, IsLiteral, ValueOf, NumberOf, SetAll, IsToken, TokenUnits, AreItems,
      AreMembers,
      NodesOf, EntriesOf, ItemsNesting, MembersNesting, DenoteItems, DenoteEntries, ItemValues, Fields, IsNumberText,
        IsLoose, Within,
      AreWithin, AreMembersWithin;
    match t
    case Number(l) => NumberDenotes(l, n);
    case Array(blank, items) => ItemsMean(items, ignoreOrder, depth, n);
    case Object(blank, members) =>
      MembersMean(members, ignoreOrder, depth, n);
      SetAllKeeps([], EntriesOf(members), ignoreOrder, depth);
      NoEntries(ignoreOrder, EntriesOf(members));
    case _ =>
  }

  lemma NumberDenotes(l: Literal, n: nat)
    requires IsLiteral(l) && Within(l, n) && n <= TWO_53 + 1
    ensures var t := NormalizeNumber(LiteralText(l)); IsNumberText(t) && IsLoose(NumberOf(t))
    ensures n <= TWO_53 ==> ValueOf(NumberOf(NormalizeNumber(LiteralText(l)))) == ValueOf(l)
  {
    WithinMore(l, n, TWO_53 + 1);
    hide LiteralText, NormalForm, NormalText, ValueOf, ReadNumber, NormalizeNumber, Within;
    NormalizesLiteral(l);
    var m := NormalizesOnce(l);
    ReadsNumber(m, [], false);
    assert LiteralText(m) + [] == LiteralText(m);
    if n <= TWO_53 {
      WithinFits(l, n);
      NormalTextIsExact(l);
      NormalValue(l);
      TextIsLiteral(m, NormalForm(l));
    }
  }

  lemma {:induction false} ItemsMean(items: seq<Padded>, ignoreOrder: bool, depth: nat, n: nat)
    requires AreItems(items) && ItemsNesting(items) <= depth && AreWithin(items, n) && n <= TWO_53 + 1
    ensures AreProperItems(NodesOf(items), depth)
    ensures n <= TWO_53 ==> DenoteItems(NodesOf(items), ignoreOrder) == ItemValues(items, ignoreOrder)
    decreases items, 0
  {
    hide NodeOf, IsTree, Nesting, IsProper, TreeValue, Denote, IsWithin;
    if items != [] {
      TreeMeans(items[0].value, ignoreOrder, depth - 1, n);
      ItemsMean(items[1..], ignoreOrder, depth, n);
      assert NodesOf(items)[1..] == NodesOf(items[1..]);
      forall i | 0 <= i < |items| ensures IsProper(NodesOf(items)[i], depth - 1) {
        assert i > 0 ==> NodesOf(items)[i] == NodesOf(items[1..])[i - 1];
      }
    }
  }

  lemma {:induction false} MembersMean(members: seq<Member>, ignoreOrder: bool, depth: nat, n: nat)
    requires AreMembers(members) && MembersNesting(members) <= depth && AreMembersWithin(members, n) && n <= TWO_53 + 1
    ensures AreProperEntries(EntriesOf(members), depth)
    ensures n <= TWO_53 ==> DenoteEntries(EntriesOf(members), ignoreOrder) == Fields(members, ignoreOrder)
    decreases members, 0
  {
    hide NodeOf, IsTree, Nesting, IsProper, TreeValue, Denote, TokenUnits, IsToken, IsWithin;
    if members != [] {
      TreeMeans(members[0].value.value, ignoreOrder, depth - 1, n);
      MembersMean(members[1..], ignoreOrder, depth, n);
      assert EntriesOf(members)[1..] == EntriesOf(members[1..]);
      forall i | 0 <= i < |members| ensures IsProper(EntriesOf(members)[i].node, depth - 1) {
        assert i > 0 ==> EntriesOf(members)[i] == EntriesOf(members[1..])[i - 1];
      }
    }
  }

  lemma NoEntries(ignoreOrder: bool, more: seq<Entry>)
    ensures DenoteEntries([], ignoreOrder) + DenoteEntries(more, ignoreOrder) == DenoteEntries(more, ignoreOrder)
    ensures AreDistinct([])
  {
  }

  /** Setting a name in distinct entries keeps them distinct. */
  lemma {:induction false} SetEntryKeeps(entries: seq<Entry>, name: Text, node: Node, depth: nat)
    requires AreDistinct(entries) && AreProperEntries(entries, depth) && depth > 0 && IsProper(node, depth - 1)
    ensures
      var r := SetEntry(entries, name, node);
      && AreDistinct(r) && AreProperEntries(r, depth)
      && (forall i ::
        0 <= i < |r| ==> r[i].name == name || exists j :: 0 <= j < |entries| && entries[j].name == r[i].name)
  {
    hide IsProper;
    var r := SetEntry(entries, name, node);
    if entries != [] && entries[0].name != name {
      SetEntryKeeps(entries[1..], name, node, depth);
      var rest := SetEntry(entries[1..], name, node);
      assert r == [entries[0]] + rest;
      forall j | 0 <= j < |rest| ensures rest[j].name != entries[0].name {
        if rest[j].name != name {
          var k :| 0 <= k < |entries[1..]| && entries[1..][k].name == rest[j].name;
          assert entries[1..][k] == entries[k + 1];
        }
      }
      forall i | 0 <= i < |r| && r[i].name != name ensures exists j ::
        0 <= j < |entries| && entries[j].name == r[i].name {
        if i == 0 {
          assert entries[0].name == r[0].name;
        } else {
          var k :| 0 <= k < |entries[1..]| && entries[1..][k].name == rest[i - 1].name;
          assert entries[k + 1].name == r[i].name;
        }
      }
    }
  }

  /** It updates what they denote. */
  lemma {:induction false} SetEntryDenotes(entries: seq<Entry>, name: Text, node: Node, ignoreOrder: bool)
    requires AreDistinct(entries)
    ensures DenoteEntries(SetEntry(entries, name, node), ignoreOrder) ==
        DenoteEntries(entries, ignoreOrder)[name := Denote(node, ignoreOrder)]
  {
    hide Denote;
    var r, v := SetEntry(entries, name, node), Denote(node, ignoreOrder);
    if entries == [] {
      assert r[1..] == [];
      UpdateThenMore(map[], name, v, map[]);
    } else {
      var e, rest := entries[0], DenoteEntries(entries[1..], ignoreOrder);
      if e.name == name {
        assert r[1..] == entries[1..];
        NotDenoted(entries[1..], name, ignoreOrder);
      } else {
        SetEntryDenotes(entries[1..], name, node, ignoreOrder);
        assert r[1..] == SetEntry(entries[1..], name, node);
      }
      UpdateBehind(e.name, Denote(e.node, ignoreOrder), rest, name, v);
    }
  }

  lemma UpdateBehind(first: Text, u: Value, rest: map<Text, Value>, name: Text, v: Value)
    ensures first != name ==> (map[first := u] + rest)[name := v] == map[first := u] + rest[name := v]
    ensures first == name && name !in rest ==> (map[first := u] + rest)[name := v] == map[name := v] + rest
  {
  }

  lemma {:induction false} NotDenoted(entries: seq<Entry>, name: Text, ignoreOrder: bool)
    requires forall i :: 0 <= i < |entries| ==> entries[i].name != name
    ensures name !in DenoteEntries(entries, ignoreOrder)
  {
    hide Denote;
    if entries != [] {
      NotDenoted(entries[1..], name, ignoreOrder);
    }
  }

  lemma {:induction false} SetAllKeeps(entries: seq<Entry>, more: seq<Entry>, ignoreOrder: bool, depth: nat)
    requires AreDistinct(entries) && AreProperEntries(entries, depth) && AreProperEntries(more, depth)
    ensures AreDistinct(SetAll(entries, more)) && AreProperEntries(SetAll(entries, more), depth)
    ensures DenoteEntries(SetAll(entries, more), ignoreOrder) ==
        DenoteEntries(entries, ignoreOrder) + DenoteEntries(more, ignoreOrder)
    decreases |more|
  {
    hide IsProper, Denote, SetEntry, AreDistinct;
    if more == [] {
      assert DenoteEntries(entries, ignoreOrder) + map[] == DenoteEntries(entries, ignoreOrder);
    } else {
      var e := more[0];
      var set_ := SetEntry(entries, e.name, e.node);
      SetEntryKeeps(entries, e.name, e.node, depth);
      SetEntryDenotes(entries, e.name, e.node, ignoreOrder);
      SetAllKeeps(set_, more[1..], ignoreOrder, depth);
      UpdateThenMore(DenoteEntries(entries, ignoreOrder), e.name, Denote(e.node, ignoreOrder),
                     DenoteEntries(more[1..], ignoreOrder));
    }
  }

  lemma UpdateThenMore(m: map<Text, Value>, name: Text, v: Value, more: map<Text, Value>)
    ensures m[name := v] + more == m + (map[name := v] + more)
  {
  }

  // --- normalizing keeps the value ---

  lemma {:induction false} NormalizeKeepsValue(node: Node, ignoreOrder: bool, depth: nat)
    requires IsProper(node, depth)
    ensures Denote(Normalize(node, ignoreOrder).node, ignoreOrder) == Denote(node, ignoreOrder)
    decreases node
  {
    hide JoinKeys, JoinParts, Stringify, Sort, NumberOf, ValueOf, IsLoose, IsNumberText, DenoteItems, DenoteEntries;
    match node
    case Arr(items) =>
      var all := NormalizeItems(items, ignoreOrder);
      forall i | 0 <= i < |items| ensures Denote(all[i].node, ignoreOrder) == Denote(items[i], ignoreOrder) {
        NormalizeKeepsValue(items[i], ignoreOrder, depth - 1);
      }
      assert DenoteItems(Nodes(all), ignoreOrder) == DenoteItems(items, ignoreOrder);
      if ignoreOrder {
        SameBag(all, Sort(all, ByKey()), ignoreOrder);
      }
    case Obj(entries) =>
      var all := NormalizeEntries(entries, ignoreOrder);
      forall i | 0 <= i < |entries| ensures Denote(all[i].child.node, ignoreOrder) ==
        Denote(entries[i].node, ignoreOrder) {
        NormalizeKeepsValue(entries[i].node, ignoreOrder, depth - 1);
      }
      EntriesKeepValue(all, Sort(all, ByName()), entries, ignoreOrder);
    case _ =>
  }

  lemma EntriesKeepValue(all: seq<Named>, sorted: seq<Named>, entries: seq<Entry>, ignoreOrder: bool)
    requires multiset(sorted) == multiset(all) && |all| == |entries| && AreDistinct(entries)
    requires forall i :: 0 <= i < |all| ==> all[i].name == entries[i].name
    requires forall i ::
        0 <= i < |all| ==> Denote(all[i].child.node, ignoreOrder) == Denote(entries[i].node, ignoreOrder)
    ensures DenoteEntries(Entries(sorted), ignoreOrder) == DenoteEntries(entries, ignoreOrder)
  {
    hide Denote, DenoteEntries;
    SameElements(all, sorted);
    SameElements(sorted, all);
    forall i, j | 0 <= i < j < |all| ensures all[i].name != all[j].name {
      assert entries[i].name != entries[j].name;
    }
    SortKeepsNames(all, sorted);
    var r := Entries(sorted);
    forall i, j | 0 <= i < j < |r| ensures r[i].name != r[j].name {
      assert sorted[i].name != sorted[j].name;
    }
    forall i | 0 <= i < |r| ensures HasName(entries, r[i].name) {
      var j :| 0 <= j < |all| && all[j] == sorted[i];
      assert entries[j].name == r[i].name;
    }
    forall j | 0 <= j < |entries| ensures HasEntry(r, entries[j], ignoreOrder) {
      var i :| 0 <= i < |sorted| && sorted[i] == all[j];
      assert SameEntry(r[i], entries[j], ignoreOrder);
    }
    SameFields(r, entries, ignoreOrder);
  }

  /** The values of nodes, in no order. */
  ghost function ValuesOf(s: seq<Normalized>, ignoreOrder: bool): multiset<Value> {
    multiset(DenoteItems(Nodes(s), ignoreOrder))
  }

  /** The values of nodes in another order are the same multiset. */
  lemma {:induction false} SameBag(s: seq<Normalized>, t: seq<Normalized>, ignoreOrder: bool)
    requires multiset(s) == multiset(t)
    ensures ValuesOf(s, ignoreOrder) == ValuesOf(t, ignoreOrder)
  {
    hide *;
    SameElements(t, s);
    if s == [] {
      assert t == [];
    } else {
      var k :| 0 <= k < |t| && t[k] == s[0];
      SameWithout(s, t, k);
      SameBag(s[1..], t[..k] + t[k + 1..], ignoreOrder);
      WithoutFirst(s);
      BagWithout(s, 0, ignoreOrder);
      BagWithout(t, k, ignoreOrder);
    }
  }

  lemma WithoutFirst<T>(s: seq<T>)
    requires s != []
    ensures s[..0] + s[1..] == s[1..]
  {
  }

  lemma SameWithout<T>(s: seq<T>, t: seq<T>, k: nat)
    requires multiset(s) == multiset(t) && s != [] && k < |t| && t[k] == s[0]
    ensures multiset(s[1..]) == multiset(t[..k] + t[k + 1..])
  {
    assert s == [s[0]] + s[1..] && t == t[..k] + [t[k]] + t[k + 1..];
    assert multiset(s[1..]) == multiset(s) - multiset{s[0]};
    assert multiset(t[..k] + t[k + 1..]) == multiset(t) - multiset{t[k]};
  }

  lemma BagWithout(s: seq<Normalized>, k: nat, ignoreOrder: bool)
    requires k < |s|
    ensures ValuesOf(s, ignoreOrder) == ValuesOf(s[..k] + s[k + 1..], ignoreOrder)
        + multiset{Denote(s[k].node, ignoreOrder)}
  {
    hide Denote;
    var all, rest := DenoteItems(Nodes(s), ignoreOrder), DenoteItems(Nodes(s[..k] + s[k + 1..]), ignoreOrder);
    assert rest == all[..k] + all[k + 1..];
    BagSplits(all, k);
  }

  lemma BagSplits<T>(s: seq<T>, k: nat)
    requires k < |s|
    ensures multiset(s) == multiset(s[..k] + s[k + 1..]) + multiset{s[k]}
  {
    assert s == s[..k] + [s[k]] + s[k + 1..];
  }

  /** Each entry's name denotes its value, given distinct names. */
  lemma {:induction false} FieldOf(entries: seq<Entry>, i: nat, ignoreOrder: bool)
    requires AreDistinct(entries) && i < |entries|
    ensures entries[i].name in DenoteEntries(entries, ignoreOrder)
    ensures DenoteEntries(entries, ignoreOrder)[entries[i].name] == Denote(entries[i].node, ignoreOrder)
  {
    hide Denote;
    if i == 0 {
      NotDenoted(entries[1..], entries[0].name, ignoreOrder);
    } else {
      FieldOf(entries[1..], i - 1, ignoreOrder);
    }
  }

  lemma {:induction false} FieldComesFrom(entries: seq<Entry>, name: Text, ignoreOrder: bool) returns (i: nat)
    requires name in DenoteEntries(entries, ignoreOrder)
    ensures i < |entries| && entries[i].name == name
  {
    hide Denote;
    if name in DenoteEntries(entries[1..], ignoreOrder) {
      i := FieldComesFrom(entries[1..], name, ignoreOrder);
      i := i + 1;
    } else {
      i := 0;
    }
  }

  ghost predicate SameEntry(a: Entry, b: Entry, ignoreOrder: bool) {
    a.name == b.name && Denote(a.node, ignoreOrder) == Denote(b.node, ignoreOrder)
  }

  ghost predicate HasName(entries: seq<Entry>, name: Text) {
    exists j :: 0 <= j < |entries| && entries[j].name == name
  }

  ghost predicate HasEntry(entries: seq<Entry>, e: Entry, ignoreOrder: bool) {
    exists i :: 0 <= i < |entries| && SameEntry(entries[i], e, ignoreOrder)
  }

  lemma SameFields(a: seq<Entry>, b: seq<Entry>, ignoreOrder: bool)
    requires AreDistinct(a) && AreDistinct(b)
    requires forall i :: 0 <= i < |a| ==> HasName(b, a[i].name)
    requires forall j :: 0 <= j < |b| ==> HasEntry(a, b[j], ignoreOrder)
    ensures DenoteEntries(a, ignoreOrder) == DenoteEntries(b, ignoreOrder)
  {
    hide Denote, DenoteEntries;
    var m, n := DenoteEntries(a, ignoreOrder), DenoteEntries(b, ignoreOrder);
    forall name | name in m ensures name in n {
      var i := FieldComesFrom(a, name, ignoreOrder);
      var j :| 0 <= j < |b| && b[j].name == a[i].name;
      FieldOf(b, j, ignoreOrder);
    }
    forall name | name in n ensures name in m && m[name] == n[name] {
      var j := FieldComesFrom(b, name, ignoreOrder);
      var i :| 0 <= i < |a| && SameEntry(a[i], b[j], ignoreOrder);
      FieldOf(a, i, ignoreOrder);
      FieldOf(b, j, ignoreOrder);
    }
  }
}
