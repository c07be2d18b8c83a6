/**
 * Rules recorded by `collect`, tabulated and generalized: when the generalized table rewrites a tree as the plain one,
 * when the plain one fits, and so when the old tree is turned into the new one.
 */
module GeneralizeDerived {
  import opened Prelude
  import opened BraceTree
  import opened Lcs
  import opened Edits
  import opened UpgradeRules
  import opened UpgradeEngine
  import opened Generalize

  function RowOf(item: Item, count: nat): Row
    requires item.Derived?
  {
    Row(item.parent, item.tag, item.len, item.newTag, item.newLen, item.sets, item.inserts, count)
  }

  lemma TagIsTag(node: Node)
    ensures IsTag(Tag(node))
  {
  }

  lemma {:induction false} PickedClimbs(full: seq<string>, at: seq<nat>, lo: nat)
    requires Ascending(at, lo, |full|) && Below(at, |full|)
    ensures Climbs(PickAt(full, at), lo)
    decreases |at|
  {
    if at != [] {
      PickedClimbs(full, at[1..], at[0] + 1);
      assert PickAt(full, at)[1..] == PickAt(full, at[1..]);
    }
  }

  /** When nothing is inserted before the first member, the first member goes to the first place. */
  lemma FirstStaysFirst(src: Node, dst: Node, e: Script, to: seq<nat>)
    requires IsEdit(src, dst, e, to) && src.items != [] && 0 !in e.inserts
    ensures dst.items != [] && to[0] == 0
  {
    AscendingBounds(to, 0, |dst.items|);
    assert to[0] in to;
    assert 0 in to;
    AscendingHead(to, 0, |dst.items|);
  }

  /** Setting the first member of an append rule gives the new first member, when both are texts. */
  lemma HeadIsSet(src: Node, dst: Node, e: Script, to: seq<nat>)
    requires IsEdit(src, dst, e, to) && src.items != [] && 0 !in e.inserts && dst.items != []
    requires src.items[0].Leaf? && dst.items[0].Leaf? && OnlyHead(SetsOf(src.items, dst.items, e.changed))
    ensures SetHead(SetsOf(src.items, dst.items, e.changed), src.items[0]) == dst.items[0]
  {
    var ka, kb := Renders(src.items), Renders(dst.items);
    FirstStaysFirst(src, dst, e, to);
    assert ((0 + 0, to[0]) in Walk(ka, kb, 0, 0)) != ((0 + 0, to[0]) in e.changed);
    HeadSets(src.items, SetsOf(src.items, dst.items, e.changed));
    if (0, 0) in e.changed {
      SetLands(src.items, dst.items, e.changed, src.items, 0, 0);
    } else {
      WalkIsCommon(ka, kb, 0, 0);
      SetSpares(src.items, dst.items, e.changed, src.items, 0);
      RendersAt(src.items, 0);
      RendersAt(dst.items, 0);
    }
  }

  lemma {:induction false} PartsAddUp(inserts: seq<nat>, to: seq<nat>, j: nat, m: nat)
    requires j <= m && Partitions(inserts, to, j, m)
    ensures |inserts| + |to| == m - j
    decreases m - j
  {
    if j < m {
      PartitionSplit(inserts, to, j, m);
      if j in inserts {
        PartsAddUp(inserts[1..], to, j + 1, m);
      } else {
        PartsAddUp(inserts, to[1..], j + 1, m);
      }
    }
  }

  /** What is true of every rule recorded: tags are tags, insertions run upwards, the tag named is set, lengths add up. */
  ghost predicate RowOk(r: Row) {
    TagsOk(r) && Upwards(r) && HeadOk(r) && r.newLen == r.len + |r.inserts|
  }

  lemma OwnRowOk(src: Node, dst: Node, parent: Option<string>, e: Script, to: seq<nat>, count: nat)
    requires IsEdit(src, dst, e, to) && IsTag(parent)
    ensures var r := Row(parent, Tag(src), |src.items|, Tag(dst), |dst.items|,
                         SetsOf(src.items, dst.items, e.changed), PickAt(Renders(dst.items), e.inserts), count);
            RowOk(r)
  {
    var kb := Renders(dst.items);
    PickedClimbs(kb, e.inserts, 0);
    PartsAddUp(e.inserts, to, 0, |kb|);
    var r := Row(parent, Tag(src), |src.items|, Tag(dst), |dst.items|,
                 SetsOf(src.items, dst.items, e.changed), PickAt(kb, e.inserts), count);
    if Appended(r) && r.tag.Some? && r.newTag.Some? {
      forall k | 0 <= k < |e.inserts| ensures e.inserts[k] != 0 {
        assert r.inserts[k].0 >= r.len;
      }
      HeadIsSet(src, dst, e, to);
    }
  }

  ghost predicate ItemsOk(items: seq<Item>) {
    forall k, count: nat :: 0 <= k < |items| && items[k].Derived? ==>
      RowOk(RowOf(items[k], count))
  }

  lemma ItemsOkConcat(a: seq<Item>, b: seq<Item>)
    requires ItemsOk(a) && ItemsOk(b)
    ensures ItemsOk(a + b)
  {
  }

  /** Every rule `collect` records sets the tag it says it sets, inserts upwards, and its lengths add up. */
  lemma {:induction false} CollectIsOk(src: Node, dst: Node, parent: Option<string>)
    requires IsTag(parent)
    ensures ItemsOk(Collect(src, dst, parent))
    decreases src, 1, 0
  {
    if Render(src) != Render(dst) && src.List? && dst.List? && MemberEdits(src, dst).Some? {
      var e := MemberEdits(src, dst).value;
      var to := EditOfLists(src, dst);
      CollectChangedIsOk(src, dst, parent, e.changed);
      var sets, inserts := SetsOf(src.items, dst.items, e.changed), PickAt(Renders(dst.items), e.inserts);
      var own := [Derived(parent, Tag(src), |src.items|, Tag(dst), |dst.items|, sets, inserts)];
      forall count: nat { OwnRowOk(src, dst, parent, e, to, count); }
      assert ItemsOk(own);
      ItemsOkConcat(CollectChanged(src, dst, parent, e.changed), own);
      ItemsOkConcat(CollectChanged(src, dst, parent, e.changed), []);
    }
  }

  lemma {:induction false} CollectChangedIsOk(src: Node, dst: Node, parent: Option<string>, changed: Pairing)
    requires src.List? && dst.List? && InBounds(changed, |src.items|, |dst.items|) && IsTag(parent)
    ensures ItemsOk(CollectChanged(src, dst, parent, changed))
    decreases src, 0, |changed|
  {
    if changed != [] {
      var (i, j) := changed[0];
      assert changed[0] in changed;
      CollectChangedIsOk(src, dst, parent, changed[1..]);
      var a, b := src.items[i], dst.items[j];
      var head := if a.List? && b.List? then Collect(a, b, Tag(src))
                  else if a.Leaf? && b.Leaf? then []
                  else [Shape(parent, Tag(src), |src.items|, i)];
      if a.List? && b.List? {
        CollectIsOk(a, b, Tag(src));
      }
      ItemsOkConcat(head, CollectChanged(src, dst, parent, changed[1..]));
    }
  }

  /** A table of such rules meets what the merging theorem asks of it. */
  lemma TabulatedRowsOk(found: seq<Row>)
    requires forall r :: r in found ==> TagsOk(r) && Upwards(r) && HeadOk(r)
    ensures TableOk(Tabulate(found)) && RowsOk(Tabulate(found))
  {
    TabulateIsTable(found);
  }

  // ---- the generalized table on whole trees

  /** A length-free rule with nothing to append, whose slots miss the list's first member. */
  predicate Idle(rule: Rule, kids: seq<Node>) {
    rule.tail == Append([]) && (kids != [] ==> SetHead(rule.sets, kids[0]) == kids[0])
  }

  /**
   * The two tables meet at this list: with a row of its own the heads agree if the row was merged; without one, no
   * length-free rule reaches it, or an idle one.
   */
  ghost predicate Meets(table: Table, parent: Option<string>, tag: Option<string>, kids: seq<Node>) {
    var own, free := KeyOf(parent, tag, Some(|kids|)), KeyOf(parent, tag, None);
    if own in table.rows then HeadsAgree(table, table.rows[own], kids)
    else free in GeneralizeTable(table) ==> Idle(GeneralizeTable(table)[free], kids)
  }

  /** They meet at every list of `node`, its members rewritten. */
  ghost predicate Covered(table: Table, node: Node, parent: Option<string>)
    decreases node
  {
    node.List? ==>
      && Meets(table, parent, Tag(node), ApplyEach(node.items, Plain(table), Tag(node)))
      && forall i :: 0 <= i < |node.items| ==> Covered(table, node.items[i], Tag(node))
  }

  lemma ExactRow(table: Table, parent: Option<string>, tag: Option<string>, n: nat)
    requires TableOk(table) && IsTag(parent) && IsTag(tag) && KeyOf(parent, tag, Some(n)) in table.rows
    ensures var r := table.rows[KeyOf(parent, tag, Some(n))];
            r.parent == parent && r.tag == tag && r.len == n
  {
    var r := table.rows[KeyOf(parent, tag, Some(n))];
    KeyOfIsInjective(r.parent, r.tag, Some(r.len), parent, tag, Some(n));
  }

  lemma NoPlainStar(table: Table, parent: Option<string>, tag: Option<string>)
    requires TableOk(table) && IsTag(parent) && IsTag(tag)
    ensures KeyOf(parent, tag, None) !in table.rows
  {
    if KeyOf(parent, tag, None) in table.rows {
      var r := table.rows[KeyOf(parent, tag, None)];
      KeyOfIsInjective(r.parent, r.tag, Some(r.len), parent, tag, None);
      assert false;
    }
  }

  /** A length-free rule in the generalized table is that of a merged group, which sets first members only. */
  lemma FreeRuleIsStar(table: Table, parent: Option<string>, tag: Option<string>)
    requires TableOk(table) && IsTag(parent) && IsTag(tag) && KeyOf(parent, tag, None) in GeneralizeTable(table)
    ensures var rule := GeneralizeTable(table)[KeyOf(parent, tag, None)]; rule.tail.Append? && OnlyHead(rule.sets)
  {
    var rows := AppendRows(table, table.order);
    var group := GroupOf(rows, (parent, tag));
    TableRows(table);
    NoPlainStar(table, parent, tag);
    MergeAllFree(Plain(table), rows, GroupKeys(rows), parent, tag);
    GroupHolds(rows, (parent, tag), group[0]);
    assert group[0] in group;
  }

  lemma IdleIff(rule: Rule, kids: seq<Node>)
    requires rule.tail.Append? && OnlyHead(rule.sets)
    ensures ApplyRule(rule, kids) == kids <==> Idle(rule, kids)
  {
    HeadSets(kids, rule.sets);
    var out := ApplySets(kids, rule.sets);
    assert |ApplyRule(rule, kids)| == |kids| + |rule.tail.values|;
    assert rule.tail.values == [] ==> out + Leaves(rule.tail.values) == out;
    assert kids != [] ==> kids == [kids[0]] + kids[1..];
  }

  /** What a table makes of a list whose members are rewritten already. */
  function Rewritten(rules: Rules, parent: Option<string>, tag: Option<string>, kids: seq<Node>): seq<Node> {
    match Lookup(rules, parent, tag, |kids|)
    case None => kids
    case Some(rule) => ApplyRule(rule, kids)
  }

  /** One list: the tables before and after merging rewrite it the same way exactly when they meet at it. */
  lemma ListActsAlike(table: Table, parent: Option<string>, tag: Option<string>, kids: seq<Node>)
    requires TableOk(table) && RowsOk(table) && IsTag(parent) && IsTag(tag)
    ensures Rewritten(GeneralizeTable(table), parent, tag, kids) == Rewritten(Plain(table), parent, tag, kids)
       <==> Meets(table, parent, tag, kids)
  {
    hide ApplyRule, GeneralizeTable, HeadsAgree, Idle;
    var own, free := KeyOf(parent, tag, Some(|kids|)), KeyOf(parent, tag, None);
    NoPlainStar(table, parent, tag);
    if own in table.rows {
      ExactRow(table, parent, tag, |kids|);
      GeneralizedActsAlike(table, table.rows[own], kids);
    } else {
      NoExactKey(table, parent, tag, |kids|);
      if free in GeneralizeTable(table) {
        FreeRuleIsStar(table, parent, tag);
        IdleIff(GeneralizeTable(table)[free], kids);
      }
    }
  }

  /** Merging adds no exact key. */
  lemma NoExactKey(table: Table, parent: Option<string>, tag: Option<string>, n: nat)
    requires TableOk(table) && IsTag(parent) && IsTag(tag) && KeyOf(parent, tag, Some(n)) !in table.rows
    ensures KeyOf(parent, tag, Some(n)) !in GeneralizeTable(table)
  {
    var rows := AppendRows(table, table.order);
    TableRows(table);
    MergeAllExact(Plain(table), rows, GroupKeys(rows), parent, tag, n);
  }

  // ---- whole trees: a rule moves no list, so differences below show

  /** The members that are lists, in order. */
  function ListsOf(kids: seq<Node>): seq<Node> {
    if kids == [] then [] else (if kids[0].List? then [kids[0]] else []) + ListsOf(kids[1..])
  }

  lemma {:induction false} ListsOfConcat(a: seq<Node>, b: seq<Node>)
    ensures ListsOf(a + b) == ListsOf(a) + ListsOf(b)
  {
    if a == [] {
      assert a + b == b;
    } else {
      ListsOfConcat(a[1..], b);
      assert (a + b)[1..] == a[1..] + b;
    }
  }

  lemma TextsHoldNoLists(values: seq<string>)
    ensures ListsOf(Leaves(values)) == []
  {
    if values != [] {
      TextsHoldNoLists(values[1..]);
      assert Leaves(values)[1..] == Leaves(values[1..]);
    }
  }

  /** Changing or inserting a text moves no list. */
  lemma TextBetween(front: seq<Node>, text: string, back: seq<Node>)
    ensures ListsOf(front + [Leaf(text)] + back) == ListsOf(front + back)
  {
    TextsHoldNoLists([text]);
    assert Leaves([text]) == [Leaf(text)];
    ListsOfConcat(front + [Leaf(text)], back);
    ListsOfConcat(front, [Leaf(text)]);
    ListsOfConcat(front, back);
  }

  lemma {:induction false} SetsMoveNoList(kids: seq<Node>, sets: seq<(nat, string, string)>)
    ensures ListsOf(ApplySets(kids, sets)) == ListsOf(kids)
    decreases |sets|
  {
    hide ListsOf;
    if sets != [] {
      var (i, a, b) := sets[0];
      if i < |kids| && kids[i] == Leaf(a) {
        SetsMoveNoList(kids[i := Leaf(b)], sets[1..]);
        assert kids == kids[..i] + [Leaf(a)] + kids[i + 1..];
        assert kids[i := Leaf(b)] == kids[..i] + [Leaf(b)] + kids[i + 1..];
        TextBetween(kids[..i], a, kids[i + 1..]);
        TextBetween(kids[..i], b, kids[i + 1..]);
      } else {
        SetsMoveNoList(kids, sets[1..]);
      }
    }
  }

  lemma {:induction false} InsertsMoveNoList(kids: seq<Node>, at: seq<(nat, string)>)
    ensures ListsOf(InsertAll(kids, LeavesAt(at))) == ListsOf(kids)
    decreases |at|
  {
    hide ListsOf;
    if at != [] {
      var (j, v) := at[0];
      assert LeavesAt(at)[1..] == LeavesAt(at[1..]);
      InsertsMoveNoList(InsertAt(kids, j, Leaf(v)), at[1..]);
      if j >= |kids| {
        TextBetween(kids, v, []);
        assert kids + [Leaf(v)] + [] == kids + [Leaf(v)] && kids + [] == kids;
      } else {
        TextBetween(kids[..j], v, kids[j..]);
        assert kids[..j] + kids[j..] == kids;
      }
    }
  }

  lemma RuleMovesNoList(rule: Rule, kids: seq<Node>)
    ensures ListsOf(ApplyRule(rule, kids)) == ListsOf(kids)
  {
    var out := ApplySets(kids, rule.sets);
    SetsMoveNoList(kids, rule.sets);
    match rule.tail
    case Append(values) =>
      ListsOfConcat(out, Leaves(values));
      TextsHoldNoLists(values);
    case Inserts(at) =>
      InsertsMoveNoList(out, Sorted(at));
  }

  /** Members that agree where they are texts agree altogether when they hold the same lists. */
  lemma {:induction false} SameLists(a: seq<Node>, b: seq<Node>)
    requires |a| == |b| && ListsOf(a) == ListsOf(b)
    requires forall i :: 0 <= i < |a| ==> a[i].List? == b[i].List? && (a[i].Leaf? ==> a[i] == b[i])
    ensures a == b
  {
    if a != [] {
      assert a[0].List? == b[0].List?;
      assert a == [a[0]] + a[1..] && b == [b[0]] + b[1..];
      if a[0].List? {
        assert ListsOf(a)[0] == a[0] && ListsOf(b)[0] == b[0];
        assert ListsOf(a)[1..] == ListsOf(a[1..]) && ListsOf(b)[1..] == ListsOf(b[1..]);
      } else {
        assert ListsOf(a) == ListsOf(a[1..]) && ListsOf(b) == ListsOf(b[1..]);
      }
      SameLists(a[1..], b[1..]);
    }
  }

  /** Two tables that make the same of a list's members, each rewritten by its own table, found the same members. */
  lemma MembersShow(one: Rules, two: Rules, node: Node, parent: Option<string>)
    requires node.List? && Apply(node, one, parent) == Apply(node, two, parent)
    ensures ApplyEach(node.items, one, Tag(node)) == ApplyEach(node.items, two, Tag(node))
  {
    hide ApplyRule, Lookup, ListsOf;
    var own := Tag(node);
    var a, b := ApplyEach(node.items, one, own), ApplyEach(node.items, two, own);
    forall i | 0 <= i < |node.items| ensures a[i].List? == b[i].List? && (a[i].Leaf? ==> a[i] == b[i]) {
      ApplyEachAt(node.items, one, own, i);
      ApplyEachAt(node.items, two, own, i);
    }
    RewritingMovesNoList(one, parent, own, a);
    RewritingMovesNoList(two, parent, own, b);
    SameLists(a, b);
  }

  lemma RewritingMovesNoList(rules: Rules, parent: Option<string>, tag: Option<string>, kids: seq<Node>)
    ensures ListsOf(Rewritten(rules, parent, tag, kids)) == ListsOf(kids)
  {
    hide ApplyRule, Lookup, ListsOf;
    if Lookup(rules, parent, tag, |kids|).Some? {
      RuleMovesNoList(Lookup(rules, parent, tag, |kids|).value, kids);
    }
  }

  /** Whole trees: the two tables rewrite a tree the same way exactly when they meet at every list of it. */
  lemma {:induction false} TreesActAlike(table: Table, node: Node, parent: Option<string>)
    requires TableOk(table) && RowsOk(table) && IsTag(parent)
    ensures Apply(node, GeneralizeTable(table), parent) == Apply(node, Plain(table), parent) <==> Covered(table, node, parent)
    decreases node
  {
    hide ApplyRule, GeneralizeTable, Plain, Meets, Lookup, TableOk, RowsOk;
    if node.List? {
      var own := Tag(node);
      TagIsTag(node);
      var a, b := ApplyEach(node.items, Plain(table), own), ApplyEach(node.items, GeneralizeTable(table), own);
      forall i | 0 <= i < |node.items| ensures a[i] == b[i] <==> Covered(table, node.items[i], own) {
        ApplyEachAt(node.items, Plain(table), own, i);
        ApplyEachAt(node.items, GeneralizeTable(table), own, i);
        TreesActAlike(table, node.items[i], own);
      }
      ListActsAlike(table, parent, own, a);
      if Apply(node, GeneralizeTable(table), parent) == Apply(node, Plain(table), parent) {
        MembersShow(GeneralizeTable(table), Plain(table), node, parent);
      }
      if Covered(table, node, parent) {
        assert a == b;
      }
    }
  }

  /**
   * Of the rows the lists of `node` have, the merged ones are numeric on both sides, and no length-free rule reaches a
   * list without one.
   */
  ghost predicate MergedAreNumeric(table: Table, node: Node, parent: Option<string>)
    decreases node
  {
    node.List? ==>
      var k := KeyOf(parent, Tag(node), Some(|node.items|));
      && (if k in table.rows
          then var r := table.rows[k]; Appended(r) && Merges(GroupIn(table, r)) ==> r.tag.Some? && r.newTag.Some?
          else KeyOf(parent, Tag(node), None) !in GeneralizeTable(table))
      && forall i :: 0 <= i < |node.items| ==> MergedAreNumeric(table, node.items[i], Tag(node))
  }

  /** Numeric tags where rows were merged are enough. */
  lemma {:induction false} NumericIsCovered(table: Table, node: Node, parent: Option<string>)
    requires TableOk(table) && RowsOk(table) && IsTag(parent) && MergedAreNumeric(table, node, parent)
    ensures Covered(table, node, parent)
    decreases node
  {
    hide GeneralizeTable, HeadsAgree, GroupIn, Apply;
    if node.List? {
      var own := Tag(node);
      TagIsTag(node);
      forall i | 0 <= i < |node.items| ensures Covered(table, node.items[i], own) {
        NumericIsCovered(table, node.items[i], own);
      }
      var kids, k := ApplyEach(node.items, Plain(table), own), KeyOf(parent, own, Some(|node.items|));
      if k in table.rows {
        var r := table.rows[k];
        ExactRow(table, parent, own, |kids|);
        if r.tag.Some? && r.newTag.Some? {
          HeadStays(node, Plain(table));
          NumericHeadsAgree(table, r, kids);
        } else {
          assert HeadsAgree(table, r, kids) by { NotMergedAgrees(table, r, kids); }
        }
      }
    }
  }

  lemma NotMergedAgrees(table: Table, r: Row, kids: seq<Node>)
    requires !(Appended(r) && Merges(GroupIn(table, r)))
    ensures HeadsAgree(table, r, kids)
  {
  }

  /** Rewriting the members leaves a numeric tag in its place. */
  lemma HeadStays(node: Node, rules: Rules)
    requires node.List? && Tag(node).Some?
    ensures var kids := ApplyEach(node.items, rules, Tag(node)); kids != [] && kids[0] == Leaf(Tag(node).value)
  {
    ApplyEachAt(node.items, rules, Tag(node), 0);
  }

  // ---- the table of what was collected

  /** Every rule recorded for the pair was counted among `found`. */
  ghost predicate Counted(items: seq<Item>, found: seq<Row>) {
    forall k :: 0 <= k < |items| && items[k].Derived? ==> exists count: nat :: RowOf(items[k], count) in found
  }

  /** No list inside `node` has its key in the table. */
  predicate Unlisted(table: Table, node: Node, parent: Option<string>)
    decreases node
  {
    node.List? ==>
      && KeyOf(parent, Tag(node), Some(|node.items|)) !in table.rows
      && forall k :: 0 <= k < |node.items| ==> Unlisted(table, node.items[k], Tag(node))
  }

  /** The lists of the old tree for which nothing was recorded have no key in the table. */
  ghost predicate Spared(table: Table, src: Node, dst: Node, parent: Option<string>)
    decreases src
  {
    if Render(src) == Render(dst) then Unlisted(table, src, parent)
    else src.List? && dst.List? && MemberEdits(src, dst).Some? ==>
      var e := MemberEdits(src, dst).value;
      && (OwnRule(src, dst, parent, e) == [] ==> KeyOf(parent, Tag(src), Some(|src.items|)) !in table.rows)
      && (forall p :: p in e.changed && p.0 < |src.items| && p.1 < |dst.items| ==>
            Spared(table, src.items[p.0], dst.items[p.1], Tag(src)))
      && (forall k :: 0 <= k < |src.items| && (forall p :: p in e.changed ==> p.0 != k) ==>
            Unlisted(table, src.items[k], Tag(src)))
  }

  /** What is recorded for the list itself. */
  function OwnRule(src: Node, dst: Node, parent: Option<string>, e: Script): seq<Item>
    requires src.List? && dst.List? && MemberEdits(src, dst) == Some(e)
  {
    ScriptInBounds(src, dst);
    var sets := SetsOf(src.items, dst.items, e.changed);
    var inserts := PickAt(Renders(dst.items), e.inserts);
    if inserts == [] && sets == [] then []
    else [Derived(parent, Tag(src), |src.items|, Tag(dst), |dst.items|, sets, inserts)]
  }

  lemma PlainLookup(table: Table, parent: Option<string>, tag: Option<string>, n: nat)
    requires TableOk(table) && IsTag(parent) && IsTag(tag)
    ensures var k := KeyOf(parent, tag, Some(n));
            Lookup(Plain(table), parent, tag, n) == if k in table.rows then Some(ToRule(table.rows[k])) else None
  {
    NoPlainStar(table, parent, tag);
  }

  lemma {:induction false} UnlistedIsQuiet(table: Table, node: Node, parent: Option<string>)
    requires TableOk(table) && IsTag(parent)
    ensures Unlisted(table, node, parent) <==> Quiet(Plain(table), node, parent)
    decreases node
  {
    hide Lookup, Plain;
    if node.List? {
      TagIsTag(node);
      PlainLookup(table, parent, Tag(node), |node.items|);
      forall k | 0 <= k < |node.items|
        ensures Unlisted(table, node.items[k], Tag(node)) <==> Quiet(Plain(table), node.items[k], Tag(node))
      {
        UnlistedIsQuiet(table, node.items[k], Tag(node));
      }
    }
  }

  /** A counted rule is what its key names, once nothing found disagrees. */
  lemma CountedIsListed(found: seq<Row>, item: Item, count: nat)
    requires Agree(found) && item.Derived? && RowOf(item, count) in found
    ensures var k := KeyOf(item.parent, item.tag, Some(item.len));
            var rows := Tabulate(found).rows;
            k in rows && ToRule(rows[k]) == Rule(item.sets, Inserts(item.inserts))
  {
    hide Tabulate, KeyOf;
    NoConflictsIffAgree(found);
    var i :| 0 <= i < |found| && found[i] == RowOf(item, count);
  }

  lemma {:induction false} ChangedIsCounted(src: Node, dst: Node, parent: Option<string>, changed: Pairing, found: seq<Row>,
                                            p: (nat, nat))
    requires src.List? && dst.List? && InBounds(changed, |src.items|, |dst.items|) && p in changed
    requires Counted(CollectChanged(src, dst, parent, changed), found)
    ensures Counted(Collect(src.items[p.0], dst.items[p.1], Tag(src)), found)
    decreases |changed|
  {
    var rest := CollectChanged(src, dst, parent, changed[1..]);
    var all := CollectChanged(src, dst, parent, changed);
    var head := all[..|all| - |rest|];
    assert all == head + rest;
    CountedParts(head, rest, found);
    if p == changed[0] {
      var a, b := src.items[p.0], dst.items[p.1];
      if a.List? && b.List? {
        assert head == Collect(a, b, Tag(src));
      }
    } else {
      ChangedIsCounted(src, dst, parent, changed[1..], found, p);
    }
  }

  lemma CountedParts(a: seq<Item>, b: seq<Item>, found: seq<Row>)
    requires Counted(a + b, found)
    ensures Counted(a, found) && Counted(b, found)
  {
    forall k | 0 <= k < |a| && a[k].Derived? ensures exists count: nat :: RowOf(a[k], count) in found {
      assert (a + b)[k] == a[k];
    }
    forall k | 0 <= k < |b| && b[k].Derived? ensures exists count: nat :: RowOf(b[k], count) in found {
      assert (a + b)[|a| + k] == b[k];
    }
  }

  /** What `collect` records for two lists with a script: what lies deeper, and the list's own rule. */
  lemma CollectParts(src: Node, dst: Node, parent: Option<string>, e: Script)
    requires src.List? && dst.List? && Render(src) != Render(dst) && MemberEdits(src, dst) == Some(e)
    ensures InBounds(e.changed, |src.items|, |dst.items|)
    ensures Collect(src, dst, parent) == CollectChanged(src, dst, parent, e.changed) + OwnRule(src, dst, parent, e)
  {
    ScriptInBounds(src, dst);
  }

  /** The table gives a list its own script exactly when its key is not in the table if nothing was recorded for it. */
  lemma OwnScript(found: seq<Row>, src: Node, dst: Node, parent: Option<string>, e: Script)
    requires src.List? && dst.List? && MemberEdits(src, dst) == Some(e) && IsTag(parent)
    requires Agree(found) && TableOk(Tabulate(found)) && Counted(OwnRule(src, dst, parent, e), found)
    ensures var k := KeyOf(parent, Tag(src), Some(|src.items|));
            HasScript(Plain(Tabulate(found)), src, dst, parent, e)
            <==> (OwnRule(src, dst, parent, e) == [] ==> k !in Tabulate(found).rows)
  {
    hide Tabulate, Agree, KeyOf, Lookup, Plain, ToRule;
    TagIsTag(src);
    PlainLookup(Tabulate(found), parent, Tag(src), |src.items|);
    var own := OwnRule(src, dst, parent, e);
    if own != [] {
      assert own[0].Derived?;
      var count: nat :| RowOf(own[0], count) in found;
      CountedIsListed(found, own[0], count);
    }
  }

  /**
   * The engine's hypothesis follows from what `generalize` reports: with no conflicts, the table of everything counted
   * fits a pair whose rules were counted exactly when no list without a rule of its own has its key in the table.
   */
  lemma {:induction false} TableFitsIff(found: seq<Row>, src: Node, dst: Node, parent: Option<string>)
    requires Agree(found) && TableOk(Tabulate(found)) && IsTag(parent)
    requires Counted(Collect(src, dst, parent), found)
    ensures Fits(Plain(Tabulate(found)), src, dst, parent) <==> Spared(Tabulate(found), src, dst, parent)
    decreases src
  {
    hide Tabulate, Agree, KeyOf, Lookup, Plain, HasScript, OwnRule, MemberEdits, Quiet, Unlisted, Counted, TableOk;
    var table := Tabulate(found);
    if Render(src) == Render(dst) {
      UnlistedIsQuiet(table, src, parent);
    } else if src.List? && dst.List? && MemberEdits(src, dst).Some? {
      var e := MemberEdits(src, dst).value;
      CollectParts(src, dst, parent, e);
      CountedParts(CollectChanged(src, dst, parent, e.changed), OwnRule(src, dst, parent, e), found);
      OwnScript(found, src, dst, parent, e);
      TagIsTag(src);
      forall p | p in e.changed && p.0 < |src.items| && p.1 < |dst.items|
        ensures Fits(Plain(table), src.items[p.0], dst.items[p.1], Tag(src))
           <==> Spared(table, src.items[p.0], dst.items[p.1], Tag(src))
      {
        ChangedIsCounted(src, dst, parent, e.changed, found, p);
        TableFitsIff(found, src.items[p.0], dst.items[p.1], Tag(src));
      }
      forall k | 0 <= k < |src.items|
        ensures Quiet(Plain(table), src.items[k], Tag(src)) <==> Unlisted(table, src.items[k], Tag(src))
      {
        UnlistedIsQuiet(table, src.items[k], Tag(src));
      }
    }
  }

  /**
   * From recorded rules to the new tree: when everything recorded for the pair is rules and was counted, `generalize`
   * reports no conflict, no list without a rule has its key in the table, and the generalized table meets the plain
   * one, then rewriting the old tree with it prints the new one.
   */
  lemma GeneralizedReproduces(found: seq<Row>, src: Node, dst: Node, parent: Option<string>)
    requires forall r :: r in found ==> TagsOk(r) && Upwards(r) && HeadOk(r)
    requires IsTag(parent) && (Render(src) == Render(dst) || (src.List? && dst.List?))
    requires AllDerived(Collect(src, dst, parent)) && Counted(Collect(src, dst, parent), found)
    requires Tabulate(found).conflicts == []
    requires Spared(Tabulate(found), src, dst, parent) && Covered(Tabulate(found), src, parent)
    ensures Render(Apply(src, GeneralizeTable(Tabulate(found)), parent)) == Render(dst)
  {
    hide Tabulate, Agree, Collect, Spared, Covered, Fits, GeneralizeTable;
    TabulatedRowsOk(found);
    NoConflictsIffAgree(found);
    TableFitsIff(found, src, dst, parent);
    TreesActAlike(Tabulate(found), src, parent);
    EngineReproduces(Plain(Tabulate(found)), src, dst, parent);
  }
}
