/** Derived rules on which `generalize` does not keep what it is for, computed from the lists they were recorded for. */
module GeneralizeLimits {
  import opened Prelude
  import opened BraceTree
  import opened Lcs
  import opened Edits
  import opened UpgradeRules
  import opened UpgradeEngine
  import opened Generalize
  import opened GeneralizeDerived
  import opened DeriveRules

  // ---- four scripts

  lemma NothingAfter<T>(x: T)
    ensures [x] + [] == [x]
  {
  }

  lemma LastChanges<T(!new)>(a: T, b: T, c: T)
    requires b != c
    ensures EditScript([a, b], [a, c]) == Some(Script([(1, 1)], []))
  {
    var ka, kb := [a, b], [a, c];
    assert Walk(ka, kb, 2, 1) == [] && Best(ka, kb, 2, 1) == Best(ka, kb, 1, 2) == 0;
    assert Walk(ka, kb, 1, 1) == [];
    assert Walk(ka, kb, 0, 0) == [(0, 0)];
    PairsOrdered(ka, kb);
    NothingAfter((1, 1));
    assert Scan([], 2, 2, 2, 2) == Some(Script([], []));
    assert Scan([], 1, 1, 2, 2) == Some(Script([(1, 1)], []));
    assert [(0, 0)][1..] == [];
    assert Scan([(0, 0)], 0, 0, 2, 2) == Scan([], 1, 1, 2, 2);
  }

  lemma BothChange<T(!new)>(a: T, b: T, c: T, d: T)
    requires a != c && a != d && b != c && b != d
    ensures EditScript([a, b], [c, d]) == Some(Script([(0, 0), (1, 1)], []))
  {
    var ka, kb := [a, b], [c, d];
    NothingCommon(ka, kb, 0, 0);
    PairsOrdered(ka, kb);
    NothingAfter((1, 1));
    assert Scan([], 2, 2, 2, 2) == Some(Script([], []));
    assert Scan([], 1, 1, 2, 2) == Some(Script([(1, 1)], []));
    assert [(0, 0)] + [(1, 1)] == [(0, 0), (1, 1)];
  }

  lemma OneChangesOneComes<T(!new)>(a: T, b: T, c: T)
    requires a != b && a != c
    ensures EditScript([a], [b, c]) == Some(Script([(0, 0)], [1]))
  {
    var ka, kb := [a], [b, c];
    NothingCommon(ka, kb, 0, 0);
    PairsOrdered(ka, kb);
    NothingAfter((0, 0));
    NothingAfter(1);
    assert Scan([], 1, 2, 1, 2) == Some(Script([], []));
    assert Scan([], 1, 1, 1, 2) == Some(Script([], [1]));
  }

  lemma FirstChangesOneComes<T(!new)>(a: T, b: T, c: T, d: T)
    requires a != b && a != c && a != d && c != b && c != d
    ensures EditScript([a, c], [b, c, d]) == Some(Script([(0, 0)], [2]))
  {
    var ka, kb := [a, c], [b, c, d];
    assert Walk(ka, kb, 2, 2) == [] && Best(ka, kb, 2, 2) == 0;
    assert Walk(ka, kb, 1, 1) == [(1, 1)] && Best(ka, kb, 1, 1) == 1;
    assert Best(ka, kb, 2, 0) == 0 && Best(ka, kb, 1, 0) == 1 && Walk(ka, kb, 1, 0) == [(1, 1)];
    assert Best(ka, kb, 1, 2) <= 1 && Best(ka, kb, 0, 2) <= 1 && Best(ka, kb, 0, 1) <= 1;
    assert Walk(ka, kb, 0, 0) == [(1, 1)];
    PairsOrdered(ka, kb);
    NothingAfter((0, 0));
    NothingAfter(2);
    assert Scan([], 2, 3, 2, 3) == Some(Script([], []));
    assert Scan([], 2, 2, 2, 3) == Some(Script([], [2]));
    assert [(1, 1)][1..] == [];
    assert Scan([(1, 1)], 1, 1, 2, 3) == Scan([], 2, 2, 2, 3);
    assert Scan([(1, 1)], 0, 0, 2, 3) == Some(Script([(0, 0)], [2]));
  }

  lemma {:induction false} NothingCommon<T(!new)>(a: seq<T>, b: seq<T>, i: nat, j: nat)
    requires i <= |a| && j <= |b| && forall x, y :: 0 <= x < |a| && 0 <= y < |b| ==> a[x] != b[y]
    ensures Walk(a, b, i, j) == [] && Best(a, b, i, j) == 0
    decreases |a| - i + |b| - j
  {
    if i < |a| && j < |b| {
      NothingCommon(a, b, i + 1, j);
      NothingCommon(a, b, i, j + 1);
    }
  }

  // ---- what is recorded for four pairs of lists

  lemma RendersTwo(a: Node, b: Node)
    ensures Renders([a, b]) == [Render(a), Render(b)]
  {
    assert [a, b][1..] == [b] && [b][1..] == [];
    assert Renders([b]) == [Render(b)];
  }

  lemma RendersThree(a: Node, b: Node, c: Node)
    ensures Renders([a, b, c]) == [Render(a), Render(b), Render(c)]
  {
    RendersTwo(b, c);
    assert [a, b, c][1..] == [b, c];
  }

  /** Lists whose first members print differently from the first character on print differently. */
  lemma HeadsShow(a: seq<Node>, b: seq<Node>)
    requires a != [] && b != [] && Render(a[0]) != "" && Render(b[0]) != "" && Render(a[0])[0] != Render(b[0])[0]
    ensures Render(List(a)) != Render(List(b))
  {
    SecondCharacter(a);
    SecondCharacter(b);
  }

  lemma SecondCharacter(a: seq<Node>)
    requires a != [] && Render(a[0]) != ""
    ensures |Render(List(a))| > 1 && Render(List(a))[1] == Render(a[0])[0]
  {
    var parts := Renders(a);
    assert parts[0] == Render(a[0]);
    assert CommaJoin(parts) != "" && CommaJoin(parts)[0] == parts[0][0];
  }

  lemma OneIsTag(rest: seq<Node>)
    ensures Tag(List([Leaf("1")] + rest)) == Some("1")
  {
    assert StripMinus("1") == "1";
  }

  const ONE_A := List([Leaf("1"), Leaf("a")])

  function Changing(newTag: Option<string>, text: string): Item {
    Derived(None, Some("1"), 2, newTag, 2, [(1, "a", text)], [])
  }

  /** {1,a} to {1,b}. */
  lemma LastTextChanges(text: string)
    requires text != "a"
    ensures Collect(ONE_A, List([Leaf("1"), Leaf(text)]), None) == [Changing(Some("1"), text)]
  {
    var src, dst := ONE_A, List([Leaf("1"), Leaf(text)]);
    RendersTwo(Leaf("1"), Leaf("a"));
    RendersTwo(Leaf("1"), Leaf(text));
    LastChanges("1", "a", text);
    OneIsTag([Leaf("a")]);
    OneIsTag([Leaf(text)]);
    assert [Leaf("1")] + [Leaf("a")] == src.items && [Leaf("1")] + [Leaf(text)] == dst.items;
    Differ("a", text);
    assert Render(src) == "{" + "1" + "," + "a" + "}" && Render(dst) == "{" + "1" + "," + text + "}" by {
      PrintedTwo("1", "a");
      PrintedTwo("1", text);
    }
    var e: Script := Script([(1, 1)], []);
    CollectParts(src, dst, None, e);
    assert [(1, 1)][1..] == [];
    NothingAfter((1, "a", text));
    assert SetsOf(src.items, dst.items, [(1, 1)]) == [(1, "a", text)];
    assert CollectChanged(src, dst, None, [(1, 1)]) == [];
  }

  lemma PrintedTwo(a: string, b: string)
    ensures Render(List([Leaf(a), Leaf(b)])) == "{" + a + "," + b + "}"
  {
    RendersTwo(Leaf(a), Leaf(b));
    assert [a, b][1..] == [b];
    assert CommaJoin([b]) == b;
    assert CommaJoin([a, b]) == a + "," + b;
  }

  lemma Differ(a: string, b: string)
    requires a != b
    ensures "{" + "1" + "," + a + "}" != "{" + "1" + "," + b + "}"
  {
    var l, r := "{" + "1" + "," + a + "}", "{" + "1" + "," + b + "}";
    assert l[3..|l| - 1] == a && r[3..|r| - 1] == b;
  }

  const X_B := List([List([Leaf("x")]), Leaf("b")])

  lemma PrintedX()
    ensures Renders(X_B.items) == ["{x}", "b"] && Tag(X_B) == None
  {
    assert Renders([Leaf("x")]) == ["x"];
    assert Render(List([Leaf("x")])) == "{x}";
    RendersTwo(List([Leaf("x")]), Leaf("b"));
  }

  const BOTH: Script := Script([(0, 0), (1, 1)], [])

  lemma HeadAndTextChange()
    ensures MemberEdits(ONE_A, X_B) == Some(BOTH) && Render(ONE_A) != Render(X_B)
  {
    hide Render, Renders, Tag;
    RendersTwo(Leaf("1"), Leaf("a"));
    PrintedX();
    PrintedText("1");
    PrintedText("a");
    BothChange("1", "a", "{x}", "b");
    HeadsShow(ONE_A.items, X_B.items) by { RendersAt(X_B.items, 0); }
  }

  lemma ShapeAndText()
    ensures InBounds(BOTH.changed, 2, 2)
    ensures SetsOf(ONE_A.items, X_B.items, BOTH.changed) == [(1, "a", "b")]
    ensures CollectChanged(ONE_A, X_B, None, BOTH.changed) == [Shape(None, Tag(ONE_A), 2, 0)]
  {
    hide Collect, Tag;
    assert BOTH.changed[1..] == [(1, 1)] && [(1, 1)][1..] == [];
    NothingAfter((1, "a", "b"));
    assert SetsOf(ONE_A.items, X_B.items, [(1, 1)]) == [(1, "a", "b")];
    assert SetsOf(ONE_A.items, X_B.items, BOTH.changed) == [] + [(1, "a", "b")];
    assert CollectChanged(ONE_A, X_B, None, [(1, 1)]) == [];
    assert CollectChanged(ONE_A, X_B, None, BOTH.changed) == [Shape(None, Tag(ONE_A), 2, 0)] + [];
  }

  /** {1,a} to {{x},b}: the head changes its shape, which is a problem of its own, and the list loses its tag. */
  lemma HeadChangesShape()
    ensures Collect(ONE_A, X_B, None) == [Shape(None, Some("1"), 2, 0), Changing(None, "b")]
  {
    hide Collect, CollectChanged, SetsOf, MemberEdits, Render, Renders, Tag;
    HeadAndTextChange();
    ShapeAndText();
    PrintedX();
    OneIsTag([Leaf("a")]);
    assert [Leaf("1")] + [Leaf("a")] == ONE_A.items;
    CollectParts(ONE_A, X_B, None, BOTH);
    assert OwnRule(ONE_A, X_B, None, BOTH) == [Changing(None, "b")];
  }

  lemma PrintedText(text: string)
    ensures Render(Leaf(text)) == text
  {
  }

  const ONE := List([Leaf("1")])
  const A_0 := List([Leaf("a"), Leaf("0")])
  const ONE_X := List([Leaf("1"), Leaf("x")])
  const B_X_0 := List([Leaf("b"), Leaf("x"), Leaf("0")])

  /** {1} to {a,0}. */
  lemma HeadChangesAndGrows()
    ensures Collect(ONE, A_0, None) == [Derived(None, Some("1"), 1, None, 2, [(0, "1", "a")], [(1, "0")])]
  {
    assert Renders([Leaf("1")]) == ["1"];
    RendersTwo(Leaf("a"), Leaf("0"));
    OneChangesOneComes("1", "a", "0");
    OneIsTag([]);
    assert [Leaf("1")] + [] == ONE.items;
    HeadsShow(ONE.items, A_0.items);
    CollectParts(ONE, A_0, None, Script([(0, 0)], [1]));
    assert [(0, 0)][1..] == [];
    NothingAfter((0, "1", "a"));
    assert SetsOf(ONE.items, A_0.items, [(0, 0)]) == [(0, "1", "a")];
    assert CollectChanged(ONE, A_0, None, [(0, 0)]) == [];
    assert PickAt(["a", "0"], [1]) == [(1, "0")];
    assert StripMinus("a") == "a";
  }

  /** {1,x} to {b,x,0}. */
  lemma LongerHeadChangesAndGrows()
    ensures Collect(ONE_X, B_X_0, None) == [Derived(None, Some("1"), 2, None, 3, [(0, "1", "b")], [(2, "0")])]
  {
    RendersTwo(Leaf("1"), Leaf("x"));
    RendersThree(Leaf("b"), Leaf("x"), Leaf("0"));
    FirstChangesOneComes("1", "b", "x", "0");
    OneIsTag([Leaf("x")]);
    assert [Leaf("1")] + [Leaf("x")] == ONE_X.items;
    HeadsShow(ONE_X.items, B_X_0.items);
    CollectParts(ONE_X, B_X_0, None, Script([(0, 0)], [2]));
    assert [(0, 0)][1..] == [];
    NothingAfter((0, "1", "b"));
    assert SetsOf(ONE_X.items, B_X_0.items, [(0, 0)]) == [(0, "1", "b")];
    assert CollectChanged(ONE_X, B_X_0, None, [(0, 0)]) == [];
    assert PickAt(["b", "x", "0"], [2]) == [(2, "0")];
    assert StripMinus("b") == "b";
  }

  // ---- the rule kept is not the most frequent one

  lemma OneMore(pairs: Pairs, p: (Node, Node), item: Item)
    requires Collect(p.0, p.1, None) == [item] && item.Derived?
    ensures RuleCounts(pairs + [p]) == Bump(RuleCounts(pairs), item)
  {
    hide Collect, Tally, Only, Bump;
    assert (pairs + [p])[..|pairs|] == pairs;
    TallyNext(Findings(pairs), item, true);
  }

  lemma ProblemAndOne(pairs: Pairs, p: (Node, Node), problem: Item, item: Item)
    requires Collect(p.0, p.1, None) == [problem, item] && !problem.Derived? && item.Derived?
    ensures RuleCounts(pairs + [p]) == Bump(RuleCounts(pairs), item)
  {
    hide Collect, Tally, Only, Bump;
    assert (pairs + [p])[..|pairs|] == pairs;
    assert Findings(pairs) + [problem, item] == Findings(pairs) + [problem] + [item];
    TallyNext(Findings(pairs), problem, true);
    TallyNext(Findings(pairs) + [problem], item, true);
  }

  const TO_B := (ONE_A, List([Leaf("1"), Leaf("b")]))
  const TO_X_B := (ONE_A, X_B)
  const TO_C := (ONE_A, List([Leaf("1"), Leaf("c")]))

  const THREE := [TO_B, TO_B, TO_B]
  const SIX := [TO_B, TO_B, TO_B, TO_X_B, TO_C, TO_C]

  lemma NothingRecorded()
    ensures RuleCounts([]) == Counter([], map[])
  {
    NothingTallied();
  }

  lemma ThreeRules(a: Item)
    requires a == Changing(Some("1"), "b")
    ensures RuleCounts(THREE) == Bump(Bump(Bump(Counter([], map[]), a), a), a)
  {
    hide RuleCounts, Bump, Collect;
    LastTextChanges("b");
    NothingRecorded();
    OneMore([], TO_B, a);
    OneMore([TO_B], TO_B, a);
    OneMore([TO_B, TO_B], TO_B, a);
    assert [] + [TO_B] == [TO_B] && [TO_B] + [TO_B] == [TO_B, TO_B] && [TO_B, TO_B] + [TO_B] == THREE;
  }

  lemma SixRules(b: Item, c: Item)
    requires b == Changing(None, "b") && c == Changing(Some("1"), "c")
    ensures RuleCounts(SIX) == Bump(Bump(Bump(RuleCounts(THREE), b), c), c)
  {
    hide RuleCounts, Bump, Collect;
    LastTextChanges("c");
    HeadChangesShape();
    ProblemAndOne(THREE, TO_X_B, Shape(None, Some("1"), 2, 0), b);
    OneMore(THREE + [TO_X_B], TO_C, c);
    OneMore(THREE + [TO_X_B] + [TO_C], TO_C, c);
    assert THREE + [TO_X_B] + [TO_C] + [TO_C] == SIX;
  }

  lemma SixPairs()
    ensures Found(SIX)
         == [RowOf(Changing(Some("1"), "b"), 3), RowOf(Changing(None, "b"), 1), RowOf(Changing(Some("1"), "c"), 2)]
  {
    hide RuleCounts, Bump, Found;
    var a, b, c := Changing(Some("1"), "b"), Changing(None, "b"), Changing(Some("1"), "c");
    ThreeRules(a);
    SixRules(b, c);
    assert a.sets[0] != c.sets[0] && b.sets[0] != c.sets[0];
    Counts(a, b, c);
    FoundAre(SIX);
  }

  lemma Counts(a: Item, b: Item, c: Item)
    requires a != b && a != c && b != c
    ensures Bump(Bump(Bump(Bump(Bump(Bump(Counter([], map[]), a), a), a), b), c), c)
         == Counter([a, b, c], map[a := 3, b := 1, c := 2])
  {
    var one := Bump(Counter([], map[]), a);
    assert one == Counter([a], map[a := 1]);
    assert Bump(one, a) == Counter([a], map[a := 2]);
    assert Bump(Bump(one, a), a) == Counter([a], map[a := 3]);
    assert Bump(Counter([a], map[a := 3]), b) == Counter([a, b], map[a := 3, b := 1]);
    assert Bump(Counter([a, b], map[a := 3, b := 1]), c) == Counter([a, b, c], map[a := 3, b := 1, c := 1]);
  }

  /**
   * Six pairs of lists: {1,a} became {1,b} three times, {{x},b} once and {1,c} twice. The first two make the same
   * change towards different new tags, the rarer one takes over, and the third, rarer than the first, then beats it.
   */
  lemma RareRuleIsKept()
    ensures var found := Found(SIX);
            && |found| == 3 && SeenMost(found, 0) && RowKey(found[0]) in Tabulate(found).rows
            && Tabulate(found).rows[RowKey(found[0])] == found[2]
            && found[2].count < found[0].count && !SameChange(found[0], found[2])
  {
    hide Found, RowKey, Collect;
    SixPairs();
    var a, b := RowOf(Changing(Some("1"), "b"), 3), RowOf(Changing(None, "b"), 1);
    var c := RowOf(Changing(Some("1"), "c"), 2);
    assert RowKey(a) == RowKey(b) == RowKey(c) by { SameKey(a, b); SameKey(a, c); }
    assert [a, b, c][..2] == [a, b] && [a, b][..1] == [a] && [a][..0] == [];
    assert Tabulate([a]).rows == map[RowKey(a) := a];
    assert Tabulate([a, b]).rows == map[RowKey(a) := b];
    assert Tabulate([a, b, c]).rows == map[RowKey(a) := c];
    assert a.sets[0] != c.sets[0];
  }

  lemma SameKey(a: Row, b: Row)
    requires a.parent == b.parent && a.tag == b.tag && a.len == b.len
    ensures RowKey(a) == RowKey(b)
  {
  }

  // ---- a merged rule takes another list's text

  const GROWN := Derived(None, Some("1"), 1, None, 2, [(0, "1", "a")], [(1, "0")])
  const LONGER := Derived(None, Some("1"), 2, None, 3, [(0, "1", "b")], [(2, "0")])
  const BOTH_PAIRS := [(ONE, A_0), (ONE_X, B_X_0)]

  lemma TwoPairs()
    ensures Found(BOTH_PAIRS) == [RowOf(GROWN, 1), RowOf(LONGER, 1)] && AllDerived(Findings(BOTH_PAIRS))
  {
    hide Collect, Bump, Findings, Found, RuleCounts;
    HeadChangesAndGrows();
    LongerHeadChangesAndGrows();
    NothingRecorded();
    OneMore([], (ONE, A_0), GROWN);
    OneMore([(ONE, A_0)], (ONE_X, B_X_0), LONGER);
    assert [] + [(ONE, A_0)] == [(ONE, A_0)] && [(ONE, A_0)] + [(ONE_X, B_X_0)] == BOTH_PAIRS;
    FoundAre(BOTH_PAIRS);
    TwoFindings();
    TwoCounts();
  }

  lemma TwoCounts()
    ensures Bump(Bump(Counter([], map[]), GROWN), LONGER) == Counter([GROWN, LONGER], map[GROWN := 1, LONGER := 1])
  {
    assert Bump(Counter([], map[]), GROWN) == Counter([GROWN], map[GROWN := 1]);
  }

  lemma TwoFindings()
    requires Collect(ONE, A_0, None) == [GROWN] && Collect(ONE_X, B_X_0, None) == [LONGER]
    ensures Findings(BOTH_PAIRS) == [GROWN, LONGER]
  {
    hide Collect;
    assert BOTH_PAIRS[..1] == [(ONE, A_0)] && [(ONE, A_0)][..0] == [];
    assert Findings([(ONE, A_0)]) == [] + [GROWN];
  }

  lemma TwoKeys(r1: Row, r2: Row)
    requires RowKey(r1) != RowKey(r2)
    ensures Tabulate([r1, r2]) == Table([RowKey(r1), RowKey(r2)], map[RowKey(r1) := r1, RowKey(r2) := r2], [])
  {
    hide RowKey;
    assert [r1, r2][..1] == [r1] && [r1][..0] == [];
    assert Tabulate([r1]) == Table([RowKey(r1)], map[RowKey(r1) := r1], []);
  }

  lemma TwoInGroup(r1: Row, r2: Row)
    requires RowKey(r1) != RowKey(r2) && Appended(r1) && Appended(r2)
    requires r1.parent == r2.parent && r1.tag == r2.tag
    ensures GroupIn(Tabulate([r1, r2]), r2) == [r1, r2]
  {
    hide RowKey, Appended, Tabulate;
    var k1, k2, table := RowKey(r1), RowKey(r2), Tabulate([r1, r2]);
    TwoKeys(r1, r2);
    assert [k1, k2][1..] == [k2] && [k2][1..] == [];
    assert AppendRows(table, [k2]) == [r2] + [];
    assert AppendRows(table, [k1, k2]) == [r1] + [r2];
    assert [r1, r2][1..] == [r2] && [r2][1..] == [];
    assert GroupOf([r2], (r2.parent, r2.tag)) == [r2] + [];
    assert GroupOf([r1, r2], (r2.parent, r2.tag)) == [r1] + [r2];
  }

  /** The table of the two rules, both append rules of one group that merges. */
  lemma TwoRowTable(r1: Row, r2: Row)
    requires r1 == RowOf(GROWN, 1) && r2 == RowOf(LONGER, 1)
    ensures var table := Tabulate([r1, r2]);
            && TableOk(table) && table.conflicts == [] && RowKey(r2) in table.rows && table.rows[RowKey(r2)] == r2
            && GroupIn(table, r2) == [r1, r2]
    ensures Appended(r2) && Merges([r1, r2]) && Upwards(r2)
  {
    hide KeyOf, Tabulate, GroupIn;
    KeyOfIsInjective(None, Some("1"), Some(1), None, Some("1"), Some(2));
    assert StripMinus("1") == "1";
    TabulateIsTable([r1, r2]);
    TwoKeys(r1, r2);
    TwoInGroup(r1, r2);
    assert Values(r1.inserts) == ["0"] == Values(r2.inserts);
  }

  /** What one rule makes of {1,x}. */
  lemma OfOneX(rules: Rules, rule: Rule, kids: seq<Node>)
    requires Lookup(rules, None, Some("1"), 2) == Some(rule) && ApplyRule(rule, ONE_X.items) == kids
    ensures Apply(ONE_X, rules, None) == List(kids)
  {
    hide ApplyRule, Lookup;
    OneIsTag([Leaf("x")]);
    assert [Leaf("1")] + [Leaf("x")] == ONE_X.items;
    var own := Tag(ONE_X);
    ApplyEachAt(ONE_X.items, rules, own, 0);
    ApplyEachAt(ONE_X.items, rules, own, 1);
    assert ApplyEach(ONE_X.items, rules, own) == ONE_X.items;
  }

  lemma BothRulesOnOneX(r1: Row, r2: Row)
    requires r1 == RowOf(GROWN, 1) && r2 == RowOf(LONGER, 1)
    ensures ApplyRule(ToRule(r2), ONE_X.items) == B_X_0.items
    ensures ApplyRule(StarRule([r1, r2]), ONE_X.items) == [Leaf("a"), Leaf("x"), Leaf("0")]
  {
    AppendedRowActs(r2, ONE_X.items);
    HeadSets(ONE_X.items, r1.sets);
    HeadSets(ONE_X.items, r2.sets);
    assert r1.sets[1..] == [] && r2.sets[1..] == [];
    assert SetHead(r1.sets, Leaf("1")) == Leaf("a") && SetHead(r2.sets, Leaf("1")) == Leaf("b");
    assert ONE_X.items[1..] == [Leaf("x")];
    assert Leaves(Values(r1.inserts)) == [Leaf("0")] == Leaves(Values(r2.inserts));
  }

  /**
   * {1} became {a,0} and {1,x} became {b,x,0}. Nothing is in conflict and nothing a problem, and the rules recorded
   * rewrite {1,x} rightly; merged, they make {a,x,0} of it, because without a numeric new tag to tell the two apart the
   * merged rule keeps the first list's text for both.
   */
  lemma TextHeadsAreConfused()
    ensures AllDerived(Findings(BOTH_PAIRS)) && DerivedTable(BOTH_PAIRS).conflicts == []
    ensures Apply(ONE_X, Plain(DerivedTable(BOTH_PAIRS)), None) == B_X_0
    ensures Apply(ONE_X, GeneralizeTable(DerivedTable(BOTH_PAIRS)), None) == List([Leaf("a"), Leaf("x"), Leaf("0")])
    ensures !Reproduced(GeneralizeTable(DerivedTable(BOTH_PAIRS)), (ONE_X, B_X_0))
  {
    hide Found, Tabulate, RowKey, GroupIn, GeneralizeTable, Plain, ApplyRule, Appended, Merges, Apply, KeyOf;
    hide AllDerived, Findings, StarRule;
    var r1, r2 := RowOf(GROWN, 1), RowOf(LONGER, 1);
    var table := DerivedTable(BOTH_PAIRS);
    TwoPairs();
    TwoRowTable(r1, r2);
    BothRulesOnOneX(r1, r2);
    GeneralizedLookup(table, r2);
    OneIsTag([]);
    PlainLookup(table, None, Some("1"), 2) by { assert StripMinus("1") == "1"; }
    RowKeyIs(r2);
    OfOneX(Plain(table), ToRule(r2), B_X_0.items);
    OfOneX(GeneralizeTable(table), StarRule([r1, r2]), [Leaf("a"), Leaf("x"), Leaf("0")]);
    HeadsShow([Leaf("a"), Leaf("x"), Leaf("0")], B_X_0.items);
  }

  lemma RowKeyIs(r: Row)
    ensures RowKey(r) == KeyOf(r.parent, r.tag, Some(r.len))
  {
  }
}
