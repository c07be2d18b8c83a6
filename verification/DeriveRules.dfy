/**
 * `derive` and `verify`: rules counted over many pairs of trees, and what the generalized table then makes of each. A
 * pair holds the parsed trees of one row that differs between two stores.
 */
module DeriveRules {
  import opened Prelude
  import opened BraceTree
  import opened UpgradeRules
  import opened UpgradeEngine
  import opened UpgradeLoops
  import opened Generalize
  import opened GeneralizeDerived
  import opened GeneralizeLoops

  // ---- counting

  /** A counter: its items in order of first appearance, and how often each was seen. */
  datatype Counter = Counter(order: seq<Item>, counts: map<Item, nat>)

  function Bump(c: Counter, item: Item): Counter {
    if item in c.counts then c.(counts := c.counts[item := c.counts[item] + 1])
    else Counter(c.order + [item], c.counts[item := 1])
  }

  function Tally(items: seq<Item>): Counter {
    if items == [] then Counter([], map[]) else Bump(Tally(items[..|items| - 1]), items[|items| - 1])
  }

  /** Every item of `items` once, with its number of appearances. */
  ghost predicate Tallies(c: Counter, items: seq<Item>) {
    && (forall item :: item in c.order <==> item in items)
    && (forall item :: item in items <==> item in c.counts)
    && (forall item :: item in c.counts ==> c.counts[item] == multiset(items)[item])
    && (forall i, j :: 0 <= i < j < |c.order| ==> c.order[i] != c.order[j])
  }

  lemma {:induction false} TallyIsCount(items: seq<Item>)
    ensures Tallies(Tally(items), items)
  {
    if items != [] {
      var init, last := items[..|items| - 1], items[|items| - 1];
      TallyIsCount(init);
      assert items == init + [last];
      BumpCounts(Tally(init), init, last);
    }
  }

  lemma BumpCounts(c: Counter, items: seq<Item>, item: Item)
    requires Tallies(c, items)
    ensures Tallies(Bump(c, item), items + [item])
  {
    var next := Bump(c, item);
    assert multiset(items + [item]) == multiset(items) + multiset{item};
    assert item !in items ==> multiset(items)[item] == 0;
    forall i, j | 0 <= i < j < |next.order| ensures next.order[i] != next.order[j] {
      assert next.order[i] == c.order[i];
      assert c.order[i] in c.order;
    }
  }

  /** The rules among the findings, or the problems. */
  function Only(items: seq<Item>, rules: bool): seq<Item> {
    if items == [] then []
    else
      var last := items[|items| - 1];
      Only(items[..|items| - 1], rules) + (if last.Derived? == rules then [last] else [])
  }

  lemma {:induction false} OnlyThose(items: seq<Item>, rules: bool)
    ensures forall item ::
              multiset(Only(items, rules))[item] == if item.Derived? == rules then multiset(items)[item] else 0
    ensures forall item :: item in Only(items, rules) <==> item in items && item.Derived? == rules
  {
    if items != [] {
      var init, last := items[..|items| - 1], items[|items| - 1];
      OnlyThose(init, rules);
      assert items == init + [last];
    }
  }

  // ---- derive

  type Pairs = seq<(Node, Node)>

  /** Everything recorded for the pairs, in order. */
  function Findings(pairs: Pairs): seq<Item> {
    if pairs == [] then []
    else Findings(pairs[..|pairs| - 1]) + Collect(pairs[|pairs| - 1].0, pairs[|pairs| - 1].1, None)
  }

  predicate HoldsRules(c: Counter) {
    forall k :: 0 <= k < |c.order| ==> c.order[k].Derived? && c.order[k] in c.counts
  }

  /** What `generalize` goes through: the counted rules. */
  function Rows(c: Counter): (rows: seq<Row>)
    requires HoldsRules(c)
    ensures |rows| == |c.order|
    ensures forall k :: 0 <= k < |rows| ==> rows[k] == RowOf(c.order[k], c.counts[c.order[k]])
  {
    seq(|c.order|, k requires 0 <= k < |c.order| => RowOf(c.order[k], c.counts[c.order[k]]))
  }

  /** The counter of rules `derive` returns. */
  function RuleCounts(pairs: Pairs): Counter {
    Tally(Only(Findings(pairs), true))
  }

  lemma RulesAreHeld(pairs: Pairs)
    ensures HoldsRules(RuleCounts(pairs))
  {
    var items := Findings(pairs);
    TallyIsCount(Only(items, true));
    OnlyThose(items, true);
    var c := RuleCounts(pairs);
    assert forall k :: 0 <= k < |c.order| ==> c.order[k] in c.order;
  }

  function Found(pairs: Pairs): seq<Row> {
    RulesAreHeld(pairs);
    Rows(RuleCounts(pairs))
  }

  function ItemOf(r: Row): Item {
    Derived(r.parent, r.tag, r.len, r.newTag, r.newLen, r.sets, r.inserts)
  }

  /** The rows found are the rules recorded, each once, with the number of times it was recorded. */
  lemma FoundIsCount(pairs: Pairs)
    ensures forall r :: r in Found(pairs) <==> r.count > 0 && multiset(Findings(pairs))[ItemOf(r)] == r.count
    ensures forall i, j :: 0 <= i < j < |Found(pairs)| ==> ItemOf(Found(pairs)[i]) != ItemOf(Found(pairs)[j])
  {
    hide Tally, Only, Findings;
    var items := Findings(pairs);
    var rules := Only(items, true);
    var c, found := Tally(rules), Found(pairs);
    RulesAreHeld(pairs);
    TallyIsCount(rules);
    OnlyThose(items, true);
    forall r ensures r in found <==> r.count > 0 && multiset(items)[ItemOf(r)] == r.count {
      var item := ItemOf(r);
      if r in found {
        var k :| 0 <= k < |found| && found[k] == r;
        assert c.order[k] == item && item in c.order;
      }
      if r.count > 0 && multiset(items)[item] == r.count {
        assert item in c.order;
        var k :| 0 <= k < |c.order| && c.order[k] == item;
        assert found[k] == r;
      }
    }
    forall i, j | 0 <= i < j < |found| ensures ItemOf(found[i]) != ItemOf(found[j]) {
      assert c.order[i] != c.order[j];
    }
  }

  lemma {:induction false} FindingsHold(pairs: Pairs, k: nat)
    requires k < |pairs|
    ensures forall item :: item in Collect(pairs[k].0, pairs[k].1, None) ==> item in Findings(pairs)
  {
    hide Collect;
    var n := |pairs| - 1;
    if k < n {
      FindingsHold(pairs[..n], k);
      assert pairs[..n][k] == pairs[k];
    }
  }

  lemma {:induction false} FindingsOk(pairs: Pairs)
    ensures ItemsOk(Findings(pairs))
  {
    hide Collect, RowOk;
    if pairs != [] {
      var n := |pairs| - 1;
      FindingsOk(pairs[..n]);
      CollectIsOk(pairs[n].0, pairs[n].1, None);
      ItemsOkConcat(Findings(pairs[..n]), Collect(pairs[n].0, pairs[n].1, None));
    }
  }

  /** Nothing is asked of the rows found: what the theorems on merging need holds of all that is recorded. */
  lemma FoundIsOk(pairs: Pairs)
    ensures forall r :: r in Found(pairs) ==> RowOk(r)
  {
    hide Findings, Found, RowOk;
    FindingsOk(pairs);
    FoundIsCount(pairs);
    var items := Findings(pairs);
    forall r | r in Found(pairs) ensures RowOk(r) {
      var k :| 0 <= k < |items| && items[k] == ItemOf(r);
      assert RowOf(items[k], r.count) == r;
    }
  }

  /** Everything recorded for a pair is counted. */
  lemma FoundCounts(pairs: Pairs, k: nat)
    requires k < |pairs|
    ensures Counted(Collect(pairs[k].0, pairs[k].1, None), Found(pairs))
  {
    hide Findings, Found, Collect;
    FindingsHold(pairs, k);
    FoundIsCount(pairs);
    var items := Collect(pairs[k].0, pairs[k].1, None);
    forall i | 0 <= i < |items| && items[i].Derived? ensures exists count: nat :: RowOf(items[i], count) in Found(pairs) {
      assert items[i] in items;
      var r := RowOf(items[i], multiset(Findings(pairs))[items[i]]);
      assert ItemOf(r) == items[i] && r in Found(pairs);
    }
  }

  /** Another rule of the same key and change: recorded rules then differ in the new tag only. */
  predicate OtherTag(a: Row, b: Row) {
    b == a.(newTag := b.newTag, count := b.count)
  }

  lemma TwinsDifferInTag(a: Row, b: Row)
    requires RowOk(a) && RowOk(b)
    ensures RowKey(a) == RowKey(b) && SameChange(a, b) <==> OtherTag(a, b)
  {
    KeyOfIsInjective(a.parent, a.tag, Some(a.len), b.parent, b.tag, Some(b.len));
  }

  /**
   * Of the rules derived under a key, the first seen most often is kept exactly when no rule that makes the same
   * change towards another new tag comes after it.
   */
  lemma FrequentRuleIsKept(pairs: Pairs, i: nat)
    requires i < |Found(pairs)| && SeenMost(Found(pairs), i)
    ensures var found := Found(pairs);
            var rows := Tabulate(found).rows;
            && RowKey(found[i]) in rows
            && (rows[RowKey(found[i])] == found[i] <==> forall j :: i < j < |found| ==> !OtherTag(found[i], found[j]))
  {
    hide Found, Tabulate, RowOk, SeenMost, RowKey, OtherTag, SameChange;
    var found := Found(pairs);
    FoundIsCount(pairs);
    FoundIsOk(pairs);
    MostSeenIsKept(found, i) by {
      assert forall j :: 0 <= j < |found| && j != i ==> ItemOf(found[j]) != ItemOf(found[i]);
    }
    forall j | i < j < |found|
      ensures RowKey(found[j]) == RowKey(found[i]) && SameChange(found[j], found[i]) <==> OtherTag(found[i], found[j])
    {
      assert found[i] in found && found[j] in found;
      TwinsDifferInTag(found[i], found[j]);
      SameChangeIsSymmetric(found[i], found[j]);
    }
  }

  // ---- from pairs to rewritten trees

  /** The table `derive` and `generalize` leave. */
  function DerivedTable(pairs: Pairs): Table {
    Tabulate(Found(pairs))
  }

  predicate Reproduced(rules: Rules, pair: (Node, Node)) {
    Render(Apply(pair.0, rules, None)) == Render(pair.1)
  }

  /**
   * A pair of lists behind the derived table: all that was recorded for it is rules, no list without a rule of its own
   * has its key in the table, and at every list the merged rules meet the plain ones.
   */
  ghost predicate Settled(table: Table, pair: (Node, Node)) {
    && pair.0.List? && pair.1.List?
    && AllDerived(Collect(pair.0, pair.1, None))
    && Spared(table, pair.0, pair.1, None) && Covered(table, pair.0, None)
  }

  /** Derived and generalized without conflicts, the rules turn every settled old tree into the new one. */
  lemma DeriveReproduces(pairs: Pairs, k: nat)
    requires DerivedTable(pairs).conflicts == [] && k < |pairs| && Settled(DerivedTable(pairs), pairs[k])
    ensures Reproduced(GeneralizeTable(DerivedTable(pairs)), pairs[k])
  {
    hide Found, Tabulate, Collect, Spared, Covered, GeneralizeTable, AllDerived, Counted;
    FoundIsOk(pairs);
    FoundCounts(pairs, k);
    GeneralizedReproduces(Found(pairs), pairs[k].0, pairs[k].1, None);
  }

  // ---- the loops

  /** One more finding is counted where it belongs. */
  lemma TallyNext(items: seq<Item>, item: Item, rules: bool)
    ensures var before := Tally(Only(items, rules));
            Tally(Only(items + [item], rules)) == if item.Derived? == rules then Bump(before, item) else before
  {
    var kept := Only(items, rules);
    assert (items + [item])[..|items|] == items;
    assert (kept + [item])[..|kept|] == kept;
    assert kept + [] == kept;
  }

  lemma NoProblems(items: seq<Item>)
    ensures Tally(Only(items, false)).order == [] <==> AllDerived(items)
  {
    var problems := Tally(Only(items, false)).order;
    TallyIsCount(Only(items, false));
    OnlyThose(items, false);
    forall k | 0 <= k < |items| && !items[k].Derived? ensures problems != [] {
      assert items[k] in items && items[k] in problems;
    }
    if problems != [] {
      assert problems[0] in problems && problems[0] in items;
    }
  }

  /** Rules and problems of all pairs, counted apart. */
  method Derive(pairs: Pairs) returns (found: Counter, problems: Counter)
    ensures found == RuleCounts(pairs) && problems == Tally(Only(Findings(pairs), false))
    ensures problems.order == [] <==> AllDerived(Findings(pairs))
  {
    hide Tally, Only, Collect, Bump, AllDerived;
    found, problems := Counter([], map[]), Counter([], map[]);
    NothingTallied();
    var n := 0;
    while n < |pairs|
      invariant n <= |pairs|
      invariant found == Tally(Only(Findings(pairs[..n]), true)) && problems == Tally(Only(Findings(pairs[..n]), false))
    {
      var out := CollectInto(pairs[n].0, pairs[n].1, None, []);
      ghost var before := Findings(pairs[..n]);
      assert [] + Collect(pairs[n].0, pairs[n].1, None) == Collect(pairs[n].0, pairs[n].1, None);
      assert before + out[..0] == before;
      var k := 0;
      while k < |out|
        invariant k <= |out|
        invariant found == Tally(Only(before + out[..k], true)) && problems == Tally(Only(before + out[..k], false))
      {
        TallyNext(before + out[..k], out[k], true);
        TallyNext(before + out[..k], out[k], false);
        assert before + out[..k + 1] == before + out[..k] + [out[k]];
        if out[k].Derived? {
          found := Bump(found, out[k]);
        } else {
          problems := Bump(problems, out[k]);
        }
        k := k + 1;
      }
      assert before + out[..k] == before + out && pairs[..n + 1][..n] == pairs[..n];
      n := n + 1;
    }
    assert pairs[..n] == pairs;
    NoProblems(Findings(pairs));
  }

  lemma NothingTallied()
    ensures Findings([]) == [] && forall rules :: Tally(Only([], rules)) == Counter([], map[])
  {
  }

  /** How many of the pairs, all of which differ, the rules reproduce. */
  method Verify(rules: Rules, pairs: Pairs) returns (total: nat, equal: nat)
    ensures total == |pairs| && equal == |set k: nat | k < |pairs| && Reproduced(rules, pairs[k])|
    ensures equal == total <==> forall k :: 0 <= k < |pairs| ==> Reproduced(rules, pairs[k])
  {
    total, equal := 0, 0;
    ghost var hits: set<nat> := {};
    while total < |pairs|
      invariant total <= |pairs| && equal == |hits| <= total
      invariant hits == set k: nat | k < total && Reproduced(rules, pairs[k])
      invariant equal == total <==> forall k :: 0 <= k < total ==> Reproduced(rules, pairs[k])
    {
      var (a, b) := pairs[total];
      var upgraded := ApplyRules(a, rules, None);
      if Render(upgraded) == Render(b) {
        hits := hits + {total as nat};
        equal := equal + 1;
      }
      total := total + 1;
    }
  }

  /**
   * The two commands one after the other: once nothing is in conflict and every pair is settled, verifying the rules on
   * the stores they were derived from finds every row equal.
   */
  method DeriveAndVerify(pairs: Pairs) returns (conflicts: seq<(string, Row, Row)>, total: nat, equal: nat)
    ensures conflicts == [] <==> Agree(Found(pairs))
    ensures conflicts == [] && (forall k :: 0 <= k < |pairs| ==> Settled(DerivedTable(pairs), pairs[k])) ==>
              equal == total == |pairs|
  {
    hide Found, RuleCounts, Tabulate, Settled, Reproduced, Agree, GeneralizeTable, RowOk;
    FoundIsOk(pairs);
    var found, problems := Derive(pairs);
    FoundAre(pairs);
    forall r | r in Found(pairs) ensures TagsOk(r) { OkHasTags(r); }
    var rules;
    rules, conflicts := GeneralizeRules(Rows(found));
    total, equal := Verify(rules, pairs);
    forall k | conflicts == [] && 0 <= k < |pairs| && Settled(DerivedTable(pairs), pairs[k])
      ensures Reproduced(rules, pairs[k])
    {
      DeriveReproduces(pairs, k);
    }
  }

  lemma FoundAre(pairs: Pairs)
    ensures HoldsRules(RuleCounts(pairs)) && Found(pairs) == Rows(RuleCounts(pairs))
  {
    RulesAreHeld(pairs);
  }

  lemma OkHasTags(r: Row)
    requires RowOk(r)
    ensures TagsOk(r)
  {
  }
}
