/** `generalize` with its three loops and its dictionaries, proved to compute `Generalize.GeneralizeTable`. */
module GeneralizeLoops {
  import opened Prelude
  import opened UpgradeRules
  import opened Generalize

  /** First loop: one row per key; on a disagreement the row seen more often stays, and the two are reported. */
  method Collate(found: seq<Row>) returns (table: Table)
    ensures table == Tabulate(found)
    ensures table.conflicts == [] <==> Agree(found)
    ensures Agree(found) ==> Serves(table.rows, found)
    ensures KeepsMostSeen(table.rows, found)
  {
    hide Agree, KeepsMostSeen, Serves, KeyOf;
    var order: seq<string>, rows: map<string, Row>, conflicts: seq<(string, Row, Row)> := [], map[], [];
    var n := 0;
    while n < |found|
      invariant n <= |found| && Table(order, rows, conflicts) == Tabulate(found[..n])
    {
      var r := found[n];
      var k := RowKey(r);
      assert found[..n + 1][..n] == found[..n];
      n := n + 1;
      if k in rows && (rows[k].sets, rows[k].inserts) != (r.sets, r.inserts) {
        conflicts := conflicts + [(k, rows[k], r)];
        if r.count <= rows[k].count {
          continue;
        }
      }
      if k !in rows {
        order := order + [k];
      }
      rows := rows[k := r];
    }
    assert found[..n] == found;
    NoConflictsIffAgree(found);
    AllMostSeenAreKept(found);
    return Table(order, rows, conflicts);
  }

  lemma {:induction false} AppendRowsSnoc(table: Table, order: seq<string>, k: string)
    ensures AppendRows(table, order + [k])
         == AppendRows(table, order) + (if k in table.rows && Appended(table.rows[k]) then [table.rows[k]] else [])
  {
    if order == [] {
      assert [k][1..] == [];
      assert AppendRows(table, [k][1..]) == [];
    } else {
      AppendRowsSnoc(table, order[1..], k);
      assert (order + [k])[1..] == order[1..] + [k];
    }
  }

  lemma {:induction false} GroupOfSnoc(rows: seq<Row>, r: Row, g: (Tagged, Tagged))
    ensures GroupOf(rows + [r], g) == GroupOf(rows, g) + (if (r.parent, r.tag) == g then [r] else [])
  {
    if rows == [] {
      assert [r][1..] == [];
      assert GroupOf([r][1..], g) == [];
    } else {
      GroupOfSnoc(rows[1..], r, g);
      assert (rows + [r])[1..] == rows[1..] + [r];
    }
  }

  type ByTag = map<(Tagged, Tagged), seq<Row>>

  /** The dictionary of groups and its keys in order of insertion. */
  ghost predicate Grouped(app: seq<Row>, groups: seq<(Tagged, Tagged)>, byTag: ByTag) {
    && groups == GroupKeys(app)
    && (forall g :: g in groups <==> g in byTag)
    && (forall g :: if g in byTag then byTag[g] == GroupOf(app, g) else GroupOf(app, g) == [])
  }

  lemma GroupedSnoc(app: seq<Row>, groups: seq<(Tagged, Tagged)>, byTag: ByTag, r: Row)
    requires Grouped(app, groups, byTag)
    ensures var g := (r.parent, r.tag);
            Grouped(app + [r], if g in byTag then groups else groups + [g],
                    byTag[g := (if g in byTag then byTag[g] else []) + [r]])
  {
    assert (app + [r])[..|app|] == app;
    forall h ensures GroupOf(app + [r], h) == GroupOf(app, h) + (if (r.parent, r.tag) == h then [r] else []) {
      GroupOfSnoc(app, r, h);
    }
  }

  lemma NothingGrouped(table: Table)
    ensures AppendRows(table, []) == [] && Grouped([], [], map[])
  {
  }

  /** What the dictionary holds for a group. */
  lemma GroupedAt(app: seq<Row>, groups: seq<(Tagged, Tagged)>, byTag: ByTag, n: nat)
    requires Grouped(app, groups, byTag) && n < |groups|
    ensures groups[n] in byTag && byTag[groups[n]] == GroupOf(app, groups[n])
  {
    assert groups[n] in groups;
  }

  /** Second loop: the append rows, by (parent tag, own tag). */
  method Group(table: Table) returns (groups: seq<(Tagged, Tagged)>, byTag: ByTag)
    requires forall k :: k in table.order ==> k in table.rows
    ensures Grouped(AppendRows(table, table.order), groups, byTag)
  {
    hide Grouped, AppendRows, Appended;
    ghost var app: seq<Row> := [];
    groups, byTag := [], map[];
    NothingGrouped(table);
    assert table.order[..0] == [];
    var n := 0;
    while n < |table.order|
      invariant n <= |table.order| && app == AppendRows(table, table.order[..n])
      invariant Grouped(app, groups, byTag)
    {
      var k := table.order[n];
      assert table.order[..n + 1] == table.order[..n] + [k];
      AppendRowsSnoc(table, table.order[..n], k);
      n := n + 1;
      if Appended(table.rows[k]) {
        var r := table.rows[k];
        var g := (r.parent, r.tag);
        GroupedSnoc(app, groups, byTag, r);
        app := app + [r];
        assert byTag[g := []][g := [] + [r]] == byTag[g := [] + [r]];
        if g !in byTag {
          groups := groups + [g];
          byTag := byTag[g := []];
        }
        byTag := byTag[g := byTag[g] + [r]];
      }
    }
    assert table.order[..n] == table.order;
  }

  /** Third loop: groups of several lengths, one value list and one new tag become one length-free rule. */
  method GeneralizeRules(found: seq<Row>) returns (rules: Rules, conflicts: seq<(string, Row, Row)>)
    requires forall r :: r in found ==> TagsOk(r)
    ensures rules == GeneralizeTable(Tabulate(found)) && conflicts == Tabulate(found).conflicts
    ensures conflicts == [] <==> Agree(found)
  {
    hide Agree, KeepsMostSeen, Serves, Tabulate, Grouped, GroupKeys, GroupOf, StarRule, KeyOf, Plain;
    var table := Collate(found);
    TabulateIsTable(found);
    rules, conflicts := Plain(table), table.conflicts;
    var groups, byTag := Group(table);
    ghost var app := AppendRows(table, table.order);
    var n := 0;
    assert groups[0..] == groups;
    GroupedKeys(app, groups, byTag);
    while n < |groups|
      invariant n <= |groups| && MergeAll(rules, app, groups[n..]) == GeneralizeTable(table)
    {
      var g := groups[n];
      GroupedAt(app, groups, byTag, n);
      assert groups[n..][0] == g && groups[n..][1..] == groups[n + 1..];
      var group := byTag[g];
      if Merges(group) {
        rules := rules - (set k | 0 <= k < |group| :: RowKey(group[k]));
        rules := rules[KeyOf(g.0, g.1, None) := StarRule(group)];
      }
      n := n + 1;
    }
    assert groups[n..] == [];
  }

  lemma GroupedKeys(app: seq<Row>, groups: seq<(Tagged, Tagged)>, byTag: ByTag)
    requires Grouped(app, groups, byTag)
    ensures groups == GroupKeys(app)
  {
  }
}
