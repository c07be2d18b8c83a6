/** Which groups of append rows become a length-free rule, by the rows of the table alone. */
module GeneralizeKeys {
  import opened Prelude
  import opened UpgradeRules
  import opened Generalize
  import opened GeneralizeDerived

  predicate NoRepeats(order: seq<string>) {
    forall i, j :: 0 <= i < j < |order| ==> order[i] != order[j]
  }

  /** Keys stand in the table once, in order of first insertion. */
  lemma {:induction false} OrderHasNoRepeats(found: seq<Row>)
    requires forall r :: r in found ==> TagsOk(r)
    ensures NoRepeats(Tabulate(found).order)
  {
    if found != [] {
      var init, last := found[..|found| - 1], found[|found| - 1];
      assert found == init + [last];
      OrderHasNoRepeats(init);
      TabulateIsTable(init);
      PutShape(Tabulate(init), last, RowKey(last));
    }
  }

  predicate OwnKeys(rows: seq<Row>) {
    forall i, j :: 0 <= i < j < |rows| ==> RowKey(rows[i]) != RowKey(rows[j])
  }

  lemma {:induction false} AppendRowsHaveOwnKeys(table: Table, order: seq<string>)
    requires NoRepeats(order) && forall k :: k in table.rows ==> RowKey(table.rows[k]) == k
    ensures OwnKeys(AppendRows(table, order)) && forall r :: r in AppendRows(table, order) ==> RowKey(r) in order
  {
    hide RowKey, Appended;
    if order != [] {
      AppendRowsHaveOwnKeys(table, order[1..]);
      assert order == [order[0]] + order[1..];
      var rest := AppendRows(table, order[1..]);
      forall i | 0 <= i < |rest| ensures RowKey(rest[i]) in order[1..] {
        assert rest[i] in rest;
      }
    }
  }

  lemma {:induction false} GroupHasOwnKeys(rows: seq<Row>, g: (Tagged, Tagged))
    requires OwnKeys(rows)
    ensures OwnKeys(GroupOf(rows, g))
  {
    hide RowKey;
    if rows != [] {
      GroupHasOwnKeys(rows[1..], g);
      var rest := GroupOf(rows[1..], g);
      forall i | 0 <= i < |rest| ensures RowKey(rest[i]) != RowKey(rows[0]) {
        GroupHolds(rows[1..], g, rest[i]);
        var k :| 0 <= k < |rows[1..]| && rows[1..][k] == rest[i];
        assert rows[k + 1] == rest[i];
      }
    }
  }

  /** A row of the table of this parent and tag that sets nothing but the first member and inserts only past the end. */
  ghost predicate IsAppendRow(table: Table, p: Tagged, t: Tagged, r: Row) {
    && RowKey(r) in table.rows && table.rows[RowKey(r)] == r && r.parent == p && r.tag == t
    && (forall k :: 0 <= k < |r.inserts| ==> r.inserts[k].0 >= r.len)
    && (forall k :: 0 <= k < |r.sets| ==> r.sets[k].0 == 0)
  }

  lemma GroupIsAppendRows(table: Table, p: Tagged, t: Tagged, r: Row)
    requires TableOk(table)
    ensures r in GroupOf(AppendRows(table, table.order), (p, t)) <==> IsAppendRow(table, p, t, r)
  {
    hide AppendRows, GroupOf, GroupKeys, GroupsOk, KeyOf;
    TableRows(table);
    GroupHolds(AppendRows(table, table.order), (p, t), r);
  }

  /** A merged group is one with two lengths at least in which all rows append the same values and share the new tag. */
  lemma MergesIff(table: Table, p: Tagged, t: Tagged)
    requires TableOk(table) && NoRepeats(table.order)
    ensures Merges(GroupOf(AppendRows(table, table.order), (p, t))) <==>
              && (exists a, b :: IsAppendRow(table, p, t, a) && IsAppendRow(table, p, t, b) && a.len != b.len)
              && (forall a, b :: IsAppendRow(table, p, t, a) && IsAppendRow(table, p, t, b) ==>
                    Values(a.inserts) == Values(b.inserts) && a.newTag == b.newTag)
  {
    hide IsAppendRow, AppendRows, GroupOf, TableOk;
    var rows := AppendRows(table, table.order);
    var group := GroupOf(rows, (p, t));
    forall r ensures r in group <==> IsAppendRow(table, p, t, r) {
      GroupIsAppendRows(table, p, t, r);
    }
    assert forall k :: 0 <= k < |group| ==> group[k] in group;
    GroupKeysDiffer(table, p, t);
    if |group| > 1 {
      assert IsAppendRow(table, p, t, group[0]) && IsAppendRow(table, p, t, group[1]) && group[0].len != group[1].len;
    }
  }

  lemma GroupKeysDiffer(table: Table, p: Tagged, t: Tagged)
    requires TableOk(table) && NoRepeats(table.order)
    ensures var group := GroupOf(AppendRows(table, table.order), (p, t));
            |group| > 1 ==> group[0].len != group[1].len
  {
    var rows := AppendRows(table, table.order);
    var group := GroupOf(rows, (p, t));
    AppendRowsHaveOwnKeys(table, table.order);
    GroupHasOwnKeys(rows, (p, t));
    if |group| > 1 {
      GroupHolds(rows, (p, t), group[0]);
      GroupHolds(rows, (p, t), group[1]);
    }
  }

  /** The generalized table has a length-free rule for a parent and a tag exactly then. */
  lemma FreeRuleIff(table: Table, p: Tagged, t: Tagged)
    requires TableOk(table) && NoRepeats(table.order) && IsTag(p) && IsTag(t)
    ensures KeyOf(p, t, None) in GeneralizeTable(table) <==>
              && (exists a, b :: IsAppendRow(table, p, t, a) && IsAppendRow(table, p, t, b) && a.len != b.len)
              && (forall a, b :: IsAppendRow(table, p, t, a) && IsAppendRow(table, p, t, b) ==>
                    Values(a.inserts) == Values(b.inserts) && a.newTag == b.newTag)
  {
    hide IsAppendRow, AppendRows, GroupOf, Merges, KeyOf, TableOk;
    var rows := AppendRows(table, table.order);
    var groups, group := GroupKeys(rows), GroupOf(rows, (p, t));
    MergesIff(table, p, t);
    TableRows(table);
    NoPlainStar(table, p, t);
    if Merges(group) {
      MergedHasKey(rows, p, t);
      MergeAllStars(Plain(table), rows, groups, p, t);
    } else {
      MergeAllKeeps(Plain(table), rows, groups, p, t, None);
    }
  }

  lemma MergedHasKey(rows: seq<Row>, p: Tagged, t: Tagged)
    requires Merges(GroupOf(rows, (p, t)))
    ensures (p, t) in GroupKeys(rows)
  {
    var r := GroupOf(rows, (p, t))[0];
    GroupHolds(rows, (p, t), r);
    GroupKeysHold(rows, r);
  }
}
