/** `generalize`: one rule per key, and append rules of several lengths merged into a length-free one. */
module Generalize {
  import opened Prelude
  import opened BraceTree
  import opened UpgradeRules
  import opened UpgradeEngine

  type Tagged = Option<string>

  datatype Row = Row(parent: Tagged, tag: Tagged, len: nat, newTag: Tagged, newLen: nat,
                     sets: seq<(nat, string, string)>, inserts: seq<(nat, string)>, count: nat)

  function RowKey(r: Row): string {
    KeyOf(r.parent, r.tag, Some(r.len))
  }

  function ToRule(r: Row): Rule {
    Rule(r.sets, Inserts(r.inserts))
  }

  // ---- one row per key

  /** The rows by key, their keys in order of first insertion, and the rows that disagreed. */
  datatype Table = Table(order: seq<string>, rows: map<string, Row>, conflicts: seq<(string, Row, Row)>)

  function Put(table: Table, r: Row): Table {
    var k := RowKey(r);
    if k !in table.rows then Table(table.order + [k], table.rows[k := r], table.conflicts)
    else
      var held := table.rows[k];
      if (held.sets, held.inserts) == (r.sets, r.inserts) then table.(rows := table.rows[k := r])
      else
        var noted := table.(conflicts := table.conflicts + [(k, held, r)]);
        if r.count <= held.count then noted else noted.(rows := table.rows[k := r])
  }

  function Tabulate(found: seq<Row>): Table {
    if found == [] then Table([], map[], [])
    else Put(Tabulate(found[..|found| - 1]), found[|found| - 1])
  }

  // ---- append rows, grouped

  /** Every insertion lies at or past the old end, and nothing but the first member is set. */
  predicate Appended(r: Row) {
    && (forall k :: 0 <= k < |r.inserts| ==> r.inserts[k].0 >= r.len)
    && (forall k :: 0 <= k < |r.sets| ==> r.sets[k].0 == 0)
  }

  /** The append rows, in table order. */
  function AppendRows(table: Table, order: seq<string>): seq<Row> {
    if order == [] then []
    else
      (if order[0] in table.rows && Appended(table.rows[order[0]]) then [table.rows[order[0]]] else [])
      + AppendRows(table, order[1..])
  }

  function GroupOf(rows: seq<Row>, g: (Tagged, Tagged)): seq<Row> {
    if rows == [] then []
    else (if (rows[0].parent, rows[0].tag) == g then [rows[0]] else []) + GroupOf(rows[1..], g)
  }

  /** The groups in order of first appearance. */
  function GroupKeys(rows: seq<Row>): seq<(Tagged, Tagged)> {
    if rows == [] then []
    else
      var before, g := GroupKeys(rows[..|rows| - 1]), (rows[|rows| - 1].parent, rows[|rows| - 1].tag);
      if g in before then before else before + [g]
  }

  function Values(at: seq<(nat, string)>): (r: seq<string>)
    ensures |r| == |at|
    ensures forall k :: 0 <= k < |at| ==> r[k] == at[k].1
  {
    seq(|at|, k requires 0 <= k < |at| => at[k].1)
  }

  /** More than one length, one list of appended values, one new tag. */
  predicate Merges(group: seq<Row>) {
    && |group| > 1
    && forall k :: 0 <= k < |group| ==>
         Values(group[k].inserts) == Values(group[0].inserts) && group[k].newTag == group[0].newTag
  }

  function StarRule(group: seq<Row>): Rule
    requires group != []
  {
    Rule(group[0].sets, Append(Values(group[0].inserts)))
  }

  function MergeOne(rules: Rules, rows: seq<Row>, g: (Tagged, Tagged)): Rules {
    var group := GroupOf(rows, g);
    if Merges(group) then
      (rules - (set k | 0 <= k < |group| :: RowKey(group[k])))[KeyOf(g.0, g.1, None) := StarRule(group)]
    else rules
  }

  function MergeAll(rules: Rules, rows: seq<Row>, groups: seq<(Tagged, Tagged)>): Rules
    decreases |groups|
  {
    if groups == [] then rules
    else MergeAll(MergeOne(rules, rows, groups[0]), rows, groups[1..])
  }

  function Plain(table: Table): Rules {
    map k | k in table.rows :: ToRule(table.rows[k])
  }

  function GeneralizeTable(table: Table): Rules {
    var rows := AppendRows(table, table.order);
    MergeAll(Plain(table), rows, GroupKeys(rows))
  }

  // ---- what an append row does to a list

  /** What setting the first member does to it. */
  function SetHead(sets: seq<(nat, string, string)>, x: Node): Node
    decreases |sets|
  {
    if sets == [] then x
    else SetHead(sets[1..], if sets[0].0 == 0 && x == Leaf(sets[0].1) then Leaf(sets[0].2) else x)
  }

  predicate OnlyHead(sets: seq<(nat, string, string)>) {
    forall k :: 0 <= k < |sets| ==> sets[k].0 == 0
  }

  lemma {:induction false} HeadSets(kids: seq<Node>, sets: seq<(nat, string, string)>)
    requires OnlyHead(sets)
    ensures ApplySets(kids, sets) == if kids == [] then [] else [SetHead(sets, kids[0])] + kids[1..]
    decreases |sets|
  {
    if sets != [] {
      var (i, a, b) := sets[0];
      HeadSets(if i < |kids| && kids[i] == Leaf(a) then kids[i := Leaf(b)] else kids, sets[1..]);
    }
  }

  predicate Climbs(at: seq<(nat, string)>, lo: nat) {
    at != [] ==> lo <= at[0].0 && Climbs(at[1..], at[0].0 + 1)
  }

  lemma {:induction false} ClimbingIsSorted(at: seq<(nat, string)>, lo: nat)
    requires Climbs(at, lo)
    ensures Sorted(at) == at
    decreases |at|
  {
    if at != [] {
      ClimbingIsSorted(at[1..], at[0].0 + 1);
      SortedInsertFirst(at[0], at[1..]);
    }
  }

  /** Insertions past the end append, in order. */
  lemma {:induction false} InsertPastEnd(out: seq<Node>, at: seq<(nat, string)>)
    requires Climbs(at, |out|)
    ensures InsertAll(out, LeavesAt(at)) == out + Leaves(Values(at))
    decreases |at|
  {
    if at != [] {
      assert LeavesAt(at)[1..] == LeavesAt(at[1..]);
      ClimbsFrom(at[1..], at[0].0 + 1, |out| + 1);
      InsertPastEnd(out + [Leaf(at[0].1)], at[1..]);
      assert out + Leaves(Values(at)) == out + [Leaf(at[0].1)] + Leaves(Values(at[1..]));
    } else {
      assert out + Leaves(Values(at)) == out;
    }
  }

  lemma ClimbsFrom(at: seq<(nat, string)>, lo: nat, low: nat)
    requires Climbs(at, lo) && low <= lo
    ensures Climbs(at, low)
  {
  }

  /** A row whose insertions are recorded upwards, as `collect` records them. */
  predicate Upwards(r: Row) {
    Climbs(r.inserts, 0)
  }

  lemma SortedPastEnd(out: seq<Node>, at: seq<(nat, string)>)
    requires Climbs(at, 0) && (at != [] ==> at[0].0 >= |out|)
    ensures InsertAll(out, LeavesAt(Sorted(at))) == out + Leaves(Values(at))
  {
    ClimbingIsSorted(at, 0);
    InsertPastEnd(out, at);
  }

  lemma AppendedRowActs(r: Row, kids: seq<Node>)
    requires Appended(r) && Upwards(r) && |kids| == r.len
    ensures ApplyRule(ToRule(r), kids) == ApplySets(kids, r.sets) + Leaves(Values(r.inserts))
  {
    SortedPastEnd(ApplySets(kids, r.sets), r.inserts);
  }

  lemma SameTail(x: Node, y: Node, rest: seq<Node>, values: seq<Node>)
    ensures [x] + rest + values == [y] + rest + values <==> x == y
  {
    assert ([x] + rest + values)[0] == x && ([y] + rest + values)[0] == y;
  }

  /** Two rows leave the same first member of a list. */
  predicate SameHead(a: Row, b: Row, kids: seq<Node>) {
    kids != [] ==> SetHead(a.sets, kids[0]) == SetHead(b.sets, kids[0])
  }

  /**
   * On a list of the length a row was recorded for, the merged rule does what the row did exactly when both
   * leave the same first member.
   */
  lemma StarActsIffHeadsAgree(group: seq<Row>, k: nat, kids: seq<Node>)
    requires Merges(group) && k < |group| && |kids| == group[k].len
    requires Appended(group[0]) && Appended(group[k]) && Upwards(group[k])
    ensures ApplyRule(StarRule(group), kids) == ApplyRule(ToRule(group[k]), kids) <==> SameHead(group[0], group[k], kids)
  {
    AppendedRowActs(group[k], kids);
    HeadSets(kids, group[0].sets);
    HeadSets(kids, group[k].sets);
    if kids != [] {
      SameTail(SetHead(group[0].sets, kids[0]), SetHead(group[k].sets, kids[0]), kids[1..], Leaves(Values(group[0].inserts)));
    }
  }

  // ---- the merged table

  /** Parent and own tags are numbers or absent, as `tag` gives them. */
  predicate TagsOk(r: Row) {
    IsTag(r.parent) && IsTag(r.tag)
  }

  ghost predicate TableOk(table: Table) {
    && (forall k :: k in table.rows ==> RowKey(table.rows[k]) == k && TagsOk(table.rows[k]))
    && (forall k :: k in table.rows <==> k in table.order)
  }

  /** Putting a row changes at most its own key. */
  lemma PutShape(table: Table, r: Row, k: string)
    requires k == RowKey(r)
    ensures var put := Put(table, r);
            && (put.rows == table.rows[k := r] || (k in table.rows && put.rows == table.rows))
            && put.order == if k in table.rows then table.order else table.order + [k]
  {
  }

  lemma ChangeOk(table: Table, put: Table, r: Row, k: string)
    requires TableOk(table) && TagsOk(r) && k == RowKey(r)
    requires put.rows == table.rows[k := r] || (k in table.rows && put.rows == table.rows)
    requires put.order == if k in table.rows then table.order else table.order + [k]
    ensures TableOk(put) && put.rows.Keys == table.rows.Keys + {k}
  {
    forall q | q in put.rows ensures RowKey(put.rows[q]) == q && TagsOk(put.rows[q]) {
      if put.rows[q] != r {
        assert put.rows[q] == table.rows[q];
      }
    }
  }

  /** The table holds one row per key found, and only rows that were found. */
  ghost predicate Tabulated(table: Table, found: seq<Row>) {
    && TableOk(table)
    && (forall k :: k in table.rows ==> table.rows[k] in found)
    && (forall r :: r in found ==> RowKey(r) in table.rows)
  }

  lemma {:induction false} TabulateIsTable(found: seq<Row>)
    requires forall r :: r in found ==> TagsOk(r)
    ensures Tabulated(Tabulate(found), found)
  {
    if found != [] {
      var init, last := found[..|found| - 1], found[|found| - 1];
      assert found == init + [last];
      TabulateIsTable(init);
      PutShape(Tabulate(init), last, RowKey(last));
      ChangeOk(Tabulate(init), Tabulate(found), last, RowKey(last));
    }
  }

  /** Keys keep the place of their first insertion. */
  lemma {:induction false} OrderGrows(found: seq<Row>, n: nat)
    requires n <= |found|
    ensures Tabulate(found[..n]).order <= Tabulate(found).order
    decreases |found|
  {
    if n == |found| {
      assert found[..n] == found;
    } else {
      var init := found[..|found| - 1];
      OrderGrows(init, n);
      assert init[..n] == found[..n];
      PutShape(Tabulate(init), found[|found| - 1], RowKey(found[|found| - 1]));
    }
  }

  // ---- which row is kept, and what is reported

  /** Rows of one key record the same change. */
  predicate SameChange(a: Row, b: Row) {
    a.sets == b.sets && a.inserts == b.inserts
  }

  /** `found[i]` was seen more often than any row of its key before it, and no less than any after it. */
  predicate SeenMost(found: seq<Row>, i: nat)
    requires i < |found|
  {
    forall j :: 0 <= j < |found| && RowKey(found[j]) == RowKey(found[i]) ==>
      if j < i then found[j].count < found[i].count else found[j].count <= found[i].count
  }

  /** What one more row does to the table. */
  lemma PutRow(table: Table, r: Row, k: string)
    ensures var put := Put(table, r);
            var own := RowKey(r);
            && (k in put.rows <==> k in table.rows || k == own)
            && (k != own && k in table.rows ==> put.rows[k] == table.rows[k])
            && put.rows[own] == (if own !in table.rows || SameChange(table.rows[own], r) || r.count > table.rows[own].count then r
                                 else table.rows[own])
            && put.conflicts == table.conflicts + (if own !in table.rows || SameChange(table.rows[own], r) then []
                                                   else [(own, table.rows[own], r)])
  {
    hide RowKey;
  }

  lemma TabulateLast(found: seq<Row>)
    requires found != []
    ensures Tabulate(found) == Put(Tabulate(found[..|found| - 1]), found[|found| - 1])
  {
    hide Put;
  }

  /** No other row found equals it: what is counted is counted once. */
  predicate Once(found: seq<Row>, i: nat)
    requires i < |found|
  {
    forall j :: 0 <= j < |found| && j != i ==> found[j] != found[i]
  }

  /** A row after it has its key and records its change, and so replaces it whatever the counts. */
  predicate TwinBehind(found: seq<Row>, i: nat)
    requires i < |found|
  {
    exists j :: i < j < |found| && RowKey(found[j]) == RowKey(found[i]) && SameChange(found[j], found[i])
  }

  /** The first of the rows of a key that were seen most often is kept exactly when no twin stands behind it. */
  lemma {:induction false} MostSeenIsKept(found: seq<Row>, i: nat)
    requires i < |found| && SeenMost(found, i) && Once(found, i)
    ensures RowKey(found[i]) in Tabulate(found).rows
    ensures Tabulate(found).rows[RowKey(found[i])] == found[i] <==> !TwinBehind(found, i)
    decreases |found|
  {
    hide Put, Tabulate, RowKey, SameChange, SeenMost, Once, TwinBehind;
    var n, k := |found| - 1, RowKey(found[i]);
    var init, last := found[..n], found[n];
    TabulateLast(found);
    PutRow(Tabulate(init), last, k);
    if i == n {
      MostSeenArrives(found);
    } else {
      assert init[i] == found[i];
      FrontSeen(found, i);
      MostSeenIsKept(init, i);
      MostSeenStays(found, i, Tabulate(init).rows[k]);
    }
  }

  lemma FrontSeen(found: seq<Row>, i: nat)
    requires i < |found| - 1 && SeenMost(found, i) && Once(found, i)
    ensures SeenMost(found[..|found| - 1], i) && Once(found[..|found| - 1], i)
  {
    hide RowKey;
    assert forall j :: 0 <= j < |found| - 1 ==> found[..|found| - 1][j] == found[j];
  }

  /** A row seen more often than all before it gets its key. */
  lemma MostSeenArrives(found: seq<Row>)
    requires found != [] && SeenMost(found, |found| - 1)
    ensures var k := RowKey(found[|found| - 1]);
            k in Tabulate(found).rows && Tabulate(found).rows[k] == found[|found| - 1]
    ensures !TwinBehind(found, |found| - 1)
  {
    hide Put, Tabulate, RowKey, SameChange;
    var n := |found| - 1;
    var k := RowKey(found[n]);
    TabulateLast(found);
    PutRow(Tabulate(found[..n]), found[n], k);
    if k in Tabulate(found[..n]).rows {
      var j := KeptWasFound(found[..n], k);
      assert found[j] == found[..n][j];
    }
  }

  /** One more row replaces a row seen most often exactly when it is its twin. */
  lemma MostSeenStays(found: seq<Row>, i: nat, held: Row)
    requires i < |found| - 1 && SeenMost(found, i) && Once(found, i)
    requires held == found[i] <==> !TwinBehind(found[..|found| - 1], i)
    ensures var last := found[|found| - 1];
            var kept := if RowKey(last) != RowKey(found[i]) then held
                        else if SameChange(held, last) || last.count > held.count then last
                        else held;
            kept == found[i] <==> !TwinBehind(found, i)
  {
    hide RowKey, SameChange;
    var n := |found| - 1;
    assert forall j :: 0 <= j < n ==> found[..n][j] == found[j];
    SameChangeIsSymmetric(found[i], found[n]);
    if TwinBehind(found[..n], i) {
      var j :| i < j < n && RowKey(found[..n][j]) == RowKey(found[i]) && SameChange(found[..n][j], found[i]);
      assert found[..n][j] == found[j];
    }
  }

  lemma SameChangeIsSymmetric(a: Row, b: Row)
    ensures SameChange(a, b) <==> SameChange(b, a)
  {
  }

  /** Every key found has a row seen most often. */
  lemma {:induction false} SomeSeenMost(found: seq<Row>, k: string) returns (i: nat)
    requires exists j :: 0 <= j < |found| && RowKey(found[j]) == k
    ensures i < |found| && RowKey(found[i]) == k && SeenMost(found, i)
    decreases |found|
  {
    hide RowKey;
    var n := |found| - 1;
    var init := found[..n];
    assert forall j :: 0 <= j < n ==> init[j] == found[j];
    if exists j :: 0 <= j < n && RowKey(init[j]) == k {
      i := SomeSeenMost(init, k);
      if RowKey(found[n]) == k && found[n].count > found[i].count {
        LastIsMost(found, i, k);
        i := n;
      }
    } else {
      i := n;
      assert forall j :: 0 <= j < n ==> RowKey(init[j]) != k;
    }
  }

  /** Of the rows of each key, the first seen most often is kept exactly when no twin stands behind it. */
  ghost predicate KeepsMostSeen(rows: map<string, Row>, found: seq<Row>) {
    forall i :: 0 <= i < |found| && SeenMost(found, i) && Once(found, i) ==>
      RowKey(found[i]) in rows && (rows[RowKey(found[i])] == found[i] <==> !TwinBehind(found, i))
  }

  lemma AllMostSeenAreKept(found: seq<Row>)
    ensures KeepsMostSeen(Tabulate(found).rows, found)
  {
    hide Tabulate, RowKey, SeenMost, Once, TwinBehind;
    forall i | 0 <= i < |found| && SeenMost(found, i) && Once(found, i)
      ensures RowKey(found[i]) in Tabulate(found).rows
      ensures Tabulate(found).rows[RowKey(found[i])] == found[i] <==> !TwinBehind(found, i)
    {
      MostSeenIsKept(found, i);
    }
  }

  lemma NothingTabulated()
    ensures Tabulate([]) == Table([], map[], [])
  {
  }

  lemma LastIsMost(found: seq<Row>, i: nat, k: string)
    requires found != [] && i < |found| - 1 && SeenMost(found[..|found| - 1], i)
    requires RowKey(found[i]) == RowKey(found[|found| - 1]) == k && found[|found| - 1].count > found[i].count
    ensures SeenMost(found, |found| - 1)
  {
    hide RowKey;
    var n := |found| - 1;
    forall j | 0 <= j < n && RowKey(found[j]) == k ensures found[j].count < found[n].count {
      assert found[..n][j] == found[j] && found[..n][i] == found[i];
    }
  }

  /** Rows of one key all record the same change. */
  predicate Agree(found: seq<Row>) {
    forall i, j :: 0 <= i < |found| && 0 <= j < |found| && RowKey(found[i]) == RowKey(found[j]) ==>
      SameChange(found[i], found[j])
  }

  /** What is kept under a row's key records the row's own change. */
  predicate Serves(rows: map<string, Row>, found: seq<Row>) {
    forall i :: 0 <= i < |found| ==> RowKey(found[i]) in rows && SameChange(rows[RowKey(found[i])], found[i])
  }

  /** Nothing is reported exactly when rows of one key agree; then every row found is served by the one kept. */
  lemma {:induction false} NoConflictsIffAgree(found: seq<Row>)
    ensures Tabulate(found).conflicts == [] <==> Agree(found)
    ensures Agree(found) ==> Serves(Tabulate(found).rows, found)
    decreases |found|
  {
    hide Put, Tabulate, RowKey, SameChange, Serves;
    NothingTabulated();
    if found == [] {
      assert Serves(map[], found) by { NothingToServe(map[]); }
    } else {
      var init, last := found[..|found| - 1], found[|found| - 1];
      TabulateLast(found);
      NoConflictsIffAgree(init);
      AgreeFront(found);
      PutRow(Tabulate(init), last, RowKey(last));
      if Agree(init) {
        LastAgrees(found, Tabulate(init));
      }
    }
  }

  lemma NothingToServe(rows: map<string, Row>)
    ensures Serves(rows, [])
  {
  }

  lemma AgreeFront(found: seq<Row>)
    requires found != []
    ensures Agree(found) ==> Agree(found[..|found| - 1])
  {
    hide RowKey, SameChange;
    assert forall j :: 0 <= j < |found| - 1 ==> found[..|found| - 1][j] == found[j];
  }

  lemma LastAgrees(found: seq<Row>, table: Table)
    requires found != [] && table == Tabulate(found[..|found| - 1]) && Agree(found[..|found| - 1])
    requires Serves(table.rows, found[..|found| - 1]) && table.conflicts == []
    ensures Put(table, found[|found| - 1]).conflicts == [] <==> Agree(found)
    ensures Agree(found) ==> Serves(Put(table, found[|found| - 1]).rows, found)
  {
    hide Put, Tabulate, RowKey;
    var n := |found| - 1;
    var init, last := found[..n], found[n];
    var k := RowKey(last);
    assert forall j :: 0 <= j < n ==> init[j] == found[j];
    PutRow(table, last, k);
    forall j | 0 <= j < n
      ensures RowKey(found[j]) in table.rows && SameChange(table.rows[RowKey(found[j])], found[j])
    {
      assert SameChange(table.rows[RowKey(init[j])], init[j]);
      PutRow(table, last, RowKey(found[j]));
    }
    if k in table.rows && !SameChange(table.rows[k], last) {
      var i := KeptWasFound(init, k);
      assert RowKey(found[i]) == RowKey(found[n]) && !SameChange(found[i], found[n]);
    } else {
      ServedByPut(found, table);
    }
  }

  lemma ServedByPut(found: seq<Row>, table: Table)
    requires found != []
    requires forall j :: 0 <= j < |found| - 1 ==>
               RowKey(found[j]) in table.rows && SameChange(table.rows[RowKey(found[j])], found[j])
    requires var last := found[|found| - 1]; RowKey(last) in table.rows ==> SameChange(table.rows[RowKey(last)], last)
    ensures Agree(found) && Serves(Put(table, found[|found| - 1]).rows, found)
  {
    hide Put, RowKey;
    var last := found[|found| - 1];
    forall j | 0 <= j < |found|
      ensures RowKey(found[j]) in Put(table, last).rows && SameChange(Put(table, last).rows[RowKey(found[j])], found[j])
    {
      PutRow(table, last, RowKey(found[j]));
    }
  }

  lemma {:induction false} KeptWasFound(found: seq<Row>, k: string) returns (i: nat)
    requires k in Tabulate(found).rows
    ensures i < |found| && found[i] == Tabulate(found).rows[k] && RowKey(found[i]) == k
    decreases |found|
  {
    hide Put, Tabulate, RowKey, SameChange;
    NothingTabulated();
    var n := |found| - 1;
    TabulateLast(found);
    PutRow(Tabulate(found[..n]), found[n], k);
    if Tabulate(found).rows[k] == found[n] && RowKey(found[n]) == k {
      i := n;
    } else {
      i := KeptWasFound(found[..n], k);
    }
  }

  /** What is reported are pairs of found rows of one key whose changes differ. */
  lemma {:induction false} ConflictsAreDisagreements(found: seq<Row>, c: (string, Row, Row))
    requires c in Tabulate(found).conflicts
    ensures c.1 in found && c.2 in found && RowKey(c.1) == RowKey(c.2) == c.0 && !SameChange(c.1, c.2)
    decreases |found|
  {
    hide Put, Tabulate, RowKey, SameChange;
    NothingTabulated();
    var n := |found| - 1;
    var init, last := found[..n], found[n];
    assert found == init + [last];
    TabulateLast(found);
    PutRow(Tabulate(init), last, RowKey(last));
    if c in Tabulate(init).conflicts {
      ConflictsAreDisagreements(init, c);
    } else {
      var i := KeptWasFound(init, RowKey(last));
      assert c == (RowKey(last), init[i], last);
    }
  }

  lemma {:induction false} AppendRowsHold(table: Table, order: seq<string>, k: string)
    requires k in order && k in table.rows && Appended(table.rows[k])
    ensures table.rows[k] in AppendRows(table, order)
  {
    if k != order[0] {
      AppendRowsHold(table, order[1..], k);
    }
  }

  lemma {:induction false} AppendRowsAre(table: Table, order: seq<string>, r: Row)
    requires r in AppendRows(table, order)
    ensures Appended(r) && exists k :: k in table.rows && table.rows[k] == r
  {
    if !(order[0] in table.rows && Appended(table.rows[order[0]]) && table.rows[order[0]] == r) {
      AppendRowsAre(table, order[1..], r);
    }
  }

  lemma {:induction false} GroupHolds(rows: seq<Row>, g: (Tagged, Tagged), r: Row)
    ensures r in GroupOf(rows, g) <==> r in rows && (r.parent, r.tag) == g
  {
    if rows != [] {
      GroupHolds(rows[1..], g, r);
      assert rows == [rows[0]] + rows[1..];
    }
  }

  lemma {:induction false} GroupKeysHold(rows: seq<Row>, r: Row)
    requires r in rows
    ensures (r.parent, r.tag) in GroupKeys(rows)
  {
    var last := |rows| - 1;
    assert rows == rows[..last] + [rows[last]];
    if r != rows[last] {
      GroupKeysHold(rows[..last], r);
    }
  }

  /** Tags of a group are those of its rows. */
  ghost predicate GroupsOk(rows: seq<Row>, groups: seq<(Tagged, Tagged)>) {
    && (forall k :: 0 <= k < |rows| ==> TagsOk(rows[k]))
    && (forall k :: 0 <= k < |groups| ==> IsTag(groups[k].0) && IsTag(groups[k].1))
  }

  lemma {:induction false} GroupKeysOk(rows: seq<Row>)
    requires forall k :: 0 <= k < |rows| ==> TagsOk(rows[k])
    ensures GroupsOk(rows, GroupKeys(rows))
  {
    if rows != [] {
      GroupKeysOk(rows[..|rows| - 1]);
    }
  }

  /** Merging group `g` removes its own exact keys, adds its own length-free key, and leaves every other key. */
  lemma MergeOneKeys(rules: Rules, rows: seq<Row>, g: (Tagged, Tagged), p: Tagged, t: Tagged, n: Option<nat>)
    requires GroupsOk(rows, [g]) && IsTag(p) && IsTag(t)
    ensures var k := KeyOf(p, t, n);
            var merged := MergeOne(rules, rows, g);
            if (p, t) != g || !Merges(GroupOf(rows, g))
            then (k in merged <==> k in rules) && (k in rules ==> merged[k] == rules[k])
            else if n.None? then k in merged && merged[k] == StarRule(GroupOf(rows, g))
            else k in merged ==> k in rules && merged[k] == rules[k]
    ensures n.Some? && (p, t) == g && Merges(GroupOf(rows, g))
            && (exists r :: r in GroupOf(rows, g) && r.len == n.value)
            ==> KeyOf(p, t, n) !in MergeOne(rules, rows, g)
  {
    assert IsTag([g][0].0) && IsTag([g][0].1);
    var group := GroupOf(rows, g);
    KeyOfIsInjective(p, t, n, g.0, g.1, None);
    forall i | 0 <= i < |group|
      ensures RowKey(group[i]) == KeyOf(p, t, n) <==> (p, t) == g && n == Some(group[i].len)
    {
      GroupHolds(rows, g, group[i]);
      KeyOfIsInjective(p, t, n, group[i].parent, group[i].tag, Some(group[i].len));
    }
  }

  lemma GroupsTail(rows: seq<Row>, groups: seq<(Tagged, Tagged)>)
    requires groups != [] && GroupsOk(rows, groups)
    ensures GroupsOk(rows, [groups[0]]) && GroupsOk(rows, groups[1..])
  {
    assert forall k :: 0 <= k < |groups| - 1 ==> groups[1..][k] == groups[k + 1];
  }

  /** A key whose group is not merged keeps its rule through all merges. */
  lemma {:induction false} MergeAllKeeps(rules: Rules, rows: seq<Row>, groups: seq<(Tagged, Tagged)>,
                                         p: Tagged, t: Tagged, n: Option<nat>)
    requires GroupsOk(rows, groups) && IsTag(p) && IsTag(t) && !Merges(GroupOf(rows, (p, t)))
    ensures var k := KeyOf(p, t, n);
            var merged := MergeAll(rules, rows, groups);
            (k in merged <==> k in rules) && (k in rules ==> merged[k] == rules[k])
    decreases |groups|
  {
    if groups != [] {
      GroupsTail(rows, groups);
      MergeOneKeys(rules, rows, groups[0], p, t, n);
      MergeAllKeeps(MergeOne(rules, rows, groups[0]), rows, groups[1..], p, t, n);
    }
  }

  /** The length-free key of a merged group, once set, stays. */
  lemma {:induction false} MergeAllStars(rules: Rules, rows: seq<Row>, groups: seq<(Tagged, Tagged)>, p: Tagged, t: Tagged)
    requires GroupsOk(rows, groups) && IsTag(p) && IsTag(t) && Merges(GroupOf(rows, (p, t)))
    requires var k := KeyOf(p, t, None);
             (p, t) in groups || (k in rules && rules[k] == StarRule(GroupOf(rows, (p, t))))
    ensures var k := KeyOf(p, t, None);
            var merged := MergeAll(rules, rows, groups);
            k in merged && merged[k] == StarRule(GroupOf(rows, (p, t)))
    decreases |groups|
  {
    if groups != [] {
      GroupsTail(rows, groups);
      MergeOneKeys(rules, rows, groups[0], p, t, None);
      assert groups == [groups[0]] + groups[1..];
      MergeAllStars(MergeOne(rules, rows, groups[0]), rows, groups[1..], p, t);
    }
  }

  /** A length-free key comes from the table before, or from merging its own group. */
  lemma {:induction false} MergeAllFree(rules: Rules, rows: seq<Row>, groups: seq<(Tagged, Tagged)>, p: Tagged, t: Tagged)
    requires GroupsOk(rows, groups) && IsTag(p) && IsTag(t)
    ensures var k := KeyOf(p, t, None);
            var merged := MergeAll(rules, rows, groups);
            k in merged && !(k in rules && merged[k] == rules[k])
            ==> Merges(GroupOf(rows, (p, t))) && merged[k] == StarRule(GroupOf(rows, (p, t)))
    decreases |groups|
  {
    hide Merges;
    if groups != [] {
      GroupsTail(rows, groups);
      MergeOneKeys(rules, rows, groups[0], p, t, None);
      MergeAllFree(MergeOne(rules, rows, groups[0]), rows, groups[1..], p, t);
    }
  }

  /** An exact key of a merged group: gone when a row of the group has that length, untouched otherwise. */
  lemma {:induction false} MergeAllExact(rules: Rules, rows: seq<Row>, groups: seq<(Tagged, Tagged)>,
                                         p: Tagged, t: Tagged, n: nat)
    requires GroupsOk(rows, groups) && IsTag(p) && IsTag(t)
    ensures var k := KeyOf(p, t, Some(n));
            var merged := MergeAll(rules, rows, groups);
            k in merged ==> k in rules && merged[k] == rules[k]
    ensures (p, t) in groups && Merges(GroupOf(rows, (p, t))) && (exists r :: r in GroupOf(rows, (p, t)) && r.len == n)
            ==> KeyOf(p, t, Some(n)) !in MergeAll(rules, rows, groups)
    decreases |groups|
  {
    if groups != [] {
      GroupsTail(rows, groups);
      MergeOneKeys(rules, rows, groups[0], p, t, Some(n));
      assert groups == [groups[0]] + groups[1..];
      MergeAllExact(MergeOne(rules, rows, groups[0]), rows, groups[1..], p, t, n);
    }
  }

  /** An exact key keeps its rule unless a row of its own merged group has exactly its length. */
  lemma {:induction false} MergeAllSpares(rules: Rules, rows: seq<Row>, groups: seq<(Tagged, Tagged)>,
                                          p: Tagged, t: Tagged, n: nat)
    requires GroupsOk(rows, groups) && IsTag(p) && IsTag(t)
    requires forall r :: r in GroupOf(rows, (p, t)) ==> r.len != n
    ensures var k := KeyOf(p, t, Some(n));
            var merged := MergeAll(rules, rows, groups);
            (k in merged <==> k in rules) && (k in rules ==> merged[k] == rules[k])
    decreases |groups|
  {
    if groups != [] {
      GroupsTail(rows, groups);
      MergeOneSpares(rules, rows, groups[0], p, t, n);
      MergeAllSpares(MergeOne(rules, rows, groups[0]), rows, groups[1..], p, t, n);
    }
  }

  lemma MergeOneSpares(rules: Rules, rows: seq<Row>, g: (Tagged, Tagged), p: Tagged, t: Tagged, n: nat)
    requires GroupsOk(rows, [g]) && IsTag(p) && IsTag(t)
    requires forall r :: r in GroupOf(rows, (p, t)) ==> r.len != n
    ensures var k := KeyOf(p, t, Some(n));
            var merged := MergeOne(rules, rows, g);
            (k in merged <==> k in rules) && (k in rules ==> merged[k] == rules[k])
  {
    assert IsTag([g][0].0) && IsTag([g][0].1);
    var group := GroupOf(rows, g);
    KeyOfIsInjective(p, t, Some(n), g.0, g.1, None);
    forall i | 0 <= i < |group| ensures RowKey(group[i]) != KeyOf(p, t, Some(n)) {
      GroupHolds(rows, g, group[i]);
      GroupHolds(rows, (p, t), group[i]);
      KeyOfIsInjective(p, t, Some(n), group[i].parent, group[i].tag, Some(group[i].len));
    }
  }

  // ---- the theorem

  lemma TableRows(table: Table)
    requires TableOk(table)
    ensures var rows := AppendRows(table, table.order);
            && GroupsOk(rows, GroupKeys(rows))
            && (forall r :: r in rows ==> Appended(r) && RowKey(r) in table.rows && table.rows[RowKey(r)] == r)
            && (forall k :: k in table.rows && Appended(table.rows[k]) ==> table.rows[k] in rows)
  {
    var rows := AppendRows(table, table.order);
    forall r | r in rows ensures Appended(r) && TagsOk(r) && RowKey(r) in table.rows && table.rows[RowKey(r)] == r {
      AppendRowsAre(table, table.order, r);
    }
    forall k | k in table.rows && Appended(table.rows[k]) ensures table.rows[k] in rows {
      AppendRowsHold(table, table.order, k);
    }
    assert forall k :: 0 <= k < |rows| ==> rows[k] in rows;
    GroupKeysOk(rows);
  }

  /** The group a row of the table belongs to. */
  function GroupIn(table: Table, r: Row): seq<Row> {
    GroupOf(AppendRows(table, table.order), (r.parent, r.tag))
  }

  /**
   * What a list finds in the generalized table: its own row's rule, or, when that row was merged away, the
   * length-free rule of the row's group.
   */
  lemma GeneralizedLookup(table: Table, r: Row)
    requires TableOk(table) && RowKey(r) in table.rows && table.rows[RowKey(r)] == r
    ensures Lookup(GeneralizeTable(table), r.parent, r.tag, r.len)
         == Some(if Appended(r) && Merges(GroupIn(table, r)) then StarRule(GroupIn(table, r)) else ToRule(r))
  {
    var rows := AppendRows(table, table.order);
    var groups, rules, group := GroupKeys(rows), Plain(table), GroupIn(table, r);
    TableRows(table);
    GroupHolds(rows, (r.parent, r.tag), r);
    if Appended(r) && Merges(group) {
      GroupKeysHold(rows, r);
      MergeAllExact(rules, rows, groups, r.parent, r.tag, r.len);
      MergeAllStars(rules, rows, groups, r.parent, r.tag);
    } else if Appended(r) {
      MergeAllKeeps(rules, rows, groups, r.parent, r.tag, Some(r.len));
    } else {
      forall q | q in group ensures q.len != r.len {
        GroupHolds(rows, (r.parent, r.tag), q);
      }
      MergeAllSpares(rules, rows, groups, r.parent, r.tag, r.len);
    }
  }

  /** A numeric tag that an append rule sets becomes the new tag it recorded. */
  predicate HeadOk(r: Row) {
    Appended(r) && r.tag.Some? && r.newTag.Some? ==> SetHead(r.sets, Leaf(r.tag.value)) == Leaf(r.newTag.value)
  }

  ghost predicate RowsOk(table: Table) {
    forall k :: k in table.rows ==> Upwards(table.rows[k]) && HeadOk(table.rows[k])
  }

  /** A row that was merged away leaves the first member of a list as the first row of its group does. */
  predicate HeadsAgree(table: Table, r: Row, kids: seq<Node>) {
    Appended(r) && Merges(GroupIn(table, r)) ==> SameHead(GroupIn(table, r)[0], r, kids)
  }

  /**
   * A list of the length a row was recorded for is rewritten by the generalized table as by the row itself exactly
   * when the row was not merged or the heads agree.
   */
  lemma GeneralizedActsAlike(table: Table, r: Row, kids: seq<Node>)
    requires TableOk(table) && RowKey(r) in table.rows && table.rows[RowKey(r)] == r && Upwards(r) && |kids| == r.len
    ensures Lookup(GeneralizeTable(table), r.parent, r.tag, r.len).Some?
    ensures ApplyRule(Lookup(GeneralizeTable(table), r.parent, r.tag, r.len).value, kids) == ApplyRule(ToRule(r), kids)
       <==> HeadsAgree(table, r, kids)
  {
    GeneralizedLookup(table, r);
    var group := GroupIn(table, r);
    if Appended(r) && Merges(group) {
      var k := MergedRow(table, r);
      StarActsIffHeadsAgree(group, k, kids);
    }
  }

  /** Where a merged row stands in its group, and what it shares with the first. */
  lemma MergedRow(table: Table, r: Row) returns (k: nat)
    requires TableOk(table) && RowKey(r) in table.rows && table.rows[RowKey(r)] == r
    requires Appended(r) && Merges(GroupIn(table, r))
    ensures var group := GroupIn(table, r);
            && k < |group| && group[k] == r && Appended(group[0])
            && group[0].tag == r.tag && group[0].newTag == r.newTag
            && RowKey(group[0]) in table.rows && table.rows[RowKey(group[0])] == group[0]
  {
    var rows, group := AppendRows(table, table.order), GroupIn(table, r);
    TableRows(table);
    GroupHolds(rows, (r.parent, r.tag), r);
    GroupHolds(rows, (r.parent, r.tag), group[0]);
    assert group[0] in group && group[0] in rows && r in rows;
    k :| 0 <= k < |group| && group[k] == r;
  }

  /** They do for numeric tags: a list that still carries the row's own tag is given the row's own new tag. */
  lemma NumericHeadsAgree(table: Table, r: Row, kids: seq<Node>)
    requires TableOk(table) && RowsOk(table) && RowKey(r) in table.rows && table.rows[RowKey(r)] == r
    requires r.tag.Some? && r.newTag.Some? && kids != [] && kids[0] == Leaf(r.tag.value)
    ensures HeadsAgree(table, r, kids)
  {
    if Appended(r) && Merges(GroupIn(table, r)) {
      var k := MergedRow(table, r);
    }
  }
}
