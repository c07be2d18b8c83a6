/** Deriving rules from an (old, new) pair and the theorem that applying them turns the old tree into the new one. */
module UpgradeEngine {
  import opened Prelude
  import opened BraceTree
  import opened Lcs
  import opened Edits
  import opened UpgradeRules

  datatype Item =
    | Unaligned(parent: Option<string>, tag: Option<string>, len: nat, newTag: Option<string>, newLen: nat)
    | Shape(parent: Option<string>, tag: Option<string>, len: nat, index: nat)
    | Derived(parent: Option<string>, tag: Option<string>, len: nat, newTag: Option<string>, newLen: nat,
              sets: seq<(nat, string, string)>, inserts: seq<(nat, string)>)

  function MemberEdits(src: Node, dst: Node): Option<Script>
    requires src.List? && dst.List?
  {
    EditScript(Renders(src.items), Renders(dst.items))
  }

  predicate InBounds(changed: Pairing, n: nat, m: nat) {
    forall p :: p in changed ==> p.0 < n && p.1 < m
  }

  /** The changed members that are texts on both sides. */
  function SetsOf(src: seq<Node>, dst: seq<Node>, changed: Pairing): seq<(nat, string, string)>
    requires InBounds(changed, |src|, |dst|)
  {
    if changed == [] then []
    else
      var (i, j) := changed[0];
      assert changed[0] in changed;
      (if src[i].Leaf? && dst[j].Leaf? then [(i, src[i].text, dst[j].text)] else [])
      + SetsOf(src, dst, changed[1..])
  }

  predicate Below(at: seq<nat>, n: nat) {
    forall k :: 0 <= k < |at| ==> at[k] < n
  }

  /** The members of `full` at the positions `at`. */
  function Pick<T>(full: seq<T>, at: seq<nat>): (r: seq<T>)
    requires Below(at, |full|)
    ensures |r| == |at|
    ensures forall k :: 0 <= k < |at| ==> r[k] == full[at[k]]
  {
    seq(|at|, k requires 0 <= k < |at| => full[at[k]])
  }

  /** The same, each with its position. */
  function PickAt<T>(full: seq<T>, at: seq<nat>): (r: seq<(nat, T)>)
    requires Below(at, |full|)
    ensures |r| == |at|
    ensures forall k :: 0 <= k < |at| ==> r[k] == (at[k], full[at[k]])
  {
    seq(|at|, k requires 0 <= k < |at| => (at[k], full[at[k]]))
  }

  lemma ScriptInBounds(src: Node, dst: Node)
    requires src.List? && dst.List? && MemberEdits(src, dst).Some?
    ensures InBounds(MemberEdits(src, dst).value.changed, |src.items|, |dst.items|)
    ensures Below(MemberEdits(src, dst).value.inserts, |dst.items|)
  {
    var ka, kb := Renders(src.items), Renders(dst.items);
    PairsOrdered(ka, kb);
    ScanIsComplete(Walk(ka, kb, 0, 0), 0, 0, |ka|, |kb|);
    var s, to := MemberEdits(src, dst).value, Align(Walk(ka, kb, 0, 0), 0, 0, |ka|, |kb|);
    AscendingBounds(to, 0, |kb|);
    AscendingBounds(s.inserts, 0, |kb|);
    forall p | p in s.changed ensures p.0 < |ka| && p.1 < |kb| {
      assert to[p.0] in to;
    }
    forall k | 0 <= k < |s.inserts| ensures s.inserts[k] < |kb| {
      assert s.inserts[k] in s.inserts;
    }
  }

  /** `collect`: the rules and problems recorded for a pair, members first. */
  function Collect(src: Node, dst: Node, parent: Option<string>): seq<Item>
    decreases src, 1, 0
  {
    if Render(src) == Render(dst) || !(src.List? && dst.List?) then []
    else match MemberEdits(src, dst)
      case None => [Unaligned(parent, Tag(src), |src.items|, Tag(dst), |dst.items|)]
      case Some(e) =>
        ScriptInBounds(src, dst);
        var sets := SetsOf(src.items, dst.items, e.changed);
        var inserts := PickAt(Renders(dst.items), e.inserts);
        CollectChanged(src, dst, parent, e.changed)
        + (if inserts == [] && sets == [] then []
           else [Derived(parent, Tag(src), |src.items|, Tag(dst), |dst.items|, sets, inserts)])
  }

  function CollectChanged(src: Node, dst: Node, parent: Option<string>, changed: Pairing): seq<Item>
    requires src.List? && dst.List? && InBounds(changed, |src.items|, |dst.items|)
    decreases src, 0, |changed|
  {
    if changed == [] then []
    else
      var (i, j) := changed[0];
      assert changed[0] in changed;
      var a, b := src.items[i], dst.items[j];
      (if a.List? && b.List? then Collect(a, b, Tag(src))
       else if a.Leaf? && b.Leaf? then []
       else [Shape(parent, Tag(src), |src.items|, i)])
      + CollectChanged(src, dst, parent, changed[1..])
  }

  // ---- the hypotheses of the theorem

  predicate AllDerived(items: seq<Item>) {
    forall k :: 0 <= k < |items| ==> items[k].Derived?
  }

  /** No list inside `node` has a rule. */
  predicate Quiet(rules: Rules, node: Node, parent: Option<string>)
    decreases node
  {
    node.List? ==>
      && Lookup(rules, parent, Tag(node), |node.items|).None?
      && forall k :: 0 <= k < |node.items| ==> Quiet(rules, node.items[k], Tag(node))
  }

  /** The rule a list's key names is the script recorded for it; a list without a script has no rule. */
  predicate HasScript(rules: Rules, src: Node, dst: Node, parent: Option<string>, e: Script)
    requires src.List? && dst.List? && MemberEdits(src, dst) == Some(e)
  {
    ScriptInBounds(src, dst);
    var sets := SetsOf(src.items, dst.items, e.changed);
    var inserts := PickAt(Renders(dst.items), e.inserts);
    Lookup(rules, parent, Tag(src), |src.items|)
    == if inserts == [] && sets == [] then None else Some(Rule(sets, Inserts(inserts)))
  }

  /** Every list of the old tree has exactly the script its key names; lists inside unchanged members have none. */
  ghost predicate Fits(rules: Rules, src: Node, dst: Node, parent: Option<string>)
    decreases src
  {
    if Render(src) == Render(dst) then Quiet(rules, src, parent)
    else src.List? && dst.List? && MemberEdits(src, dst).Some? ==>
      var e := MemberEdits(src, dst).value;
      && HasScript(rules, src, dst, parent, e)
      && (forall p :: p in e.changed && p.0 < |src.items| && p.1 < |dst.items| ==>
            Fits(rules, src.items[p.0], dst.items[p.1], Tag(src)))
      && (forall k :: 0 <= k < |src.items| && (forall p :: p in e.changed ==> p.0 != k) ==>
            Quiet(rules, src.items[k], Tag(src)))
  }

  // ---- the theorem

  lemma {:induction false} QuietIsUntouched(rules: Rules, node: Node, parent: Option<string>)
    requires Quiet(rules, node, parent)
    ensures Apply(node, rules, parent) == node
    decreases node
  {
    if node.List? {
      forall k | 0 <= k < |node.items| ensures ApplyEach(node.items, rules, Tag(node))[k] == node.items[k] {
        ApplyEachAt(node.items, rules, Tag(node), k);
        QuietIsUntouched(rules, node.items[k], Tag(node));
      }
      assert ApplyEach(node.items, rules, Tag(node)) == node.items;
    }
  }

  predicate Rebuilt<T(==)>(full: seq<T>, to: seq<nat>, inserts: seq<nat>, j: nat)
    requires j <= |full| && Below(to, |full|) && Below(inserts, |full|)
  {
    InsertAll(full[..j] + Pick(full, to), PickAt(full, inserts)) == full
  }

  lemma RebuiltByInsert<T>(full: seq<T>, to: seq<nat>, inserts: seq<nat>, j: nat)
    requires j < |full| && Below(to, |full|) && Below(inserts, |full|)
    requires inserts != [] && inserts[0] == j && Rebuilt(full, to, inserts[1..], j + 1)
    ensures Rebuilt(full, to, inserts, j)
  {
    assert InsertAt(full[..j] + Pick(full, to), j, full[j]) == full[..j + 1] + Pick(full, to);
    assert PickAt(full, inserts)[1..] == PickAt(full, inserts[1..]);
  }

  lemma RebuiltByKept<T>(full: seq<T>, to: seq<nat>, inserts: seq<nat>, j: nat)
    requires j < |full| && Below(to, |full|) && Below(inserts, |full|)
    requires to != [] && to[0] == j && Rebuilt(full, to[1..], inserts, j + 1)
    ensures Rebuilt(full, to, inserts, j)
  {
    assert full[..j] + Pick(full, to) == full[..j + 1] + Pick(full, to[1..]);
  }

  /** Inserting values at their final positions, upwards, rebuilds the list they and the kept members came from. */
  lemma {:induction false} InsertingRebuilds<T>(full: seq<T>, to: seq<nat>, inserts: seq<nat>, j: nat)
    requires j <= |full| && Partitions(inserts, to, j, |full|)
    requires Below(to, |full|) && Below(inserts, |full|)
    ensures Rebuilt(full, to, inserts, j)
    decreases |full| - j
  {
    if j == |full| {
      assert full[..j] + Pick(full, to) == full;
    } else {
      PartitionSplit(inserts, to, j, |full|);
      if j in inserts {
        InsertingRebuilds(full, to, inserts[1..], j + 1);
        RebuiltByInsert(full, to, inserts, j);
      } else {
        InsertingRebuilds(full, to[1..], inserts, j + 1);
        RebuiltByKept(full, to, inserts, j);
      }
    }
  }

  lemma {:induction false} SetLands(src: seq<Node>, dst: seq<Node>, changed: Pairing, out: seq<Node>, k: nat, j: nat)
    requires InBounds(changed, |src|, |dst|) && |out| == |src| && k < |src| && j < |dst|
    requires src[k].Leaf? && dst[j].Leaf? && forall q :: q in changed && q.0 == k ==> q.1 == j
    requires ((k, j) in changed && out[k] == src[k]) || out[k] == dst[j]
    ensures ApplySets(out, SetsOf(src, dst, changed))[k] == dst[j]
    decreases |changed|
  {
    if changed != [] {
      var q: (nat, nat), rest: Pairing := changed[0], changed[1..];
      assert changed == [q] + rest;
      if src[q.0].Leaf? && dst[q.1].Leaf? {
        var set0 := (q.0, src[q.0].text, dst[q.1].text);
        var out' := if out[q.0] == src[q.0] then out[q.0 := dst[q.1]] else out;
        assert SetsOf(src, dst, changed) == [set0] + SetsOf(src, dst, rest);
        assert ApplySets(out, [set0] + SetsOf(src, dst, rest)) == ApplySets(out', SetsOf(src, dst, rest));
        SetLands(src, dst, rest, out', k, j);
      } else {
        assert SetsOf(src, dst, changed) == SetsOf(src, dst, rest);
        SetLands(src, dst, rest, out, k, j);
      }
    }
  }

  lemma {:induction false} SetSpares(src: seq<Node>, dst: seq<Node>, changed: Pairing, out: seq<Node>, k: nat)
    requires InBounds(changed, |src|, |dst|) && |out| == |src| && k < |src|
    requires forall q :: q in changed && q.0 == k ==> !(src[k].Leaf? && dst[q.1].Leaf?)
    ensures ApplySets(out, SetsOf(src, dst, changed))[k] == out[k]
    decreases |changed|
  {
    if changed != [] {
      var q: (nat, nat), rest: Pairing := changed[0], changed[1..];
      assert changed == [q] + rest;
      if src[q.0].Leaf? && dst[q.1].Leaf? {
        var set0 := (q.0, src[q.0].text, dst[q.1].text);
        var out' := if out[q.0] == src[q.0] then out[q.0 := dst[q.1]] else out;
        assert SetsOf(src, dst, changed) == [set0] + SetsOf(src, dst, rest);
        assert ApplySets(out, [set0] + SetsOf(src, dst, rest)) == ApplySets(out', SetsOf(src, dst, rest));
        SetSpares(src, dst, rest, out', k);
      } else {
        assert SetsOf(src, dst, changed) == SetsOf(src, dst, rest);
        SetSpares(src, dst, rest, out, k);
      }
    }
  }

  /** With only rules recorded, every changed pair is two texts, or two lists whose own items are rules. */
  lemma {:induction false} ChangedIsDerived(src: Node, dst: Node, parent: Option<string>, changed: Pairing, p: (nat, nat))
    requires src.List? && dst.List? && InBounds(changed, |src.items|, |dst.items|) && p in changed
    requires AllDerived(CollectChanged(src, dst, parent, changed))
    ensures var a, b := src.items[p.0], dst.items[p.1];
            (a.Leaf? && b.Leaf?) || (a.List? && b.List? && AllDerived(Collect(a, b, Tag(src))))
    decreases |changed|
  {
    var rest := CollectChanged(src, dst, parent, changed[1..]);
    var all := CollectChanged(src, dst, parent, changed);
    var head := all[..|all| - |rest|];
    assert all == head + rest;
    assert forall k :: 0 <= k < |rest| ==> rest[k] == all[|head| + k];
    if p == changed[0] {
      var a, b := src.items[p.0], dst.items[p.1];
      assert head != [] ==> head[0] == all[0] && head[0].Derived?;
      if a.List? && b.List? {
        assert head == Collect(a, b, Tag(src));
        assert forall k :: 0 <= k < |head| ==> head[k] == all[k];
      }
    } else {
      ChangedIsDerived(src, dst, parent, changed[1..], p);
    }
  }

  lemma {:induction false} SortedInsertFirst(p: (nat, string), s: seq<(nat, string)>)
    requires s != [] ==> p.0 < s[0].0
    ensures SortedInsert(p, s) == [p] + s
  {
  }

  /** Insertions recorded upwards are already sorted. */
  lemma {:induction false} AscendingIsSorted(full: seq<string>, at: seq<nat>, lo: nat)
    requires Ascending(at, lo, |full|) && Below(at, |full|)
    ensures Sorted(PickAt(full, at)) == PickAt(full, at)
    decreases |at|
  {
    if at != [] {
      AscendingIsSorted(full, at[1..], at[0] + 1);
      assert PickAt(full, at)[1..] == PickAt(full, at[1..]);
      SortedInsertFirst(PickAt(full, at)[0], PickAt(full, at[1..]));
    }
  }

  lemma {:induction false} InsertAllRenders(out: seq<Node>, at: seq<(nat, string)>)
    ensures Renders(InsertAll(out, LeavesAt(at))) == InsertAll(Renders(out), at)
    decreases |at|
  {
    if at != [] {
      var (j, v) := at[0];
      assert LeavesAt(at)[1..] == LeavesAt(at[1..]);
      InsertAllRenders(InsertAt(out, j, Leaf(v)), at[1..]);
      InsertAtRenders(out, j, v);
    }
  }

  lemma InsertAtRenders(out: seq<Node>, j: nat, v: string)
    ensures Renders(InsertAt(out, j, Leaf(v))) == InsertAt(Renders(out), j, v)
  {
    assert Renders([Leaf(v)]) == [v];
    if j >= |out| {
      RendersConcat(out, [Leaf(v)]);
    } else {
      RendersConcat(out[..j], [Leaf(v)]);
      RendersConcat(out[..j] + [Leaf(v)], out[j..]);
      RendersConcat(out[..j], out[j..]);
      assert out == out[..j] + out[j..];
      assert Renders(out)[..j] == Renders(out[..j]) && Renders(out)[j..] == Renders(out[j..]);
    }
  }

  /** Member k after rewriting and setting prints as the new member it goes to. */
  lemma MemberReproduced(rules: Rules, src: Node, dst: Node, parent: Option<string>, e: Script, to: seq<nat>, k: nat)
    requires src.List? && dst.List? && MemberEdits(src, dst) == Some(e) && Render(src) != Render(dst)
    requires InBounds(e.changed, |src.items|, |dst.items|) && Below(to, |dst.items|)
    requires AllDerived(CollectChanged(src, dst, parent, e.changed)) && Fits(rules, src, dst, parent)
    requires IsGraph(to, 0, Walk(Renders(src.items), Renders(dst.items), 0, 0), e.changed)
    requires k < |src.items| == |to|
    requires forall p :: p in e.changed && src.items[p.0].List? && dst.items[p.1].List? ==>
               Render(Apply(src.items[p.0], rules, Tag(src))) == Render(dst.items[p.1])
    ensures var out := ApplySets(ApplyEach(src.items, rules, Tag(src)), SetsOf(src.items, dst.items, e.changed));
            Render(out[k]) == Renders(dst.items)[to[k]]
  {
    var kids := ApplyEach(src.items, rules, Tag(src));
    var j := to[k];
    ApplyEachAt(src.items, rules, Tag(src), k);
    RendersAt(dst.items, j);
    RendersAt(src.items, k);
    if (k, j) in e.changed {
      ChangedIsDerived(src, dst, parent, e.changed, (k, j));
      if src.items[k].Leaf? {
        SetLands(src.items, dst.items, e.changed, kids, k, j);
      } else {
        SetSpares(src.items, dst.items, e.changed, kids, k);
      }
    } else {
      SetSpares(src.items, dst.items, e.changed, kids, k);
      KeptIsUntouched(rules, src, dst, parent, e, to, k);
    }
  }

  lemma KeptIsUntouched(rules: Rules, src: Node, dst: Node, parent: Option<string>, e: Script, to: seq<nat>, k: nat)
    requires src.List? && dst.List? && MemberEdits(src, dst) == Some(e) && Render(src) != Render(dst)
    requires Below(to, |dst.items|) && Fits(rules, src, dst, parent)
    requires IsGraph(to, 0, Walk(Renders(src.items), Renders(dst.items), 0, 0), e.changed)
    requires k < |src.items| == |to| && (k, to[k]) !in e.changed
    ensures forall p :: p in e.changed ==> p.0 != k
    ensures Renders(src.items)[k] == Renders(dst.items)[to[k]]
    ensures Apply(src.items[k], rules, Tag(src)) == src.items[k]
  {
    var ka, kb := Renders(src.items), Renders(dst.items);
    WalkIsCommon(ka, kb, 0, 0);
    assert (0 + k, to[k]) in Walk(ka, kb, 0, 0);
    assert forall p :: p in e.changed ==> p.0 != k;
    QuietIsUntouched(rules, src.items[k], Tag(src));
  }

  /** Setting, then inserting, gives a list that prints as the new one when every kept member does. */
  lemma ScriptRebuilds(out: seq<Node>, dst: Node, inserts: seq<nat>, to: seq<nat>)
    requires dst.List? && |out| == |to| && Partitions(inserts, to, 0, |dst.items|)
    requires Below(to, |dst.items|) && Below(inserts, |dst.items|)
    requires forall k :: 0 <= k < |out| ==> Render(out[k]) == Renders(dst.items)[to[k]]
    ensures Render(List(InsertAll(out, LeavesAt(Sorted(PickAt(Renders(dst.items), inserts)))))) == Render(dst)
  {
    var kb := Renders(dst.items);
    forall k | 0 <= k < |out| ensures Renders(out)[k] == Pick(kb, to)[k] {
      RendersAt(out, k);
    }
    assert Renders(out) == kb[..0] + Pick(kb, to);
    AscendingIsSorted(kb, inserts, 0);
    InsertAllRenders(out, PickAt(kb, inserts));
    InsertingRebuilds(kb, to, inserts, 0);
  }

  /** What the edit script of a differing pair of lists is known to be. */
  ghost predicate IsEdit(src: Node, dst: Node, e: Script, to: seq<nat>) {
    && src.List? && dst.List? && MemberEdits(src, dst) == Some(e)
    && |to| == |src.items| && Below(to, |dst.items|) && Below(e.inserts, |dst.items|)
    && InBounds(e.changed, |src.items|, |dst.items|)
    && Partitions(e.inserts, to, 0, |dst.items|)
    && IsGraph(to, 0, Walk(Renders(src.items), Renders(dst.items), 0, 0), e.changed)
  }

  lemma EditOfLists(src: Node, dst: Node) returns (to: seq<nat>)
    requires src.List? && dst.List? && MemberEdits(src, dst).Some?
    ensures IsEdit(src, dst, MemberEdits(src, dst).value, to)
  {
    var ka, kb := Renders(src.items), Renders(dst.items);
    PairsOrdered(ka, kb);
    ScanIsComplete(Walk(ka, kb, 0, 0), 0, 0, |ka|, |kb|);
    ScriptInBounds(src, dst);
    to := Align(Walk(ka, kb, 0, 0), 0, 0, |ka|, |kb|);
    AscendingBounds(to, 0, |kb|);
    assert forall k :: 0 <= k < |to| ==> to[k] in to;
  }

  lemma DerivedOfLists(src: Node, dst: Node, parent: Option<string>)
    requires src.List? && dst.List? && Render(src) != Render(dst) && AllDerived(Collect(src, dst, parent))
    ensures MemberEdits(src, dst).Some? && InBounds(MemberEdits(src, dst).value.changed, |src.items|, |dst.items|)
    ensures AllDerived(CollectChanged(src, dst, parent, MemberEdits(src, dst).value.changed))
  {
    var items := Collect(src, dst, parent);
    assert items != [] ==> items[0].Derived?;
    if MemberEdits(src, dst).Some? {
      ScriptInBounds(src, dst);
      var deeper := CollectChanged(src, dst, parent, MemberEdits(src, dst).value.changed);
      assert forall k :: 0 <= k < |deeper| ==> deeper[k] == items[k];
    }
  }

  /** One list, its changed members already reproduced. */
  lemma ListReproduced(rules: Rules, src: Node, dst: Node, parent: Option<string>, e: Script, to: seq<nat>)
    requires IsEdit(src, dst, e, to) && Render(src) != Render(dst)
    requires AllDerived(CollectChanged(src, dst, parent, e.changed)) && Fits(rules, src, dst, parent)
    requires forall p :: p in e.changed && src.items[p.0].List? && dst.items[p.1].List? ==>
               Render(Apply(src.items[p.0], rules, Tag(src))) == Render(dst.items[p.1])
    ensures Render(Apply(src, rules, parent)) == Render(dst)
  {
    var kids := ApplyEach(src.items, rules, Tag(src));
    var sets, inserts := SetsOf(src.items, dst.items, e.changed), PickAt(Renders(dst.items), e.inserts);
    var out := ApplySets(kids, sets);
    forall k | 0 <= k < |out| ensures Render(out[k]) == Renders(dst.items)[to[k]] {
      MemberReproduced(rules, src, dst, parent, e, to, k);
    }
    ScriptRebuilds(out, dst, e.inserts, to);
    assert HasScript(rules, src, dst, parent, e);
    assert Apply(src, rules, parent) == List(InsertAll(out, LeavesAt(Sorted(inserts))));
  }

  /**
   * The upgrade engine: with only rules recorded for (old, new), and a rule table in which every list of the
   * old tree has exactly the script recorded for it, rewriting the old tree prints the new one. Trees that differ are
   * lists, as parsing gives them: for a text at the root nothing is recorded and nothing rewritten.
   */
  lemma {:induction false} EngineReproduces(rules: Rules, src: Node, dst: Node, parent: Option<string>)
    requires Render(src) == Render(dst) || (src.List? && dst.List?)
    requires AllDerived(Collect(src, dst, parent)) && Fits(rules, src, dst, parent)
    ensures Render(Apply(src, rules, parent)) == Render(dst)
    decreases src
  {
    if Render(src) == Render(dst) {
      QuietIsUntouched(rules, src, parent);
    } else {
      DerivedOfLists(src, dst, parent);
      var e := MemberEdits(src, dst).value;
      var to := EditOfLists(src, dst);
      forall p | p in e.changed && src.items[p.0].List? && dst.items[p.1].List?
        ensures Render(Apply(src.items[p.0], rules, Tag(src))) == Render(dst.items[p.1])
      {
        ChangedIsDerived(src, dst, parent, e.changed, p);
        EngineReproduces(rules, src.items[p.0], dst.items[p.1], Tag(src));
      }
      ListReproduced(rules, src, dst, parent, e, to);
    }
  }
}
