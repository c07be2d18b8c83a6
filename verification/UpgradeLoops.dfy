/** `collect` and `apply` with the lists they append to and edit, proved to compute the functions of the engine. */
module UpgradeLoops {
  import opened Prelude
  import opened BraceTree
  import opened Lcs
  import opened Edits
  import opened UpgradeRules
  import opened UpgradeEngine

  // ---- collect

  /** What `collect` records for one changed pair: its own findings below, or that it changed its shape. */
  function OfPair(src: Node, dst: Node, parent: Option<string>, i: nat, j: nat): seq<Item>
    requires src.List? && dst.List? && i < |src.items| && j < |dst.items|
  {
    var a, b := src.items[i], dst.items[j];
    if a.List? && b.List? then Collect(a, b, Tag(src))
    else if a.Leaf? && b.Leaf? then []
    else [Shape(parent, Tag(src), |src.items|, i)]
  }

  /** Two changed texts are one slot of the script. */
  function SetOfPair(src: seq<Node>, dst: seq<Node>, i: nat, j: nat): seq<(nat, string, string)>
    requires i < |src| && j < |dst|
  {
    if src[i].Leaf? && dst[j].Leaf? then [(i, src[i].text, dst[j].text)] else []
  }

  /** The first of the changed pairs, and those behind it. */
  lemma PairInFront(src: Node, dst: Node, parent: Option<string>, changed: Pairing)
    requires src.List? && dst.List? && changed != [] && InBounds(changed, |src.items|, |dst.items|)
    ensures changed[0].0 < |src.items| && changed[0].1 < |dst.items| && InBounds(changed[1..], |src.items|, |dst.items|)
    ensures CollectChanged(src, dst, parent, changed)
         == OfPair(src, dst, parent, changed[0].0, changed[0].1) + CollectChanged(src, dst, parent, changed[1..])
    ensures SetsOf(src.items, dst.items, changed)
         == SetOfPair(src.items, dst.items, changed[0].0, changed[0].1) + SetsOf(src.items, dst.items, changed[1..])
  {
    hide Collect;
    assert changed[0] in changed;
    assert forall p :: p in changed[1..] ==> p in changed;
  }

  method CollectPair(src: Node, dst: Node, parent: Option<string>, i: nat, j: nat, before: seq<Item>)
    returns (out: seq<Item>, sets: seq<(nat, string, string)>)
    requires src.List? && dst.List? && i < |src.items| && j < |dst.items|
    ensures out == before + OfPair(src, dst, parent, i, j)
    ensures sets == SetOfPair(src.items, dst.items, i, j)
    decreases src, 0, 0
  {
    hide Collect;
    out, sets := before, [];
    var a, b := src.items[i], dst.items[j];
    assert before + [] == before;
    if a.List? && b.List? {
      out := CollectInto(a, b, Tag(src), out);
    } else if a.Leaf? && b.Leaf? {
      sets := [(i, a.text, b.text)];
    } else {
      out := out + [Shape(parent, Tag(src), |src.items|, i)];
    }
  }

  /** The loop over the changed members. */
  method CollectMembers(src: Node, dst: Node, parent: Option<string>, changed: Pairing, before: seq<Item>)
    returns (out: seq<Item>, sets: seq<(nat, string, string)>)
    requires src.List? && dst.List? && InBounds(changed, |src.items|, |dst.items|)
    ensures out == before + CollectChanged(src, dst, parent, changed)
    ensures sets == SetsOf(src.items, dst.items, changed)
    decreases src, 0, 1
  {
    hide InBounds, Collect, CollectChanged, SetsOf, OfPair, SetOfPair;
    out, sets := before, [];
    ghost var rest := changed;
    NothingLeft(src, dst, parent);
    var k := 0;
    while k < |changed|
      invariant k <= |changed| && rest == changed[k..] && InBounds(rest, |src.items|, |dst.items|)
      invariant sets + SetsOf(src.items, dst.items, rest) == SetsOf(src.items, dst.items, changed)
      invariant out + CollectChanged(src, dst, parent, rest) == before + CollectChanged(src, dst, parent, changed)
    {
      PairInFront(src, dst, parent, rest);
      ghost var items := OfPair(src, dst, parent, rest[0].0, rest[0].1);
      ghost var slots := SetOfPair(src.items, dst.items, rest[0].0, rest[0].1);
      Regroup(out, items, CollectChanged(src, dst, parent, rest[1..]));
      Regroup(sets, slots, SetsOf(src.items, dst.items, rest[1..]));
      var slot;
      out, slot := CollectPair(src, dst, parent, changed[k].0, changed[k].1, out);
      sets := sets + slot;
      k, rest := k + 1, rest[1..];
    }
    assert out + [] == out && sets + [] == sets;
  }

  lemma NothingLeft(src: Node, dst: Node, parent: Option<string>)
    requires src.List? && dst.List?
    ensures CollectChanged(src, dst, parent, []) == [] && SetsOf(src.items, dst.items, []) == []
  {
  }

  method CollectInto(src: Node, dst: Node, parent: Option<string>, before: seq<Item>) returns (out: seq<Item>)
    ensures out == before + Collect(src, dst, parent)
    decreases src, 1, 0
  {
    if Render(src) == Render(dst) || !(src.List? && dst.List?) {
      assert before + [] == before;
      return before;
    }
    var e := ComputeEdits(Renders(src.items), Renders(dst.items));
    if e.None? {
      return before + [Unaligned(parent, Tag(src), |src.items|, Tag(dst), |dst.items|)];
    }
    ScriptInBounds(src, dst);
    var sets;
    out, sets := CollectMembers(src, dst, parent, e.value.changed, before);
    ghost var members := out;
    var inserts := PickAt(Renders(dst.items), e.value.inserts);
    if inserts != [] || sets != [] {
      out := out + [Derived(parent, Tag(src), |src.items|, Tag(dst), |dst.items|, sets, inserts)];
    }
    assert out == before + Collect(src, dst, parent) by {
      assert out == members + out[|members|..];
      assert members + out[|members|..] == before + (CollectChanged(src, dst, parent, e.value.changed) + out[|members|..]);
    }
  }

  // ---- apply

  /** The rewriting of one list: slots set, then values appended or inserted. */
  method Rewrite(rule: Rule, kids: seq<Node>) returns (out: seq<Node>)
    ensures out == ApplyRule(rule, kids)
  {
    out := kids;
    var k := 0;
    assert rule.sets[0..] == rule.sets;
    while k < |rule.sets|
      invariant k <= |rule.sets| && ApplySets(out, rule.sets[k..]) == ApplySets(kids, rule.sets)
    {
      var (i, a, b) := rule.sets[k];
      assert rule.sets[k..][1..] == rule.sets[k + 1..];
      if i < |out| && out[i] == Leaf(a) {
        out := out[i := Leaf(b)];
      }
      k := k + 1;
    }
    if rule.tail.Append? {
      out := out + Leaves(rule.tail.values);
    } else {
      var at := LeavesAt(Sorted(rule.tail.at));
      ghost var start := out;
      k := 0;
      assert at[0..] == at;
      while k < |at|
        invariant k <= |at| && InsertAll(out, at[k..]) == InsertAll(start, at)
      {
        var (j, v) := at[k];
        assert at[k..][1..] == at[k + 1..];
        out := InsertAt(out, j, v);
        k := k + 1;
      }
    }
  }

  method ApplyRules(node: Node, rules: Rules, parent: Option<string>) returns (r: Node)
    ensures r == Apply(node, rules, parent)
    decreases node
  {
    hide Lookup, ApplyRule, ApplyEach;
    if node.Leaf? {
      return node;
    }
    var kids, k := [], 0;
    while k < |node.items|
      invariant k <= |node.items| && |kids| == k
      invariant forall i :: 0 <= i < k ==> kids[i] == Apply(node.items[i], rules, Tag(node))
    {
      var kid := ApplyRules(node.items[k], rules, Tag(node));
      kids := kids + [kid];
      k := k + 1;
    }
    forall i | 0 <= i < |kids| ensures kids[i] == ApplyEach(node.items, rules, Tag(node))[i] {
      ApplyEachAt(node.items, rules, Tag(node), i);
    }
    assert kids == ApplyEach(node.items, rules, Tag(node));
    var rule := Lookup(rules, parent, Tag(node), |kids|);
    if rule.None? {
      return List(kids);
    }
    var out := Rewrite(rule.value, kids);
    return List(out);
  }
}
