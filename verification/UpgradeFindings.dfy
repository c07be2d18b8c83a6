/** What `collect` finds in a pair of trees, place by place: no rule or problem is made up and none is dropped. */
module UpgradeFindings {
  import opened Prelude
  import opened BraceTree
  import opened Lcs
  import opened Edits
  import opened UpgradeRules
  import opened UpgradeEngine

  /** Lists that print differently. */
  predicate Differ(a: Node, b: Node) {
    a.List? && b.List? && Render(a) != Render(b)
  }

  /** The changed members of two lists, as nodes, each with the position of the old one. */
  function Changed(a: Node, b: Node): seq<(nat, Node, Node)>
    requires a.List? && b.List? && MemberEdits(a, b).Some?
  {
    ScriptInBounds(a, b);
    MembersOf(a, b, MemberEdits(a, b).value.changed)
  }

  function MembersOf(a: Node, b: Node, changed: Pairing): (ms: seq<(nat, Node, Node)>)
    requires a.List? && b.List? && InBounds(changed, |a.items|, |b.items|)
    ensures |ms| == |changed|
    ensures forall m :: m in ms ==> m.1 in a.items
  {
    if changed == [] then []
    else
      assert changed[0] in changed;
      [(changed[0].0, a.items[changed[0].0], b.items[changed[0].1])] + MembersOf(a, b, changed[1..])
  }

  /** Going down from (`src`, `dst`) through changed members one comes to the lists (`a`, `b`), inside a list tagged `q`. */
  ghost predicate Visits(src: Node, dst: Node, parent: Option<string>, a: Node, b: Node, q: Option<string>)
    decreases src
  {
    || (a == src && b == dst && q == parent)
    || (Differ(src, dst) && MemberEdits(src, dst).Some?
        && exists m :: m in Changed(src, dst) && m.1.List? && m.2.List? && Visits(m.1, m.2, Tag(src), a, b, q))
  }

  /** What is recorded of two lists that differ. */
  ghost predicate Tells(a: Node, b: Node, q: Option<string>, item: Item) {
    Differ(a, b) &&
    match item
    case Unaligned(parent, tag, len, newTag, newLen) =>
      && MemberEdits(a, b).None?
      && parent == q && tag == Tag(a) && len == |a.items| && newTag == Tag(b) && newLen == |b.items|
    case Shape(parent, tag, len, index) =>
      && MemberEdits(a, b).Some? && parent == q && tag == Tag(a) && len == |a.items|
      && exists m :: m in Changed(a, b) && m.0 == index && m.1.List? != m.2.List?
    case Derived(parent, tag, len, newTag, newLen, sets, inserts) =>
      && MemberEdits(a, b).Some? && (sets != [] || inserts != [])
      && parent == q && tag == Tag(a) && len == |a.items| && newTag == Tag(b) && newLen == |b.items|
      && sets == TextChanges(Changed(a, b))
      && |inserts| == |MemberEdits(a, b).value.inserts|
      && forall k :: 0 <= k < |inserts| ==>
           inserts[k].0 == MemberEdits(a, b).value.inserts[k] < |b.items| && inserts[k].1 == Render(b.items[inserts[k].0])
  }

  /** The changed members that are texts on both sides. */
  function TextChanges(ms: seq<(nat, Node, Node)>): seq<(nat, string, string)> {
    if ms == [] then []
    else (if ms[0].1.Leaf? && ms[0].2.Leaf? then [(ms[0].0, ms[0].1.text, ms[0].2.text)] else []) + TextChanges(ms[1..])
  }

  lemma {:induction false} SetsAreTextChanges(a: Node, b: Node, changed: Pairing)
    requires a.List? && b.List? && InBounds(changed, |a.items|, |b.items|)
    ensures SetsOf(a.items, b.items, changed) == TextChanges(MembersOf(a, b, changed))
  {
    if changed != [] {
      assert changed[0] in changed;
      SetsAreTextChanges(a, b, changed[1..]);
    }
  }

  /** What the changed members of a list give. */
  ghost predicate FromMember(src: Node, parent: Option<string>, m: (nat, Node, Node), item: Item)
    requires src.List?
  {
    if m.1.List? && m.2.List? then item in Collect(m.1, m.2, Tag(src))
    else m.1.List? != m.2.List? && item == Shape(parent, Tag(src), |src.items|, m.0)
  }

  lemma {:induction false} FromMembers(src: Node, dst: Node, parent: Option<string>, changed: Pairing, item: Item)
    requires src.List? && dst.List? && InBounds(changed, |src.items|, |dst.items|)
    ensures item in CollectChanged(src, dst, parent, changed)
       <==> exists m :: m in MembersOf(src, dst, changed) && FromMember(src, parent, m, item)
    decreases |changed|
  {
    hide Collect;
    if changed != [] {
      assert changed[0] in changed;
      FromMembers(src, dst, parent, changed[1..], item);
      var m := (changed[0].0, src.items[changed[0].0], dst.items[changed[0].1]);
      var rest := MembersOf(src, dst, changed[1..]);
      assert MembersOf(src, dst, changed) == [m] + rest;
      assert item in CollectChanged(src, dst, parent, changed)
        <==> FromMember(src, parent, m, item) || item in CollectChanged(src, dst, parent, changed[1..]);
      assert forall x :: x in [m] + rest <==> x == m || x in rest;
    }
  }

  lemma InsertsAre(items: seq<Node>, at: seq<nat>, ins: seq<(nat, string)>)
    requires Below(at, |items|)
    ensures ins == PickAt(Renders(items), at) <==>
              |ins| == |at| && forall k :: 0 <= k < |ins| ==> ins[k].0 == at[k] && ins[k].1 == Render(items[ins[k].0])
  {
    forall k | 0 <= k < |at| ensures Renders(items)[at[k]] == Render(items[at[k]]) {
      RendersAt(items, at[k]);
    }
  }

  /** The rule of a list that has a script. */
  function OwnRule(src: Node, dst: Node, parent: Option<string>): seq<Item>
    requires src.List? && dst.List? && MemberEdits(src, dst).Some?
  {
    ScriptInBounds(src, dst);
    var e := MemberEdits(src, dst).value;
    var sets, inserts := SetsOf(src.items, dst.items, e.changed), PickAt(Renders(dst.items), e.inserts);
    if inserts == [] && sets == [] then []
    else [Derived(parent, Tag(src), |src.items|, Tag(dst), |dst.items|, sets, inserts)]
  }

  lemma OwnRuleIsTold(src: Node, dst: Node, parent: Option<string>, item: Item)
    requires Differ(src, dst) && MemberEdits(src, dst).Some?
    ensures item in OwnRule(src, dst, parent) <==> !item.Shape? && Tells(src, dst, parent, item)
  {
    hide Tag, Renders, MemberEdits;
    ScriptInBounds(src, dst);
    var e := MemberEdits(src, dst).value;
    SetsAreTextChanges(src, dst, e.changed);
    if item.Derived? {
      InsertsAre(dst.items, e.inserts, item.inserts);
    }
  }

  lemma OfOneList(src: Node, dst: Node, parent: Option<string>, item: Item)
    ensures item in Collect(src, dst, parent) <==>
              || (Differ(src, dst) && !item.Shape? && Tells(src, dst, parent, item))
              || (Differ(src, dst) && MemberEdits(src, dst).Some?
                  && exists m :: m in Changed(src, dst) && FromMember(src, parent, m, item))
  {
    hide CollectChanged, SetsOf, Tag, MemberEdits;
    if Differ(src, dst) && MemberEdits(src, dst).Some? {
      ScriptInBounds(src, dst);
      var e := MemberEdits(src, dst).value;
      FromMembers(src, dst, parent, e.changed, item);
      OwnRuleIsTold(src, dst, parent, item);
      assert Collect(src, dst, parent) == CollectChanged(src, dst, parent, e.changed) + OwnRule(src, dst, parent);
    }
  }

  lemma {:induction false} Found(src: Node, dst: Node, parent: Option<string>, item: Item)
    requires item in Collect(src, dst, parent)
    ensures exists a, b, q :: Visits(src, dst, parent, a, b, q) && Tells(a, b, q, item)
    decreases src
  {
    hide Collect, Tells;
    OfOneList(src, dst, parent, item);
    if Tells(src, dst, parent, item) {
    } else {
      var m :| m in Changed(src, dst) && FromMember(src, parent, m, item);
      if m.1.List? && m.2.List? {
        Found(m.1, m.2, Tag(src), item);
        var a, b, q :| Visits(m.1, m.2, Tag(src), a, b, q) && Tells(a, b, q, item);
        assert Visits(src, dst, parent, a, b, q);
      } else {
        ShapeIsTold(src, dst, parent, m, item);
      }
    }
  }

  lemma ShapeIsTold(src: Node, dst: Node, parent: Option<string>, m: (nat, Node, Node), item: Item)
    requires Differ(src, dst) && MemberEdits(src, dst).Some? && m in Changed(src, dst)
    requires m.1.List? != m.2.List? && item == Shape(parent, Tag(src), |src.items|, m.0)
    ensures Tells(src, dst, parent, item)
  {
  }

  lemma {:induction false} Recorded(src: Node, dst: Node, parent: Option<string>, a: Node, b: Node, q: Option<string>, item: Item)
    requires Visits(src, dst, parent, a, b, q) && Tells(a, b, q, item)
    ensures item in Collect(src, dst, parent)
    decreases src
  {
    hide Collect;
    OfOneList(src, dst, parent, item);
    if a == src && b == dst && q == parent {
      if item.Shape? {
        var m :| m in Changed(a, b) && m.0 == item.index && m.1.List? != m.2.List?;
        assert FromMember(src, parent, m, item);
      }
    } else {
      var m :| m in Changed(src, dst) && m.1.List? && m.2.List? && Visits(m.1, m.2, Tag(src), a, b, q);
      Recorded(m.1, m.2, Tag(src), a, b, q, item);
      assert FromMember(src, parent, m, item);
    }
  }

  /**
   * What is recorded for a pair of trees is what its lists tell, going down through changed members: a list that has no
   * script is unaligned, a member that is text on one side only has changed its shape, and every other list gives one rule
   * with its changed texts and its insertions, unless it has neither.
   */
  lemma FindingsAre(src: Node, dst: Node, parent: Option<string>, item: Item)
    ensures item in Collect(src, dst, parent)
       <==> exists a, b, q :: Visits(src, dst, parent, a, b, q) && Tells(a, b, q, item)
  {
    if item in Collect(src, dst, parent) {
      Found(src, dst, parent, item);
    }
    if a, b, q :| Visits(src, dst, parent, a, b, q) && Tells(a, b, q, item) {
      Recorded(src, dst, parent, a, b, q, item);
    }
  }
}
