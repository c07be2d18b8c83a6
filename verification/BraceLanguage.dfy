/** The scanners and the tree reader agree: a printed tree is split into exactly the prints of its members. */
module BraceLanguage {
  import opened Prelude
  import opened BraceTree
  import opened BraceText
  import opened BraceScanners

  /** `x` stands in `t` at offset `j`. */
  predicate Stands(t: string, j: nat, x: string) {
    j + |x| <= |t| && t[j..j + |x|] == x
  }

  lemma StandsParts(t: string, j: nat, x: string, y: string)
    requires Stands(t, j, x + y)
    ensures Stands(t, j, x) && Stands(t, j + |x|, y)
  {
    assert (x + y)[..|x|] == x && (x + y)[|x|..] == y;
    assert t[j..j + |x|] == t[j..j + |x + y|][..|x|];
    assert t[j + |x|..j + |x + y|] == t[j..j + |x + y|][|x|..];
  }

  /** A leaf's text changes neither the depth nor the field. */
  lemma {:induction false} LeafIsSkipped(t: string, j: nat, text: string, depth: nat, start: nat, q: bool)
    requires Stands(t, j, text) && Run(text, q) == Some(false)
    ensures Spans(t, j, depth, start, q) == Spans(t, j + |text|, depth, start, false)
    decreases |text|
  {
    if text != "" {
      assert t[j] == text[0];
      StandsParts(t, j, [text[0]], text[1..]);
      assert text == [text[0]] + text[1..];
      LeafIsSkipped(t, j + 1, text[1..], depth, start, if text[0] == '"' then !q else q);
    }
  }

  lemma CharStands(t: string, j: nat, x: string, c: char, y: string)
    requires Stands(t, j, x + ([c] + y))
    ensures Stands(t, j, x) && j + |x| < |t| && t[j + |x|] == c && Stands(t, j + |x| + 1, y)
  {
    StandsParts(t, j, x, [c] + y);
    StandsParts(t, j + |x|, [c], y);
    assert t[j + |x|..j + |x| + 1][0] == c;
  }

  /** A member of a comma-joined list, and what follows it. */
  lemma JoinedStands(t: string, j: nat, parts: seq<string>, x: string, others: seq<string>)
    requires parts == [x] + others && Stands(t, j, CommaJoin(parts) + "}")
    ensures Stands(t, j, x) && j + |x| < |t|
    ensures |CommaJoin(parts)| == |x| + (if others == [] then 0 else 1 + |CommaJoin(others)|)
    ensures if others == [] then t[j + |x|] == '}'
            else t[j + |x|] == ',' && Stands(t, j + |x| + 1, CommaJoin(others) + "}")
  {
    JoinCons(x, others);
    if others == [] {
      assert x + "}" == x + (['}'] + "");
      CharStands(t, j, x, '}', "");
    } else {
      var tail := CommaJoin(others);
      assert x + "," + tail + "}" == x + ([','] + (tail + "}"));
      CharStands(t, j, x, ',', tail + "}");
    }
  }

  /** A nested printed tree changes neither the depth nor the field around it. */
  lemma {:induction false} NodeIsSkipped(t: string, j: nat, node: Node, depth: nat, start: nat)
    requires WellFormed(node) && Stands(t, j, Render(node))
    ensures Spans(t, j, depth, start, false) == Spans(t, j + |Render(node)|, depth, start, false)
    decreases node, 0
  {
    match node
    case Leaf(text) => LeafIsSkipped(t, j, text, depth, start, false);
    case List(items) =>
      var body := CommaJoin(Renders(items)) + "}";
      assert Render(node) == [] + (['{'] + body);
      CharStands(t, j, [], '{', body);
      MembersAreSkipped(t, j + 1, items, depth + 1, start);
  }

  lemma {:induction false} MembersAreSkipped(t: string, j: nat, items: seq<Node>, depth: nat, start: nat)
    requires items != [] && (forall k :: 0 <= k < |items| ==> WellFormed(items[k])) && depth > 0
    requires Stands(t, j, CommaJoin(Renders(items)) + "}")
    ensures Spans(t, j, depth, start, false) == Spans(t, j + |CommaJoin(Renders(items))| + 1, depth - 1, start, false)
    decreases items, 1
  {
    hide Render, WellFormed;
    JoinedStands(t, j, Renders(items), Render(items[0]), Renders(items[1..]));
    NodeIsSkipped(t, j, items[0], depth, start);
    if |items| > 1 {
      MembersAreSkipped(t, j + |Render(items[0])| + 1, items[1..], depth, start);
    }
  }

  /** The spans found from `j` on cut out exactly the printed members. */
  predicate CutsTo(t: string, j: nat, items: seq<Node>)
    requires j <= |t|
  {
    var r := Spans(t, j, 0, j, false);
    && r.Some?
    && Within(r.value.0, |t|)
    && Cut(t, r.value.0) == Renders(items)
    && r.value.1 == j + |CommaJoin(Renders(items))| + 1
  }

  lemma LastMemberCut(t: string, j: nat, item: Node)
    requires Stands(t, j, Render(item)) && WellFormed(item)
    requires j + |Render(item)| < |t| && t[j + |Render(item)|] == '}'
    ensures CutsTo(t, j, [item])
  {
    var k := j + |Render(item)|;
    NodeIsSkipped(t, j, item, 0, j);
    assert Cut(t, [(j, k)]) == [t[j..k]];
    JoinCons(Render(item), []);
    assert Renders([item]) == [Render(item)] + [];
  }

  lemma FirstMemberCut(t: string, j: nat, items: seq<Node>)
    requires |items| > 1 && Stands(t, j, Render(items[0])) && WellFormed(items[0])
    requires var k := j + |Render(items[0])|; k < |t| && t[k] == ',' && CutsTo(t, k + 1, items[1..])
    ensures CutsTo(t, j, items)
  {
    var k := j + |Render(items[0])|;
    NodeIsSkipped(t, j, items[0], 0, j);
    var rest := Spans(t, k + 1, 0, k + 1, false).value.0;
    assert Cut(t, [(j, k)] + rest) == [t[j..k]] + Cut(t, rest);
    JoinCons(Render(items[0]), Renders(items[1..]));
  }

  lemma {:induction false} MembersAreCut(t: string, j: nat, items: seq<Node>)
    requires items != [] && forall k :: 0 <= k < |items| ==> WellFormed(items[k])
    requires Stands(t, j, CommaJoin(Renders(items)) + "}")
    ensures CutsTo(t, j, items)
    decreases |items|
  {
    JoinedStands(t, j, Renders(items), Render(items[0]), Renders(items[1..]));
    if |items| == 1 {
      assert items == [items[0]];
      LastMemberCut(t, j, items[0]);
    } else {
      MembersAreCut(t, j + |Render(items[0])| + 1, items[1..]);
      FirstMemberCut(t, j, items);
    }
  }

  /**
   * Wherever a well-formed list is printed, splitting it gives the prints of its members and its end, and
   * reading it gives the members themselves.
   */
  lemma SplitAgreesWithParse(before: string, node: Node, after: string)
    requires node.List? && WellFormed(node)
    ensures var t := before + Render(node) + after;
            && t[|before|] == '{'
            && FieldsOf(t, |before|).Some?
            && Within(FieldsOf(t, |before|).value.0, |t|)
            && Cut(t, FieldsOf(t, |before|).value.0) == Renders(node.items)
            && FieldsOf(t, |before|).value.1 == |before| + |Render(node)|
            && Parse(t[|before|..]) == Done(node, after)
  {
    var t := before + Render(node) + after;
    var body := CommaJoin(Renders(node.items)) + "}";
    assert t == before + (['{'] + (body + after));
    assert Stands(t, 0, before + (['{'] + (body + after)));
    CharStands(t, 0, before, '{', body + after);
    StandsParts(t, |before| + 1, body, after);
    MembersAreCut(t, |before| + 1, node.items);
    MembersAreRead(node.items, [], after);
    assert t[|before|..][1..] == body + after && [] + node.items == node.items;
  }
}
