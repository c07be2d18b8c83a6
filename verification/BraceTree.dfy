/** Brace lists: nested lists with text leaves, their printing and their version tags (`_onecdec/upgrade_rules.py`). */
module BraceTree {
  import opened Prelude

  datatype Node = Leaf(text: string) | List(items: seq<Node>)

  /** `','.join(...)` */
  function CommaJoin(parts: seq<string>): string {
    if parts == [] then ""
    else if |parts| == 1 then parts[0]
    else parts[0] + "," + CommaJoin(parts[1..])
  }

  function Render(node: Node): string
    decreases node, 1
  {
    match node
    case Leaf(text) => text
    case List(items) => "{" + CommaJoin(Renders(items)) + "}"
  }

  function Renders(items: seq<Node>): (r: seq<string>)
    ensures |r| == |items|
    decreases items, 0
  {
    if items == [] then [] else [Render(items[0])] + Renders(items[1..])
  }

  lemma {:induction false} RendersAt(items: seq<Node>, k: nat)
    requires k < |items|
    ensures Renders(items)[k] == Render(items[k])
  {
    if k > 0 {
      RendersAt(items[1..], k - 1);
    }
  }

  lemma {:induction false} RendersConcat(a: seq<Node>, b: seq<Node>)
    ensures Renders(a + b) == Renders(a) + Renders(b)
  {
    if a == [] {
      assert a + b == b;
    } else {
      RendersConcat(a[1..], b);
      assert (a + b)[1..] == a[1..] + b;
    }
  }

  // ---- version tags

  function StripMinus(s: string): string {
    if s != "" && s[0] == '-' then StripMinus(s[1..]) else s
  }

  predicate IsDigits(s: string) {
    s != "" && forall k :: 0 <= k < |s| ==> '0' <= s[k] <= '9'
  }

  /** A number, with any number of minus signs in front. */
  predicate IsNumeric(s: string) {
    IsDigits(StripMinus(s))
  }

  /** The version tag of a list: its first member when that is a number. */
  function Tag(node: Node): Option<string> {
    if node.List? && node.items != [] && node.items[0].Leaf? && IsNumeric(node.items[0].text)
    then Some(node.items[0].text)
    else None
  }

  predicate IsMinuses(s: string) {
    forall k :: 0 <= k < |s| ==> s[k] == '-'
  }

  /** A numeric text is minus signs, possibly none, and then one or more ASCII digits. */
  lemma {:induction false} NumericIs(s: string)
    ensures IsNumeric(s) <==> exists n :: 0 <= n < |s| && IsMinuses(s[..n]) && IsDigits(s[n..])
  {
    if s != "" && s[0] == '-' {
      NumericIs(s[1..]);
      forall n | 0 <= n < |s| - 1
        ensures IsMinuses(s[..n + 1]) == IsMinuses(s[1..][..n]) && s[n + 1..] == s[1..][n..]
      {
        assert s[..n + 1] == [s[0]] + s[1..][..n];
      }
      if IsNumeric(s) {
        var n :| 0 <= n < |s[1..]| && IsMinuses(s[1..][..n]) && IsDigits(s[1..][n..]);
        assert IsMinuses(s[..n + 1]) && IsDigits(s[n + 1..]);
      }
      if n :| 0 <= n < |s| && IsMinuses(s[..n]) && IsDigits(s[n..]) {
        assert s[..0] == "" && s[0..] == s;
        assert n > 0 && IsMinuses(s[1..][..n - 1]) && IsDigits(s[1..][n - 1..]);
      }
    } else if s != "" {
      assert s[0..] == s && s[..0] == "";
      assert forall n :: 0 < n < |s| ==> s[..n][0] == s[0];
    }
  }

  /** A list has a version tag exactly when its first member is such a text, and the tag is that text. */
  lemma TagIs(node: Node, text: string)
    ensures Tag(node) == Some(text) <==> node.List? && node.items != [] && node.items[0] == Leaf(text) && IsNumeric(text)
  {
  }
}
