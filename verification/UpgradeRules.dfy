/** Rewrite rules for brace lists, their keys, and what applying one does (`_onecdec/upgrade_sim.py`). */
module UpgradeRules {
  import opened Prelude
  import opened BraceTree

  /** Members to set (index, old text, new text), then members to insert or to append. */
  datatype Rule = Rule(sets: seq<(nat, string, string)>, tail: Tail)
  datatype Tail = Inserts(at: seq<(nat, string)>) | Append(values: seq<string>)

  // ---- keys

  function Digit(d: nat): char
    requires d < 10
  {
    ('0' as int + d) as char
  }

  /** The decimal digits of `n`. */
  function Decimal(n: nat): (s: string)
    ensures s != "" && s[|s| - 1] == Digit(n % 10) && (n >= 10 <==> |s| > 1)
  {
    (if n < 10 then "" else Decimal(n / 10)) + [Digit(n % 10)]
  }

  function TagText(t: Option<string>): string {
    match t case None => "None" case Some(s) => s
  }

  /** `None` as length stands for the length-free key. */
  function LenText(n: Option<nat>): string {
    match n case None => "*" case Some(k) => Decimal(k)
  }

  function KeyOf(parent: Option<string>, tag: Option<string>, n: Option<nat>): string {
    TagText(parent) + "|" + (TagText(tag) + "|" + LenText(n))
  }

  predicate IsTag(t: Option<string>) {
    t.Some? ==> IsNumeric(t.value)
  }

  lemma {:induction false} NumericHasNoBar(s: string)
    requires IsNumeric(s)
    ensures '|' !in s && s != "None"
  {
    if s != "" && s[0] == '-' {
      NumericHasNoBar(s[1..]);
      assert s == ['-'] + s[1..];
    }
  }

  lemma TagTextIsInjective(t: Option<string>, u: Option<string>)
    requires IsTag(t) && IsTag(u)
    ensures '|' !in TagText(t)
    ensures TagText(t) == TagText(u) <==> t == u
  {
    if t.Some? { NumericHasNoBar(t.value); }
    if u.Some? { NumericHasNoBar(u.value); }
  }

  lemma {:induction false} DecimalIsInjective(n: nat, k: nat)
    requires Decimal(n) == Decimal(k)
    ensures n == k
    decreases n
  {
    assert n % 10 == k % 10;
    if n >= 10 {
      assert Decimal(n / 10) == Decimal(n)[..|Decimal(n)| - 1];
      assert Decimal(k / 10) == Decimal(k)[..|Decimal(k)| - 1];
      DecimalIsInjective(n / 10, k / 10);
    }
  }

  lemma LenTextIsInjective(n: Option<nat>, k: Option<nat>)
    requires LenText(n) == LenText(k)
    ensures n == k
  {
    assert n.Some? ==> LenText(n)[|LenText(n)| - 1] != '*';
    assert k.Some? ==> LenText(k)[|LenText(k)| - 1] != '*';
    if n.Some? && k.Some? {
      DecimalIsInjective(n.value, k.value);
    }
  }

  lemma {:induction false} SplitAtBar(a: string, b: string, c: string, d: string)
    requires '|' !in a && '|' !in c && a + "|" + b == c + "|" + d
    ensures a == c && b == d
  {
    var l, r := a + "|" + b, c + "|" + d;
    assert l[0] == r[0];
    if a != "" && c != "" {
      assert l[1..] == a[1..] + "|" + b && r[1..] == c[1..] + "|" + d;
      SplitAtBar(a[1..], b, c[1..], d);
    } else {
      assert l[1..] == r[1..];
    }
  }

  /** Different (parent tag, own tag, length) never share a key. */
  lemma KeyOfIsInjective(p: Option<string>, t: Option<string>, n: Option<nat>,
                         q: Option<string>, u: Option<string>, k: Option<nat>)
    requires IsTag(p) && IsTag(t) && IsTag(q) && IsTag(u)
    ensures KeyOf(p, t, n) == KeyOf(q, u, k) <==> p == q && t == u && n == k
  {
    TagTextIsInjective(p, q);
    TagTextIsInjective(q, p);
    TagTextIsInjective(t, u);
    TagTextIsInjective(u, t);
    if KeyOf(p, t, n) == KeyOf(q, u, k) {
      SplitAtBar(TagText(p), TagText(t) + "|" + LenText(n), TagText(q), TagText(u) + "|" + LenText(k));
      SplitAtBar(TagText(t), LenText(n), TagText(u), LenText(k));
      LenTextIsInjective(n, k);
    }
  }

  // ---- applying a rule to a list

  function ApplySets(out: seq<Node>, sets: seq<(nat, string, string)>): (r: seq<Node>)
    ensures |r| == |out|
    decreases |sets|
  {
    if sets == [] then out
    else
      var (i, a, b) := sets[0];
      ApplySets(if i < |out| && out[i] == Leaf(a) then out[i := Leaf(b)] else out, sets[1..])
  }

  /** `list.insert`: past the end it appends. */
  function InsertAt<T>(out: seq<T>, j: nat, v: T): seq<T> {
    if j >= |out| then out + [v] else out[..j] + [v] + out[j..]
  }

  function InsertAll<T>(out: seq<T>, at: seq<(nat, T)>): seq<T>
    decreases |at|
  {
    if at == [] then out else InsertAll(InsertAt(out, at[0].0, at[0].1), at[1..])
  }

  predicate TextLess(s: string, t: string) {
    t != "" && (s == "" || s[0] < t[0] || (s[0] == t[0] && TextLess(s[1..], t[1..])))
  }

  predicate Before(p: (nat, string), q: (nat, string)) {
    p.0 < q.0 || (p.0 == q.0 && TextLess(p.1, q.1))
  }

  function SortedInsert(p: (nat, string), s: seq<(nat, string)>): seq<(nat, string)> {
    if s == [] || !Before(s[0], p) then [p] + s else [s[0]] + SortedInsert(p, s[1..])
  }

  /** `sorted(...)` of (position, text) pairs. */
  function Sorted(s: seq<(nat, string)>): seq<(nat, string)> {
    if s == [] then [] else SortedInsert(s[0], Sorted(s[1..]))
  }

  function Leaves(values: seq<string>): (r: seq<Node>)
    ensures |r| == |values|
    ensures forall k :: 0 <= k < |values| ==> r[k] == Leaf(values[k])
  {
    seq(|values|, k requires 0 <= k < |values| => Leaf(values[k]))
  }

  function LeavesAt(at: seq<(nat, string)>): (r: seq<(nat, Node)>)
    ensures |r| == |at|
    ensures forall k :: 0 <= k < |at| ==> r[k] == (at[k].0, Leaf(at[k].1))
  {
    seq(|at|, k requires 0 <= k < |at| => (at[k].0, Leaf(at[k].1)))
  }

  function ApplyRule(rule: Rule, kids: seq<Node>): seq<Node> {
    var out := ApplySets(kids, rule.sets);
    match rule.tail
    case Append(values) => out + Leaves(values)
    case Inserts(at) => InsertAll(out, LeavesAt(Sorted(at)))
  }

  type Rules = map<string, Rule>

  function Lookup(rules: Rules, parent: Option<string>, tag: Option<string>, n: nat): Option<Rule> {
    var exact, free := KeyOf(parent, tag, Some(n)), KeyOf(parent, tag, None);
    if exact in rules then Some(rules[exact])
    else if free in rules then Some(rules[free])
    else None
  }

  /** Bottom-up rewriting: the tag that names a list's rule is the one it had before its members changed. */
  function Apply(node: Node, rules: Rules, parent: Option<string>): Node
    decreases node, 1
  {
    match node
    case Leaf(_) => node
    case List(items) =>
      var kids := ApplyEach(items, rules, Tag(node));
      match Lookup(rules, parent, Tag(node), |kids|)
      case None => List(kids)
      case Some(rule) => List(ApplyRule(rule, kids))
  }

  function ApplyEach(items: seq<Node>, rules: Rules, parent: Option<string>): (r: seq<Node>)
    ensures |r| == |items|
    decreases items, 0
  {
    if items == [] then [] else [Apply(items[0], rules, parent)] + ApplyEach(items[1..], rules, parent)
  }

  lemma {:induction false} ApplyEachAt(items: seq<Node>, rules: Rules, parent: Option<string>, k: nat)
    requires k < |items|
    ensures ApplyEach(items, rules, parent)[k] == Apply(items[k], rules, parent)
  {
    if k > 0 {
      ApplyEachAt(items[1..], rules, parent, k - 1);
    }
  }

  // ---- what a rule leaves alone, and what it does not

  /** A member no slot names with its text stays. */
  lemma {:induction false} UnnamedStays(out: seq<Node>, sets: seq<(nat, string, string)>, k: nat)
    requires k < |out| && forall s :: s in sets ==> s.0 != k || out[k] != Leaf(s.1)
    ensures ApplySets(out, sets)[k] == out[k]
    decreases |sets|
  {
    if sets != [] {
      var (i, a, b) := sets[0];
      assert sets[0] in sets && forall s :: s in sets[1..] ==> s in sets;
      UnnamedStays(if i < |out| && out[i] == Leaf(a) then out[i := Leaf(b)] else out, sets[1..], k);
    }
  }

  /** A member that has the text its only slot names gets the slot's new text. */
  lemma {:induction false} NamedIsSet(out: seq<Node>, sets: seq<(nat, string, string)>, n: nat)
    requires n < |sets| && sets[n].0 < |out| && out[sets[n].0] == Leaf(sets[n].1)
    requires forall m :: 0 <= m < |sets| && m != n ==> sets[m].0 != sets[n].0
    ensures ApplySets(out, sets)[sets[n].0] == Leaf(sets[n].2)
    decreases |sets|
  {
    var (i, a, b) := sets[0];
    var next := if i < |out| && out[i] == Leaf(a) then out[i := Leaf(b)] else out;
    if n == 0 {
      forall s | s in sets[1..] ensures s.0 != sets[0].0 {
        var m :| 0 <= m < |sets| - 1 && sets[1..][m] == s;
        assert sets[m + 1] == s;
      }
      UnnamedStays(next, sets[1..], sets[0].0);
    } else {
      NamedIsSet(next, sets[1..], n - 1);
    }
  }

  // ---- sorting the insertions

  lemma {:induction false} TextLessIsOrder(s: string, t: string, u: string)
    ensures TextLess(s, t) ==> !TextLess(t, s)
    ensures !TextLess(s, t) && !TextLess(t, s) ==> s == t
    ensures TextLess(s, t) && TextLess(t, u) ==> TextLess(s, u)
    decreases |s| + |t| + |u|
  {
    if s != "" && t != "" && s[0] == t[0] {
      TextLessIsOrder(s[1..], t[1..], if u == "" then "" else u[1..]);
      assert s == [s[0]] + s[1..] && t == [t[0]] + t[1..];
    }
  }

  predicate InOrder(s: seq<(nat, string)>) {
    forall i, j :: 0 <= i < j < |s| ==> !Before(s[j], s[i])
  }

  /** Not coming before is transitive, and coming before excludes the reverse. */
  lemma BeforeIsOrder(p: (nat, string), q: (nat, string), r: (nat, string))
    ensures !Before(q, p) && !Before(r, q) ==> !Before(r, p)
    ensures Before(p, q) ==> !Before(q, p)
  {
    TextLessIsOrder(p.1, q.1, r.1);
    TextLessIsOrder(q.1, r.1, p.1);
    TextLessIsOrder(r.1, p.1, q.1);
  }

  lemma ConsInOrder(p: (nat, string), s: seq<(nat, string)>)
    requires InOrder(s) && forall j :: 0 <= j < |s| ==> !Before(s[j], p)
    ensures InOrder([p] + s) && multiset([p] + s) == multiset(s) + multiset{p}
  {
    hide Before;
    var all := [p] + s;
    assert forall k :: 1 <= k < |all| ==> all[k] == s[k - 1];
  }

  lemma {:induction false} InsertedInOrder(p: (nat, string), s: seq<(nat, string)>)
    requires InOrder(s)
    ensures InOrder(SortedInsert(p, s)) && multiset(SortedInsert(p, s)) == multiset(s) + multiset{p}
  {
    hide Before;
    if s == [] || !Before(s[0], p) {
      forall j | 0 <= j < |s| ensures !Before(s[j], p) {
        if j > 0 {
          BeforeIsOrder(p, s[0], s[j]);
        }
      }
      ConsInOrder(p, s);
    } else {
      var rest := SortedInsert(p, s[1..]);
      assert forall i :: 0 <= i < |s| - 1 ==> s[1..][i] == s[i + 1];
      InsertedInOrder(p, s[1..]);
      BeforeIsOrder(s[0], p, p);
      forall j | 0 <= j < |rest| ensures !Before(rest[j], s[0]) {
        assert rest[j] in multiset(rest);
        if rest[j] != p {
          var k :| 0 <= k < |s[1..]| && s[1..][k] == rest[j];
          assert !Before(s[k + 1], s[0]);
        }
      }
      ConsInOrder(s[0], rest);
      assert s == [s[0]] + s[1..];
    }
  }

  /** `sorted`: the same pairs, none before its predecessor. */
  lemma {:induction false} SortedIsSorted(s: seq<(nat, string)>)
    ensures InOrder(Sorted(s)) && multiset(Sorted(s)) == multiset(s)
  {
    if s != [] {
      SortedIsSorted(s[1..]);
      InsertedInOrder(s[0], Sorted(s[1..]));
      assert s == [s[0]] + s[1..];
    }
  }

  /** The text of a key: tags and length between bars, `None` without a tag and `*` for any length. */
  lemma KeyTexts(n: nat)
    ensures KeyOf(Some("1"), Some("20"), Some(7)) == "1|20|7"
    ensures KeyOf(None, None, None) == "None|None|*"
    ensures n >= 10 ==> Decimal(n) == Decimal(n / 10) + Decimal(n % 10)
  {
  }
}
