/** `compare_stored` of `src/dcs_template_audit.rs`: a compiled body against the stored one, document by document. */
module DcsComparison {
  import opened Prelude
  import opened Numbers
  import opened DcsFraming

  datatype Role = Primary | Settings | Terminal

  datatype Shape =
    | DoesNotFrame
    | CountsDiffer(compiled: nat, stored: nat)
    | FirstDifference(role: Role, index: nat, at: nat)

  datatype Comparison = Comparison(exact: bool, primary: bool, settings: (nat, nat), terminal: bool, shape: Option<Shape>)

  /** How many of the documents 1 to `k - 1` are equal. */
  function Agreeing(a: seq<Bytes>, b: seq<Bytes>, k: nat): (n: nat)
    requires k <= |a| == |b|
    ensures k > 0 ==> n <= k - 1
  {
    if k <= 1 then 0 else Agreeing(a, b, k - 1) + (if a[k - 1] == b[k - 1] then 1 else 0)
  }

  function RoleOf(index: nat, last: nat): Role {
    if index == 0 then Primary else if index == last then Terminal else Settings
  }

  /** `at` is where two texts part. */
  predicate PartAt(left: Bytes, right: Bytes, at: nat) {
    && at <= |left| && at <= |right| && left[..at] == right[..at]
    && (at == |left| || at == |right| || left[at] != right[at])
  }

  /** What the shape says of the first `k` documents: nothing when all are equal, else the first difference. */
  predicate Tells(a: seq<Bytes>, b: seq<Bytes>, k: nat, shape: Option<Shape>)
    requires k <= |a| == |b| && |a| > 0
  {
    match shape
    case None => a[..k] == b[..k]
    case Some(FirstDifference(role, index, at)) =>
      index < k && a[..index] == b[..index] && a[index] != b[index]
      && role == RoleOf(index, |a| - 1) && PartAt(a[index], b[index], at)
    case _ => false
  }

  /** What a comparison reports. */
  predicate Reports(compiled: Bytes, stored: Bytes, c: Comparison) {
    c.exact == (compiled == stored) &&
    match (Split(compiled), Split(stored))
    case (Some(a), Some(b)) =>
      if |a| != |b| then !c.primary && !c.terminal && c.settings == (0, 0) && c.shape == Some(CountsDiffer(|a|, |b|))
      else
        && |a| >= 2
        && c.primary == (a[0] == b[0])
        && c.terminal == (a[|a| - 1] == b[|b| - 1])
        && c.settings == (Agreeing(a, b, |a| - 1), |a| - 2)
        && Tells(a, b, |a|, c.shape)
    case _ => !c.primary && !c.terminal && c.settings == (0, 0) && c.shape == Some(DoesNotFrame)
  }

  method Divergence(left: Bytes, right: Bytes) returns (at: nat)
    ensures PartAt(left, right, at)
  {
    at := 0;
    while at < |left| && at < |right| && left[at] == right[at]
      invariant at <= |left| && at <= |right| && left[..at] == right[..at]
    {
      at := at + 1;
    }
  }

  lemma SplitHasTwo(plain: Bytes)
    ensures Split(plain).Some? ==> |Split(plain).value| >= 2
  {
    if Get(plain, 4, 8).Some? {
      var count := FromLe(plain[4..8]);
      DocsCount(plain, count, 0, 8 + 8 * (count + 1));
    }
  }

  method CompareStored(compiled: Bytes, stored: Bytes) returns (c: Comparison)
    ensures Reports(compiled, stored, c)
  {
    hide Split, PartAt, Tells;
    var a := SplitDocuments(compiled);
    var b := SplitDocuments(stored);
    c := Comparison(compiled == stored, false, (0, 0), false, None);
    if a.None? || b.None? {
      c := c.(shape := Some(DoesNotFrame));
      return;
    }
    if |a.value| != |b.value| {
      c := c.(shape := Some(CountsDiffer(|a.value|, |b.value|)));
      return;
    }
    SplitHasTwo(compiled);
    var left, right, last := a.value, b.value, |b.value| - 1;
    NothingTold(left, right);
    for index := 0 to |left|
      invariant c.exact == (compiled == stored)
      invariant index > 0 ==> c.primary == (left[0] == right[0])
      invariant index > last ==> c.terminal == (left[last] == right[last])
      invariant c.settings == if index <= last then (Agreeing(left, right, index), if index > 0 then index - 1 else 0)
                              else (Agreeing(left, right, last), last - 1)
      invariant Tells(left, right, index, c.shape)
    {
      var equal := left[index] == right[index];
      if index == 0 {
        c := c.(primary := equal);
      } else if index == last {
        c := c.(terminal := equal);
      } else {
        c := c.(settings := (c.settings.0 + (if equal then 1 else 0), c.settings.1 + 1));
      }
      ghost var shape := c.shape;
      if !equal && c.shape.None? {
        var at := Divergence(left[index], right[index]);
        var role := if index == 0 then Primary else if index == last then Terminal else Settings;
        c := c.(shape := Some(FirstDifference(role, index, at)));
      }
      TellsMore(left, right, index, shape, c.shape);
    }
  }

  lemma NothingTold(a: seq<Bytes>, b: seq<Bytes>)
    requires |a| == |b| > 0
    ensures Tells(a, b, 0, None)
  {
  }

  lemma TellsMore(a: seq<Bytes>, b: seq<Bytes>, k: nat, shape: Option<Shape>, next: Option<Shape>)
    requires |a| == |b| > k && Tells(a, b, k, shape)
    requires if shape.Some? || a[k] == b[k] then next == shape
             else next.Some? && next.value.FirstDifference? && next.value.index == k
                  && next.value.role == RoleOf(k, |a| - 1) && PartAt(a[k], b[k], next.value.at)
    ensures Tells(a, b, k + 1, next)
  {
    assert a[..k + 1] == a[..k] + [a[k]] && b[..k + 1] == b[..k] + [b[k]];
  }

  // ---- what the report means

  lemma {:induction false} AllAgree(a: seq<Bytes>, b: seq<Bytes>, k: nat)
    requires 1 <= k <= |a| == |b|
    ensures Agreeing(a, b, k) == k - 1 <==> a[1..k] == b[1..k]
    decreases k
  {
    if k > 1 {
      AllAgree(a, b, k - 1);
      assert a[1..k] == a[1..k - 1] + [a[k - 1]] && b[1..k] == b[1..k - 1] + [b[k - 1]];
      TwoParts(a[1..k - 1], [a[k - 1]], b[1..k - 1], [b[k - 1]]);
    }
  }

  /** No difference is told exactly when primary, every settings document and terminal are counted as equal. */
  lemma NoShapeIff(compiled: Bytes, stored: Bytes, c: Comparison)
    requires Reports(compiled, stored, c) && Split(compiled).Some? && Split(stored).Some?
    ensures c.shape == None <==>
            && |Split(compiled).value| == |Split(stored).value|
            && c.primary && c.terminal && c.settings.0 == c.settings.1
    ensures c.shape == None <==> Split(compiled) == Split(stored)
  {
    hide Split;
    var a, b := Split(compiled).value, Split(stored).value;
    if |a| == |b| {
      var n := |a|;
      AllAgree(a, b, n - 1);
      assert a == [a[0]] + a[1..n - 1] + [a[n - 1]];
      assert b == [b[0]] + b[1..n - 1] + [b[n - 1]];
      assert a[..n] == a && b[..n] == b;
      if c.shape.Some? && c.shape.value.FirstDifference? {
        assert a[c.shape.value.index] != b[c.shape.value.index];
      }
    }
  }

  /**
   * Two framed bodies are byte-equal exactly when their first four bytes match and the comparison finds as many
   * documents in both and primary, every settings document and terminal equal. So equal documents may still differ
   * in those four bytes, which the comparison does not look at.
   */
  lemma ByteEqualIff(compiled: Bytes, stored: Bytes, c: Comparison)
    requires |compiled| <= LONGEST && |stored| <= LONGEST
    requires Reports(compiled, stored, c) && Split(compiled).Some? && Split(stored).Some?
    ensures |compiled| >= 4 && |stored| >= 4
    ensures c.exact <==>
            && compiled[..4] == stored[..4]
            && |Split(compiled).value| == |Split(stored).value|
            && c.primary && c.terminal && c.settings.0 == c.settings.1
  {
    hide Split, Frame;
    var a, b := Split(compiled).value, Split(stored).value;
    SplitInvertsFrame(compiled, a);
    SplitInvertsFrame(stored, b);
    NoShapeIff(compiled, stored, c);
  }
}
