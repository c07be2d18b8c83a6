/** `lcs` of `_onecdec/upgrade_rules.py`: the dynamic program, its walk back, and the optimality of the result. */
module Lcs {
  type Pairing = seq<(nat, nat)>

  /** The table entry at (i, j), by the recurrence that fills the table. */
  function Best<T(==)>(a: seq<T>, b: seq<T>, i: nat, j: nat): nat
    requires i <= |a| && j <= |b|
    decreases |a| - i + |b| - j
  {
    if i == |a| || j == |b| then 0
    else if a[i] == b[j] then Best(a, b, i + 1, j + 1) + 1
    else if Best(a, b, i + 1, j) >= Best(a, b, i, j + 1) then Best(a, b, i + 1, j)
    else Best(a, b, i, j + 1)
  }

  /** The walk through the table from (i, j). */
  function Walk<T(==)>(a: seq<T>, b: seq<T>, i: nat, j: nat): Pairing
    requires i <= |a| && j <= |b|
    decreases |a| - i + |b| - j
  {
    if i == |a| || j == |b| then []
    else if a[i] == b[j] then [(i, j)] + Walk(a, b, i + 1, j + 1)
    else if Best(a, b, i + 1, j) >= Best(a, b, i, j + 1) then Walk(a, b, i + 1, j)
    else Walk(a, b, i, j + 1)
  }

  /** Pairs of equal elements at or after (i, j), strictly increasing on both sides. */
  ghost predicate IsCommon<T>(a: seq<T>, b: seq<T>, p: Pairing, i: nat, j: nat) {
    && (forall k :: 0 <= k < |p| ==> i <= p[k].0 < |a| && j <= p[k].1 < |b| && a[p[k].0] == b[p[k].1])
    && (forall k, l :: 0 <= k < l < |p| ==> p[k].0 < p[l].0 && p[k].1 < p[l].1)
  }

  lemma ConsIsCommon<T>(a: seq<T>, b: seq<T>, p: Pairing, i: nat, j: nat)
    requires i < |a| && j < |b| && a[i] == b[j] && IsCommon(a, b, p, i + 1, j + 1)
    ensures IsCommon(a, b, [(i, j)] + p, i, j)
  {
    var q: Pairing := [(i, j)] + p;
    assert forall k :: 1 <= k < |q| ==> q[k] == p[k - 1];
  }

  lemma TailIsCommon<T>(a: seq<T>, b: seq<T>, p: Pairing, i: nat, j: nat)
    requires p != [] && IsCommon(a, b, p, i, j)
    ensures i < |a| && j < |b| && IsCommon(a, b, p[1..], i + 1, j + 1)
  {
    assert i <= p[0].0 < |a| && j <= p[0].1 < |b|;
    assert forall k :: 0 <= k < |p| - 1 ==> p[1..][k] == p[k + 1];
  }

  lemma {:induction false} WalkIsCommon<T>(a: seq<T>, b: seq<T>, i: nat, j: nat)
    requires i <= |a| && j <= |b|
    ensures IsCommon(a, b, Walk(a, b, i, j), i, j) && |Walk(a, b, i, j)| == Best(a, b, i, j)
    decreases |a| - i + |b| - j
  {
    if i < |a| && j < |b| {
      if a[i] == b[j] {
        WalkIsCommon(a, b, i + 1, j + 1);
        ConsIsCommon(a, b, Walk(a, b, i + 1, j + 1), i, j);
      } else if Best(a, b, i + 1, j) >= Best(a, b, i, j + 1) {
        WalkIsCommon(a, b, i + 1, j);
      } else {
        WalkIsCommon(a, b, i, j + 1);
      }
    }
  }

  lemma {:induction false} BestIsUpperBound<T>(a: seq<T>, b: seq<T>, p: Pairing, i: nat, j: nat)
    requires i <= |a| && j <= |b| && IsCommon(a, b, p, i, j)
    ensures |p| <= Best(a, b, i, j)
    decreases |a| - i + |b| - j
  {
    if p != [] {
      TailIsCommon(a, b, p, i, j);
      if a[i] == b[j] {
        BestIsUpperBound(a, b, p[1..], i + 1, j + 1);
      } else if p[0].0 == i {
        BestIsUpperBound(a, b, p, i, j + 1);
      } else {
        BestIsUpperBound(a, b, p, i + 1, j);
      }
    }
  }

  /** The pairs found match equal elements in increasing order, and no such pairing is longer. */
  lemma WalkIsLongest<T>(a: seq<T>, b: seq<T>, p: Pairing)
    ensures IsCommon(a, b, Walk(a, b, 0, 0), 0, 0)
    ensures IsCommon(a, b, p, 0, 0) ==> |p| <= |Walk(a, b, 0, 0)|
  {
    WalkIsCommon(a, b, 0, 0);
    if IsCommon(a, b, p, 0, 0) {
      BestIsUpperBound(a, b, p, 0, 0);
    }
  }

  // ---- which of several longest pairings is found

  /** `p` and `q`, of one length: at the first place where their positions in the second list differ, `p` is earlier. */
  ghost predicate Leftmost(p: Pairing, q: Pairing)
    requires |p| == |q|
  {
    forall m :: 0 <= m < |p| && (forall k :: 0 <= k < m ==> p[k].1 == q[k].1) ==> p[m].1 <= q[m].1
  }

  lemma SameHeadLeftmost(x: (nat, nat), p: Pairing, q: Pairing)
    requires q != [] && |p| == |q| - 1 && x.1 == q[0].1 && Leftmost(p, q[1..])
    ensures Leftmost([x] + p, q)
  {
    var all: Pairing := [x] + p;
    forall m | 0 <= m < |all| && forall k :: 0 <= k < m ==> all[k].1 == q[k].1 ensures all[m].1 <= q[m].1 {
      if m > 0 {
        forall k | 0 <= k < m - 1 ensures p[k].1 == q[1..][k].1 {
          assert all[k + 1].1 == q[k + 1].1;
        }
        assert p[m - 1].1 <= q[1..][m - 1].1;
      }
    }
  }

  lemma EarlierHead(p: Pairing, q: Pairing)
    requires |p| == |q| > 0 && p[0].1 < q[0].1
    ensures Leftmost(p, q)
  {
  }

  lemma NothingLeftmost()
    ensures Leftmost([], [])
  {
  }

  /** Two pairings spliced at a place where the first is behind the second on both sides. */
  lemma SpliceIsCommon<T>(a: seq<T>, b: seq<T>, p: Pairing, q: Pairing, m: nat, n: nat, i: nat, j: nat)
    requires IsCommon(a, b, p, i, j) && IsCommon(a, b, q, i, j) && m <= |p| && n <= |q|
    requires m > 0 && n < |q| ==> p[m - 1].0 < q[n].0 && p[m - 1].1 < q[n].1
    ensures IsCommon(a, b, p[..m] + q[n..], i, j)
  {
    var s := p[..m] + q[n..];
    assert forall k :: 0 <= k < |s| ==> s[k] == if k < m then p[k] else q[k - m + n];
    forall k, l | 0 <= k < l < |s| ensures s[k].0 < s[l].0 && s[k].1 < s[l].1 {
      if k < m <= l {
        assert k < m - 1 ==> p[k].0 < p[m - 1].0 && p[k].1 < p[m - 1].1;
        assert l > m ==> q[n].0 < q[l - m + n].0 && q[n].1 < q[l - m + n].1;
      }
    }
  }

  /** Where `p` is earlier on both sides than `q`, going on with `q` instead makes a longer pairing. */
  lemma LongerBySplice<T>(a: seq<T>, b: seq<T>, p: Pairing, q: Pairing, m: nat, i: nat, j: nat)
    requires i <= |a| && j <= |b| && IsCommon(a, b, p, i, j) && IsCommon(a, b, q, i, j) && m < |p| == |q|
    requires p[m].0 < q[m].0 && p[m].1 < q[m].1
    ensures |p| + 1 <= Best(a, b, i, j)
  {
    SpliceIsCommon(a, b, p, q, m + 1, m, i, j);
    BestIsUpperBound(a, b, p[..m + 1] + q[m..], i, j);
  }

  /** Where `p` is behind `q` in the first list, going on with `p` stays behind `q`'s start. */
  lemma LaterBySplice<T>(a: seq<T>, b: seq<T>, p: Pairing, q: Pairing, m: nat, i: nat, j: nat)
    requires IsCommon(a, b, p, i, j) && IsCommon(a, b, q, i + 1, j) && 0 < m < |p| == |q|
    requires q[m - 1].0 < p[m].0 && q[m - 1].1 < p[m].1
    ensures IsCommon(a, b, q[..m] + p[m..], i + 1, j)
  {
    var r := q[..m] + p[m..];
    SpliceIsCommon(a, b, q, p, m, m, i, j);
    assert forall k :: 0 <= k < |r| ==> r[k] == if k < m then q[k] else p[k];
    forall k | 0 <= k < |r| ensures i + 1 <= r[k].0 {
      assert k > m ==> p[m].0 < p[k].0;
    }
  }

  /**
   * Passing over an old element loses nothing: a pairing `q` that starts behind it and is leftmost there stays leftmost
   * against a pairing `p` that uses it, when both are as long as can be.
   */
  lemma PassingOver<T>(a: seq<T>, b: seq<T>, p: Pairing, q: Pairing, i: nat, j: nat)
    requires i < |a| && j < |b| && IsCommon(a, b, p, i, j) && IsCommon(a, b, q, i + 1, j)
    requires p != [] && p[0].0 == i && |p| == |q| == Best(a, b, i, j)
    requires forall r :: IsCommon(a, b, r, i + 1, j) && |r| == |q| ==> Leftmost(q, r)
    ensures Leftmost(q, p)
  {
    forall m | 0 <= m < |q| && forall k :: 0 <= k < m ==> q[k].1 == p[k].1 ensures q[m].1 <= p[m].1 {
      NotLater(a, b, p, q, m, i, j);
    }
  }

  lemma NotLater<T>(a: seq<T>, b: seq<T>, p: Pairing, q: Pairing, m: nat, i: nat, j: nat)
    requires i < |a| && j < |b| && IsCommon(a, b, p, i, j) && IsCommon(a, b, q, i + 1, j)
    requires m < |p| == |q| == Best(a, b, i, j) && p[0].0 == i
    requires forall r :: IsCommon(a, b, r, i + 1, j) && |r| == |q| ==> Leftmost(q, r)
    requires forall k :: 0 <= k < m ==> q[k].1 == p[k].1
    ensures q[m].1 <= p[m].1
  {
    hide Best;
    if p[m].1 < q[m].1 {
      if p[m].0 < q[m].0 {
        LongerBySplice(a, b, p, q, m, i, j);
      } else {
        assert q[0].0 >= i + 1;
        assert q[m - 1].1 == p[m - 1].1 < p[m].1;
        LaterBySplice(a, b, p, q, m, i, j);
        LeftmostAt(q, p, m);
      }
    }
  }

  lemma LeftmostAt(q: Pairing, p: Pairing, m: nat)
    requires m < |p| == |q| && Leftmost(q, q[..m] + p[m..])
    ensures q[m].1 <= p[m].1
  {
    var r := q[..m] + p[m..];
    assert forall k :: 0 <= k < m ==> q[k].1 == r[k].1;
    assert r[m] == p[m];
  }

  /** The walk finds, of all longest pairings, the one that takes the earliest places in the second list. */
  lemma {:induction false} WalkIsLeftmost<T>(a: seq<T>, b: seq<T>, i: nat, j: nat, p: Pairing)
    requires i <= |a| && j <= |b| && IsCommon(a, b, p, i, j) && |p| == Best(a, b, i, j)
    ensures |Walk(a, b, i, j)| == |p| && Leftmost(Walk(a, b, i, j), p)
    decreases |a| - i + |b| - j
  {
    hide Leftmost;
    NothingLeftmost();
    WalkIsCommon(a, b, i, j);
    if i < |a| && j < |b| {
      if a[i] == b[j] {
        TailIsCommon(a, b, p, i, j);
        if p[0].1 == j {
          WalkIsLeftmost(a, b, i + 1, j + 1, p[1..]);
          SameHeadLeftmost((i, j), Walk(a, b, i + 1, j + 1), p);
        } else {
          EarlierHead(Walk(a, b, i, j), p);
        }
      } else if Best(a, b, i + 1, j) >= Best(a, b, i, j + 1) {
        forall r | IsCommon(a, b, r, i + 1, j) && |r| == Best(a, b, i + 1, j)
          ensures |Walk(a, b, i + 1, j)| == |r| && Leftmost(Walk(a, b, i + 1, j), r)
        {
          WalkIsLeftmost(a, b, i + 1, j, r);
        }
        if p != [] && p[0].0 == i {
          WalkIsCommon(a, b, i + 1, j);
          PassingOver(a, b, p, Walk(a, b, i + 1, j), i, j);
        } else {
          assert p == [] || IsCommon(a, b, p, i + 1, j);
          WalkIsLeftmost(a, b, i + 1, j, p);
        }
      } else {
        if p != [] && p[0].1 == j {
          assert IsCommon(a, b, p, i + 1, j);
          BestIsUpperBound(a, b, p, i + 1, j);
        } else {
          assert IsCommon(a, b, p, i, j + 1);
          WalkIsLeftmost(a, b, i, j + 1, p);
        }
      }
    }
  }

  ghost predicate Filled<T>(ka: seq<T>, kb: seq<T>, dp: array2<nat>, from: int)
    reads dp
  {
    && dp.Length0 == |ka| + 1 && dp.Length1 == |kb| + 1
    && (forall x, y :: 0 <= from <= x <= |ka| && 0 <= y <= |kb| ==> dp[x, y] == Best(ka, kb, x, y))
  }

  /** The table, filled from its far corner. */
  method FillTable<T(==)>(ka: seq<T>, kb: seq<T>) returns (dp: array2<nat>)
    ensures fresh(dp) && Filled(ka, kb, dp, 0)
  {
    var n, m := |ka|, |kb|;
    dp := new nat[n + 1, m + 1]((_, _) => 0);
    var i := n - 1;
    while i >= 0
      invariant -1 <= i <= n - 1
      invariant Filled(ka, kb, dp, i + 1)
      invariant forall x :: 0 <= x <= i ==> dp[x, m] == 0
    {
      var j := m - 1;
      while j >= 0
        invariant -1 <= j <= m - 1
        invariant Filled(ka, kb, dp, i + 1)
        invariant forall x :: 0 <= x < i ==> dp[x, m] == 0
        invariant forall y :: j < y <= m ==> dp[i, y] == Best(ka, kb, i, y)
      {
        dp[i, j] :=
          if ka[i] == kb[j] then dp[i + 1, j + 1] + 1
          else if dp[i + 1, j] >= dp[i, j + 1] then dp[i + 1, j]
          else dp[i, j + 1];
        j := j - 1;
      }
      i := i - 1;
    }
  }

  /** `lcs`: the table, then the walk through it from its first entry. */
  method LongestCommon<T(==)>(ka: seq<T>, kb: seq<T>) returns (pairs: Pairing)
    ensures pairs == Walk(ka, kb, 0, 0)
    ensures IsCommon(ka, kb, pairs, 0, 0)
    ensures forall p: Pairing :: IsCommon(ka, kb, p, 0, 0) ==> |p| <= |pairs|
  {
    var dp := FillTable(ka, kb);
    pairs := [];
    var i, j := 0, 0;
    while i < |ka| && j < |kb|
      invariant 0 <= i <= |ka| && 0 <= j <= |kb|
      invariant pairs + Walk(ka, kb, i, j) == Walk(ka, kb, 0, 0)
      decreases |ka| - i + |kb| - j
    {
      if ka[i] == kb[j] {
        pairs := pairs + [(i, j)];
        i, j := i + 1, j + 1;
      } else if dp[i + 1, j] >= dp[i, j + 1] {
        i := i + 1;
      } else {
        j := j + 1;
      }
    }
    forall p: Pairing ensures IsCommon(ka, kb, p, 0, 0) ==> |p| <= |pairs| {
      WalkIsLongest(ka, kb, p);
    }
    WalkIsLongest(ka, kb, []);
  }
}
