/** `edits` of `_onecdec/upgrade_sim.py`: the insert-only edit script a longest common subsequence gives. */
module Edits {
  import opened Prelude
  import opened Lcs

  /** Changed members (old position, new position) and the new positions that are insertions. */
  datatype Script = Script(changed: Pairing, inserts: seq<nat>)

  /** `pairs` run upwards from (i, j) inside n old and m new positions. */
  predicate Ordered(pairs: Pairing, i: nat, j: nat, n: nat, m: nat) {
    if pairs == [] then i <= n && j <= m
    else i <= pairs[0].0 < n && j <= pairs[0].1 < m && Ordered(pairs[1..], pairs[0].0 + 1, pairs[0].1 + 1, n, m)
  }

  lemma {:induction false} OrderedStays(pairs: Pairing, i: nat, j: nat, n: nat, m: nat)
    requires Ordered(pairs, i, j, n, m)
    ensures i <= n && j <= m
  {
  }

  /**
   * Positions from (i, j) on, up to the next anchor: old members take new ones in order, surplus new
   * members are inserted after them; no script when the old members of a gap outnumber the new ones.
   */
  function Scan(pairs: Pairing, i: nat, j: nat, n: nat, m: nat): Option<Script>
    requires Ordered(pairs, i, j, n, m)
    decreases |pairs|, n - i, m - j
  {
    OrderedStays(pairs, i, j, n, m);
    var (ib, jb) := if pairs == [] then (n, m) else pairs[0];
    if i < ib then
      if j == jb then None
      else match Scan(pairs, i + 1, j + 1, n, m)
        case None => None
        case Some(s) => Some(Script([(i, j)] + s.changed, s.inserts))
    else if j < jb then
      match Scan(pairs, i, j + 1, n, m)
      case None => None
      case Some(s) => Some(Script(s.changed, [j] + s.inserts))
    else if pairs == [] then Some(Script([], []))
    else Scan(pairs[1..], ib + 1, jb + 1, n, m)
  }

  lemma {:induction false} CommonIsOrdered<T>(a: seq<T>, b: seq<T>, p: Pairing, i: nat, j: nat)
    requires i <= |a| && j <= |b| && IsCommon(a, b, p, i, j)
    ensures Ordered(p, i, j, |a|, |b|)
  {
    if p != [] {
      assert i <= p[0].0 < |a| && j <= p[0].1 < |b|;
      assert forall k :: 0 <= k < |p| - 1 ==> p[1..][k] == p[k + 1];
      CommonIsOrdered(a, b, p[1..], p[0].0 + 1, p[0].1 + 1);
    }
  }

  lemma PairsOrdered<T>(ka: seq<T>, kb: seq<T>)
    ensures Ordered(Walk(ka, kb, 0, 0), 0, 0, |ka|, |kb|)
  {
    WalkIsCommon(ka, kb, 0, 0);
    CommonIsOrdered(ka, kb, Walk(ka, kb, 0, 0), 0, 0);
  }

  function EditScript<T(==)>(ka: seq<T>, kb: seq<T>): Option<Script> {
    PairsOrdered(ka, kb);
    if |kb| < |ka| then None else Scan(Walk(ka, kb, 0, 0), 0, 0, |ka|, |kb|)
  }

  // ---- the script is complete

  /** Where each old position from i on ends up. */
  function Align(pairs: Pairing, i: nat, j: nat, n: nat, m: nat): seq<nat>
    requires Ordered(pairs, i, j, n, m)
    decreases |pairs|, n - i, m - j
  {
    OrderedStays(pairs, i, j, n, m);
    var (ib, jb) := if pairs == [] then (n, m) else pairs[0];
    if i < ib then if j == jb then [] else [j] + Align(pairs, i + 1, j + 1, n, m)
    else if j < jb then Align(pairs, i, j + 1, n, m)
    else if pairs == [] then []
    else [jb] + Align(pairs[1..], ib + 1, jb + 1, n, m)
  }

  predicate Ascending(s: seq<nat>, lo: nat, hi: nat) {
    if s == [] then lo <= hi else lo <= s[0] < hi && Ascending(s[1..], s[0] + 1, hi)
  }

  /** The kept pairs and the changed pairs together: old position i + k goes to to[k]. */
  ghost predicate IsGraph(to: seq<nat>, i: nat, pairs: Pairing, changed: Pairing) {
    && |pairs| + |changed| == |to|
    && (forall k :: 0 <= k < |to| ==> ((i + k, to[k]) in pairs) != ((i + k, to[k]) in changed))
    && (forall p :: p in pairs || p in changed ==> i <= p.0 < i + |to| && to[p.0 - i] == p.1)
  }

  lemma GraphCons(to: seq<nat>, i: nat, pairs: Pairing, changed: Pairing, j: nat)
    requires IsGraph(to, i + 1, pairs, changed)
    ensures IsGraph([j] + to, i, [(i, j)] + pairs, changed) && IsGraph([j] + to, i, pairs, [(i, j)] + changed)
  {
    var all: seq<nat> := [j] + to;
    assert forall k :: 1 <= k < |all| ==> all[k] == to[k - 1];
    forall k | 1 <= k < |all|
      ensures ((i + k, all[k]) in pairs) != ((i + k, all[k]) in changed)
    {
      assert ((i + 1 + (k - 1), to[k - 1]) in pairs) != ((i + 1 + (k - 1), to[k - 1]) in changed);
    }
  }

  /** Insertions and kept positions run upwards and share the new positions from j on between them. */
  ghost predicate Partitions(inserts: seq<nat>, to: seq<nat>, j: nat, m: nat) {
    && Ascending(inserts, j, m)
    && Ascending(to, j, m)
    && (forall q :: j <= q < m ==> (q in inserts) != (q in to))
  }

  lemma {:induction false} AscendingBounds(s: seq<nat>, lo: nat, hi: nat)
    requires Ascending(s, lo, hi)
    ensures lo <= hi && forall q :: q in s ==> lo <= q < hi
  {
    if s != [] {
      AscendingBounds(s[1..], s[0] + 1, hi);
      assert s == [s[0]] + s[1..];
    }
  }

  lemma {:induction false} AscendingWeaken(s: seq<nat>, lo: nat, hi: nat)
    requires Ascending(s, lo + 1, hi)
    ensures Ascending(s, lo, hi)
  {
  }

  /** The smallest possible element, when present, comes first. */
  lemma AscendingHead(s: seq<nat>, lo: nat, hi: nat)
    requires Ascending(s, lo, hi) && lo in s
    ensures s[0] == lo && Ascending(s[1..], lo + 1, hi) && lo !in s[1..]
  {
    AscendingBounds(s[1..], s[0] + 1, hi);
    assert s == [s[0]] + s[1..];
  }

  lemma AscendingRaise(s: seq<nat>, lo: nat, hi: nat)
    requires Ascending(s, lo, hi) && lo !in s && lo < hi
    ensures Ascending(s, lo + 1, hi)
  {
  }

  lemma PartitionStep(inserts: seq<nat>, to: seq<nat>, j: nat, m: nat)
    requires j < m && Partitions(inserts, to, j + 1, m)
    ensures Partitions([j] + inserts, to, j, m) && Partitions(inserts, [j] + to, j, m)
  {
    AscendingBounds(inserts, j + 1, m);
    AscendingBounds(to, j + 1, m);
    AscendingWeaken(inserts, j, m);
    AscendingWeaken(to, j, m);
    assert ([j] + inserts)[1..] == inserts && ([j] + to)[1..] == to;
  }

  lemma PartitionSplit(inserts: seq<nat>, to: seq<nat>, j: nat, m: nat)
    requires j < m && Partitions(inserts, to, j, m)
    ensures if j in inserts then inserts[0] == j && Partitions(inserts[1..], to, j + 1, m)
            else to != [] && to[0] == j && Partitions(inserts, to[1..], j + 1, m)
  {
    if j in inserts {
      AscendingHead(inserts, j, m);
      AscendingRaise(to, j, m);
      assert inserts == [j] + inserts[1..];
    } else {
      AscendingHead(to, j, m);
      AscendingRaise(inserts, j, m);
      assert to == [j] + to[1..];
    }
  }

  /** Kept and changed pairs are an increasing bijection of all old positions onto the new positions not inserted. */
  ghost predicate IsComplete(s: Script, to: seq<nat>, pairs: Pairing, i: nat, j: nat, n: nat, m: nat) {
    |to| == n - i && IsGraph(to, i, pairs, s.changed) && Partitions(s.inserts, to, j, m)
  }

  lemma CompleteStep(s: Script, to: seq<nat>, pairs: Pairing, i: nat, j: nat, n: nat, m: nat)
    requires i < n && j < m && IsComplete(s, to, pairs, i + 1, j + 1, n, m)
    ensures IsComplete(Script([(i, j)] + s.changed, s.inserts), [j] + to, pairs, i, j, n, m)
    ensures IsComplete(s, [j] + to, [(i, j)] + pairs, i, j, n, m)
  {
    GraphCons(to, i, pairs, s.changed, j);
    PartitionStep(s.inserts, to, j, m);
  }

  lemma CompleteInsert(s: Script, to: seq<nat>, pairs: Pairing, i: nat, j: nat, n: nat, m: nat)
    requires j < m && IsComplete(s, to, pairs, i, j + 1, n, m)
    ensures IsComplete(Script(s.changed, [j] + s.inserts), to, pairs, i, j, n, m)
  {
    PartitionStep(s.inserts, to, j, m);
  }

  ghost predicate ScanComplete(pairs: Pairing, i: nat, j: nat, n: nat, m: nat) {
    && Ordered(pairs, i, j, n, m)
    && (Scan(pairs, i, j, n, m).Some? ==>
          IsComplete(Scan(pairs, i, j, n, m).value, Align(pairs, i, j, n, m), pairs, i, j, n, m))
  }

  lemma ScanChanged(pairs: Pairing, i: nat, j: nat, n: nat, m: nat)
    requires Ordered(pairs, i, j, n, m) && i < (if pairs == [] then n else pairs[0].0)
    requires j < (if pairs == [] then m else pairs[0].1) ==> ScanComplete(pairs, i + 1, j + 1, n, m)
    ensures ScanComplete(pairs, i, j, n, m)
  {
    OrderedStays(pairs, i, j, n, m);
    if Scan(pairs, i, j, n, m).Some? {
      CompleteStep(Scan(pairs, i + 1, j + 1, n, m).value, Align(pairs, i + 1, j + 1, n, m), pairs, i, j, n, m);
    }
  }

  lemma ScanInserted(pairs: Pairing, i: nat, j: nat, n: nat, m: nat)
    requires Ordered(pairs, i, j, n, m) && i == (if pairs == [] then n else pairs[0].0)
    requires j < (if pairs == [] then m else pairs[0].1) && ScanComplete(pairs, i, j + 1, n, m)
    ensures ScanComplete(pairs, i, j, n, m)
  {
    if Scan(pairs, i, j, n, m).Some? {
      CompleteInsert(Scan(pairs, i, j + 1, n, m).value, Align(pairs, i, j + 1, n, m), pairs, i, j, n, m);
    }
  }

  lemma ScanKept(pairs: Pairing, i: nat, j: nat, n: nat, m: nat)
    requires pairs != [] && pairs[0] == (i, j) && Ordered(pairs, i, j, n, m)
    requires ScanComplete(pairs[1..], i + 1, j + 1, n, m)
    ensures ScanComplete(pairs, i, j, n, m)
  {
    if Scan(pairs, i, j, n, m).Some? {
      var rest := pairs[1..];
      CompleteStep(Scan(rest, i + 1, j + 1, n, m).value, Align(rest, i + 1, j + 1, n, m), rest, i, j, n, m);
      assert pairs == [(i, j)] + rest;
    }
  }

  lemma {:induction false} ScanIsComplete(pairs: Pairing, i: nat, j: nat, n: nat, m: nat)
    requires Ordered(pairs, i, j, n, m)
    ensures ScanComplete(pairs, i, j, n, m)
    decreases |pairs|, n - i, m - j
  {
    OrderedStays(pairs, i, j, n, m);
    var (ib, jb) := if pairs == [] then (n, m) else pairs[0];
    if i < ib {
      if j < jb {
        ScanIsComplete(pairs, i + 1, j + 1, n, m);
      }
      ScanChanged(pairs, i, j, n, m);
    } else if j < jb {
      ScanIsComplete(pairs, i, j + 1, n, m);
      ScanInserted(pairs, i, j, n, m);
    } else if pairs != [] {
      ScanIsComplete(pairs[1..], i + 1, j + 1, n, m);
      ScanKept(pairs, i, j, n, m);
    }
  }

  // ---- where the surplus goes, and when there is no script

  /** Every insertion lies behind the changed members of its gap: a changed pair further on has an anchor between. */
  ghost predicate SurplusIsLast(s: Script, pairs: Pairing) {
    forall q, p :: q in s.inserts && p in s.changed && q < p.1 ==> exists a :: a in pairs && q < a.1 < p.1
  }

  lemma {:induction false} ChangedAreLater(pairs: Pairing, i: nat, j: nat, n: nat, m: nat)
    requires Ordered(pairs, i, j, n, m) && Scan(pairs, i, j, n, m).Some?
    ensures var s := Scan(pairs, i, j, n, m).value;
            (forall p :: p in s.changed ==> p.1 >= j) && (forall q :: q in s.inserts ==> q >= j)
    decreases |pairs|, n - i, m - j
  {
    OrderedStays(pairs, i, j, n, m);
    var (ib, jb) := if pairs == [] then (n, m) else pairs[0];
    if i < ib {
      ChangedAreLater(pairs, i + 1, j + 1, n, m);
    } else if j < jb {
      ChangedAreLater(pairs, i, j + 1, n, m);
    } else if pairs != [] {
      ChangedAreLater(pairs[1..], ib + 1, jb + 1, n, m);
    }
  }

  /** Once a gap has no old members left, all further changed pairs lie behind its anchor. */
  lemma {:induction false} ChangedAreBehind(pairs: Pairing, i: nat, j: nat, n: nat, m: nat)
    requires Ordered(pairs, i, j, n, m) && Scan(pairs, i, j, n, m).Some? && i == (if pairs == [] then n else pairs[0].0)
    ensures forall p :: p in Scan(pairs, i, j, n, m).value.changed ==> pairs != [] && p.1 > pairs[0].1
    decreases m - j
  {
    OrderedStays(pairs, i, j, n, m);
    var (ib, jb) := if pairs == [] then (n, m) else pairs[0];
    if j < jb {
      ChangedAreBehind(pairs, i, j + 1, n, m);
    } else if pairs != [] {
      ChangedAreLater(pairs[1..], ib + 1, jb + 1, n, m);
    }
  }

  lemma ChangedInFront(s: Script, pairs: Pairing, p: (nat, nat))
    requires SurplusIsLast(s, pairs) && forall q :: q in s.inserts ==> q >= p.1
    ensures SurplusIsLast(Script([p] + s.changed, s.inserts), pairs)
  {
  }

  lemma InsertedInFront(s: Script, pairs: Pairing, j: nat)
    requires SurplusIsLast(s, pairs)
    requires forall p :: p in s.changed ==> pairs != [] && j < pairs[0].1 < p.1
    ensures SurplusIsLast(Script(s.changed, [j] + s.inserts), pairs)
  {
    var more := Script(s.changed, [j] + s.inserts);
    forall q, p | q in more.inserts && p in more.changed && q < p.1 ensures exists a :: a in pairs && q < a.1 < p.1 {
      if q !in s.inserts {
        assert pairs[0] in pairs;
      }
    }
  }

  lemma AnchorInFront(s: Script, pairs: Pairing)
    requires pairs != [] && SurplusIsLast(s, pairs[1..])
    ensures SurplusIsLast(s, pairs)
  {
    assert forall a :: a in pairs[1..] ==> a in pairs;
  }

  /** Surplus new members are inserted after the changed ones of their gap. */
  lemma {:induction false} ScanPutsSurplusLast(pairs: Pairing, i: nat, j: nat, n: nat, m: nat)
    requires Ordered(pairs, i, j, n, m) && Scan(pairs, i, j, n, m).Some?
    ensures SurplusIsLast(Scan(pairs, i, j, n, m).value, pairs)
    decreases |pairs|, n - i, m - j
  {
    hide SurplusIsLast;
    OrderedStays(pairs, i, j, n, m);
    var (ib, jb) := if pairs == [] then (n, m) else pairs[0];
    if i < ib {
      ScanPutsSurplusLast(pairs, i + 1, j + 1, n, m);
      ChangedAreLater(pairs, i + 1, j + 1, n, m);
      ChangedInFront(Scan(pairs, i + 1, j + 1, n, m).value, pairs, (i, j));
    } else if j < jb {
      ScanPutsSurplusLast(pairs, i, j + 1, n, m);
      ChangedAreBehind(pairs, i, j + 1, n, m);
      InsertedInFront(Scan(pairs, i, j + 1, n, m).value, pairs, j);
    } else if pairs != [] {
      ScanPutsSurplusLast(pairs[1..], ib + 1, jb + 1, n, m);
      AnchorInFront(Scan(pairs, i, j, n, m).value, pairs);
    } else {
      NoSurplus(pairs);
    }
  }

  lemma NoSurplus(pairs: Pairing)
    ensures SurplusIsLast(Script([], []), pairs)
  {
  }

  /** No gap has more old members than new ones. */
  predicate Roomy(pairs: Pairing, i: nat, j: nat, n: nat, m: nat) {
    var (ib, jb) := if pairs == [] then (n, m) else pairs[0];
    ib - i <= jb - j && (pairs != [] ==> Roomy(pairs[1..], ib + 1, jb + 1, n, m))
  }

  /** There is a script exactly when every gap has room for its old members. */
  lemma {:induction false} ScriptIffRoomy(pairs: Pairing, i: nat, j: nat, n: nat, m: nat)
    requires Ordered(pairs, i, j, n, m)
    ensures Scan(pairs, i, j, n, m).Some? <==> Roomy(pairs, i, j, n, m)
    decreases |pairs|, n - i, m - j
  {
    OrderedStays(pairs, i, j, n, m);
    var (ib, jb) := if pairs == [] then (n, m) else pairs[0];
    if i < ib {
      if j < jb {
        ScriptIffRoomy(pairs, i + 1, j + 1, n, m);
      }
    } else if j < jb {
      ScriptIffRoomy(pairs, i, j + 1, n, m);
    } else if pairs != [] {
      ScriptIffRoomy(pairs[1..], ib + 1, jb + 1, n, m);
    }
  }

  // ---- the loops

  function Extend(changed: Pairing, inserts: seq<nat>, r: Option<Script>): Option<Script> {
    match r
    case None => None
    case Some(s) => Some(Script(changed + s.changed, inserts + s.inserts))
  }

  lemma {:induction false} CrowdedGap(pairs: Pairing, i: nat, j: nat, n: nat, m: nat)
    requires Ordered(pairs, i, j, n, m)
    requires var (ib, jb) := if pairs == [] then (n, m) else pairs[0]; jb - j < ib - i
    ensures Scan(pairs, i, j, n, m).None?
    decreases n - i
  {
    OrderedStays(pairs, i, j, n, m);
    if j < (if pairs == [] then m else pairs[0].1) {
      CrowdedGap(pairs, i + 1, j + 1, n, m);
    }
  }

  lemma ExtendChanged(changed: Pairing, inserts: seq<nat>, p: (nat, nat), r: Option<Script>)
    ensures Extend(changed + [p], inserts, r)
         == Extend(changed, inserts, match r case None => None case Some(s) => Some(Script([p] + s.changed, s.inserts)))
  {
    if r.Some? {
      assert changed + [p] + r.value.changed == changed + ([p] + r.value.changed);
    }
  }

  lemma ExtendInserted(changed: Pairing, inserts: seq<nat>, q: nat, r: Option<Script>)
    ensures Extend(changed, inserts + [q], r)
         == Extend(changed, inserts, match r case None => None case Some(s) => Some(Script(s.changed, [q] + s.inserts)))
  {
    if r.Some? {
      assert inserts + [q] + r.value.inserts == inserts + ([q] + r.value.inserts);
    }
  }

  lemma ExtendByNothing(r: Option<Script>)
    ensures Extend([], [], r) == r
  {
    if r.Some? {
      assert [] + r.value.changed == r.value.changed && [] + r.value.inserts == r.value.inserts;
    }
  }

  /** One gap, from (i, j) up to the anchor (ib, jb): adds its changed pairs and its insertions. */
  method Gap(ghost pairs: Pairing, i: nat, j: nat, ib: nat, jb: nat, ghost n: nat, ghost m: nat,
             changed0: Pairing, inserts0: seq<nat>)
    returns (ok: bool, changed: Pairing, inserts: seq<nat>)
    requires Ordered(pairs, i, j, n, m) && (ib, jb) == (if pairs == [] then (n, m) else pairs[0])
    ensures Ordered(pairs, ib, jb, n, m)
    ensures Extend(changed0, inserts0, Scan(pairs, i, j, n, m))
         == if ok then Extend(changed, inserts, Scan(pairs, ib, jb, n, m)) else None
  {
    OrderedStays(pairs, i, j, n, m);
    changed, inserts := changed0, inserts0;
    if jb - j < ib - i {
      CrowdedGap(pairs, i, j, n, m);
      return false, changed, inserts;
    }
    var k := 0;
    while k < ib - i
      invariant 0 <= k <= ib - i && Ordered(pairs, i + k, j + k, n, m)
      invariant Extend(changed0, inserts0, Scan(pairs, i, j, n, m))
             == Extend(changed, inserts, Scan(pairs, i + k, j + k, n, m))
    {
      ExtendChanged(changed, inserts, (i + k, j + k), Scan(pairs, i + k + 1, j + k + 1, n, m));
      changed := changed + [(i + k, j + k)];
      k := k + 1;
    }
    var q := j + k;
    while q < jb
      invariant j + k <= q <= jb && Ordered(pairs, ib, q, n, m)
      invariant Extend(changed0, inserts0, Scan(pairs, i, j, n, m)) == Extend(changed, inserts, Scan(pairs, ib, q, n, m))
    {
      ExtendInserted(changed, inserts, q, Scan(pairs, ib, q + 1, n, m));
      inserts := inserts + [q];
      q := q + 1;
    }
    ok := true;
  }

  lemma PastAnchor(pairs: Pairing, k: nat, n: nat, m: nat)
    requires k < |pairs| && Ordered(pairs[k..], pairs[k].0, pairs[k].1, n, m)
    ensures Ordered(pairs[k + 1..], pairs[k].0 + 1, pairs[k].1 + 1, n, m)
    ensures Scan(pairs[k..], pairs[k].0, pairs[k].1, n, m) == Scan(pairs[k + 1..], pairs[k].0 + 1, pairs[k].1 + 1, n, m)
  {
    assert pairs[k..][1..] == pairs[k + 1..];
  }

  /** The gaps between consecutive anchors, the last anchor being the two lengths. */
  method Gaps(pairs: Pairing, n: nat, m: nat) returns (r: Option<Script>)
    requires Ordered(pairs, 0, 0, n, m)
    ensures r == Scan(pairs, 0, 0, n, m)
  {
    var ok, changed, inserts, i, j, k := true, [], [], 0, 0, 0;
    ghost var whole := Scan(pairs, 0, 0, n, m);
    ExtendByNothing(whole);
    assert pairs[0..] == pairs;
    while k < |pairs|
      invariant k <= |pairs| && Ordered(pairs[k..], i, j, n, m)
      invariant whole == Extend(changed, inserts, Scan(pairs[k..], i, j, n, m))
    {
      var (ib, jb) := pairs[k];
      ok, changed, inserts := Gap(pairs[k..], i, j, ib, jb, n, m, changed, inserts);
      if !ok { return None; }
      PastAnchor(pairs, k, n, m);
      i, j, k := ib + 1, jb + 1, k + 1;
    }
    assert pairs[k..] == [];
    ok, changed, inserts := Gap([], i, j, n, m, n, m, changed, inserts);
    if !ok { return None; }
    assert changed + [] == changed && inserts + [] == inserts;
    return Some(Script(changed, inserts));
  }

  /** `edits` on the printed members. */
  method ComputeEdits<T(==)>(ka: seq<T>, kb: seq<T>) returns (r: Option<Script>)
    ensures r == EditScript(ka, kb)
  {
    if |kb| < |ka| { return None; }
    var pairs := LongestCommon(ka, kb);
    PairsOrdered(ka, kb);
    r := Gaps(pairs, |ka|, |kb|);
  }
}
