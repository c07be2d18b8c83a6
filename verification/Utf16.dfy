/** UTF-16 code units (RFC 2781, section 2) and the joining step of the SCSU reader. */
module Utf16 {
  import opened Prelude

  type Unit = u: int | 0 <= u < 0x10000

  predicate IsHigh(u: int) {
    0xD800 <= u < 0xDC00
  }

  predicate IsLow(u: int) {
    0xDC00 <= u < 0xE000
  }

  predicate IsScalar(c: int) {
    0 <= c <= 0x10FFFF && !IsHigh(c) && !IsLow(c)
  }

  function Combine(high: int, low: int): int {
    0x10000 + (high - 0xD800) * 0x400 + (low - 0xDC00)
  }

  /** The units of one code point; a lone surrogate stands for itself. */
  function UnitsOfOne(c: CodePoint): (us: seq<Unit>)
    ensures us != []
  {
    if c < 0x10000 then [c]
    else [0xD800 + (c - 0x10000) / 0x400, 0xDC00 + (c - 0x10000) % 0x400]
  }

  function UnitsOf(cs: seq<CodePoint>): seq<Unit> {
    if cs == [] then [] else UnitsOfOne(cs[0]) + UnitsOf(cs[1..])
  }

  /** Surrogate pairs combined, everything else kept. */
  function Join(us: seq<int>): seq<int> {
    if us == [] then []
    else if IsHigh(us[0]) && |us| > 1 && IsLow(us[1]) then [Combine(us[0], us[1])] + Join(us[2..])
    else [us[0]] + Join(us[1..])
  }

  /** No high surrogate stands right before a low one. */
  predicate NoLoosePair(cs: seq<int>) {
    |cs| > 1 ==> !(IsHigh(cs[0]) && IsLow(cs[1])) && NoLoosePair(cs[1..])
  }

  lemma JoinPair(high: int, low: int, rest: seq<int>)
    requires IsHigh(high) && IsLow(low)
    ensures Join([high, low] + rest) == [Combine(high, low)] + Join(rest)
  {
    assert ([high, low] + rest)[2..] == rest;
  }

  lemma JoinLone(u: int, rest: seq<int>)
    requires !(IsHigh(u) && rest != [] && IsLow(rest[0]))
    ensures Join([u] + rest) == [u] + Join(rest)
  {
    assert ([u] + rest)[1..] == rest;
  }

  lemma CombineInverts(c: CodePoint)
    requires c >= 0x10000
    ensures |UnitsOfOne(c)| == 2 && IsHigh(UnitsOfOne(c)[0]) && IsLow(UnitsOfOne(c)[1])
    ensures Combine(UnitsOfOne(c)[0], UnitsOfOne(c)[1]) == c
  {
  }

  // ---- texts of which some code points are spelled out in units and others stand as they are

  function SpellOne(c: CodePoint, whole: bool): (us: seq<int>)
    ensures us != [] && (IsLow(us[0]) <==> IsLow(c))
  {
    if whole then [c] else UnitsOfOne(c)
  }

  /** `whole` says of each position, counted from `n` on, whether its code point stands as it is. */
  function Spell(cs: seq<CodePoint>, whole: nat -> bool, n: nat): (us: seq<int>)
    ensures us == [] <==> cs == []
    ensures cs != [] ==> (IsLow(us[0]) <==> IsLow(cs[0]))
  {
    if cs == [] then [] else SpellOne(cs[0], whole(n)) + Spell(cs[1..], whole, n + 1)
  }

  lemma JoinFirst(cs: seq<CodePoint>, whole: nat -> bool, n: nat)
    requires cs != [] && !(|cs| > 1 && IsHigh(cs[0]) && IsLow(cs[1]))
    ensures Join(Spell(cs, whole, n)) == [cs[0]] + Join(Spell(cs[1..], whole, n + 1))
  {
    var c, rest := cs[0], Spell(cs[1..], whole, n + 1);
    if c >= 0x10000 && !whole(n) {
      CombineInverts(c);
      JoinPair(UnitsOfOne(c)[0], UnitsOfOne(c)[1], rest);
    } else {
      JoinLone(c, rest);
    }
  }

  lemma JoinConfuses(cs: seq<CodePoint>, whole: nat -> bool, n: nat)
    requires |cs| > 1 && IsHigh(cs[0]) && IsLow(cs[1])
    ensures Join(Spell(cs, whole, n)) != cs
  {
    var rest := Spell(cs[2..], whole, n + 2);
    JoinPair(cs[0], cs[1], rest);
    assert Spell(cs[1..], whole, n + 1) == [cs[1]] + rest;
    assert Spell(cs, whole, n) == [cs[0], cs[1]] + rest;
  }

  /** Joining undoes any such spelling exactly for the texts that have no pair to confuse. */
  lemma {:induction false} JoinInvertsSpelling(cs: seq<CodePoint>, whole: nat -> bool, n: nat)
    ensures Join(Spell(cs, whole, n)) == cs <==> NoLoosePair(cs)
  {
    if cs != [] {
      if |cs| > 1 && IsHigh(cs[0]) && IsLow(cs[1]) {
        JoinConfuses(cs, whole, n);
      } else {
        JoinFirst(cs, whole, n);
        JoinInvertsSpelling(cs[1..], whole, n + 1);
        assert cs == [cs[0]] + cs[1..];
        assert ([cs[0]] + Join(Spell(cs[1..], whole, n + 1)))[1..] == Join(Spell(cs[1..], whole, n + 1));
      }
    }
  }

  lemma {:induction false} UnitsAreSpelled(cs: seq<CodePoint>, n: nat)
    ensures UnitsOf(cs) == Spell(cs, _ => false, n)
  {
    if cs != [] {
      UnitsAreSpelled(cs[1..], n + 1);
    }
  }

  /** So it undoes the split of a whole text into units. */
  lemma JoinInvertsUnits(cs: seq<CodePoint>)
    ensures Join(UnitsOf(cs)) == cs <==> NoLoosePair(cs)
  {
    UnitsAreSpelled(cs, 0);
    JoinInvertsSpelling(cs, _ => false, 0);
  }

  lemma {:induction false} ScalarsHaveNoLoosePair(cs: seq<int>)
    requires forall k :: 0 <= k < |cs| ==> IsScalar(cs[k])
    ensures NoLoosePair(cs)
  {
    if |cs| > 1 {
      ScalarsHaveNoLoosePair(cs[1..]);
    }
  }

  lemma {:induction false} JoinStaysInRange(us: seq<int>)
    requires forall k :: 0 <= k < |us| ==> 0 <= us[k] <= 0x10FFFF
    ensures forall k :: 0 <= k < |Join(us)| ==> 0 <= Join(us)[k] <= 0x10FFFF
  {
    if us != [] {
      if IsHigh(us[0]) && |us| > 1 && IsLow(us[1]) {
        JoinStaysInRange(us[2..]);
      } else {
        JoinStaysInRange(us[1..]);
      }
    }
  }

  lemma Onward(s: seq<int>, c: int, rest: seq<int>)
    ensures s + ([c] + rest) == s + [c] + rest
  {
  }

  /** The joining loop of the reader. */
  method JoinUnits(us: seq<int>) returns (s: seq<int>)
    ensures s == Join(us)
  {
    s := [];
    var j := 0;
    while j < |us|
      invariant j <= |us|
      invariant s + Join(us[j..]) == Join(us)
      decreases |us| - j
    {
      var u := us[j];
      if IsHigh(u) && j + 1 < |us| && IsLow(us[j + 1]) {
        JoinPair(u, us[j + 1], us[j + 2..]);
        assert us[j..] == [u, us[j + 1]] + us[j + 2..];
        Onward(s, Combine(u, us[j + 1]), Join(us[j + 2..]));
        s := s + [Combine(u, us[j + 1])];
        j := j + 2;
      } else {
        JoinLone(u, us[j + 1..]);
        assert us[j..] == [u] + us[j + 1..];
        Onward(s, u, Join(us[j + 1..]));
        s := s + [u];
        j := j + 1;
      }
    }
    assert us[j..] == [];
  }
}
