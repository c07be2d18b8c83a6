/**
 * BOCU-1 as a canonical, order-preserving code: which accepted byte strings are the encoding of what
 * they decode to, and that byte order is code-point order on them.
 */
module Bocu1Order {
  import opened Prelude
  import opened Bocu1

  // ---- every accepted text is made of code points

  lemma ReadYieldsCodePoint(s: seq<Byte>, at: nat, prev: int)
    requires s != [] && PrevOk(prev) && Read(s, at, prev).Emit?
    ensures 0 <= Read(s, at, prev).c <= 0x10FFFF && PrevOk(Read(s, at, prev).prev)
  {
  }

  /** The single-byte branch has no range check of its own: the reference point makes it unnecessary. */
  lemma {:induction false} DecodeYieldsCodePoints(s: seq<Byte>, at: nat, prev: int)
    requires PrevOk(prev) && DecodeFrom(s, at, prev).Ok?
    ensures forall k :: 0 <= k < |DecodeFrom(s, at, prev).value| ==> 0 <= DecodeFrom(s, at, prev).value[k] <= 0x10FFFF
    decreases |s|
  {
    if s != [] {
      match Read(s, at, prev)
      case Reset => DecodeYieldsCodePoints(s[1..], at + 1, ASCII_PREV);
      case Emit(c, prev', used) =>
        ReadYieldsCodePoint(s, at, prev);
        DecodeYieldsCodePoints(s[used..], at + used, prev');
    }
  }

  // ---- one code point: reading determines the bytes

  lemma {:induction false} DigitsFront(d: int, cnt: nat)
    requires cnt > 0
    ensures LeadPart(d, cnt) == LeadPart(d, cnt - 1) / TC
    ensures Digits(d, cnt) == [TrailByte(LeadPart(d, cnt - 1) % TC)] + Digits(d, cnt - 1)
    decreases cnt
  {
    if cnt > 1 {
      DigitsFront(d / TC, cnt - 1);
    }
  }

  lemma {:induction false} TrailsDetermineDigits(s: seq<Byte>, cnt: nat, at: nat, acc: int, d: int)
    requires cnt <= |s| && Trails(s, cnt, at, acc) == Ok(d)
    ensures Digits(d, cnt) == s[..cnt] && LeadPart(d, cnt) == acc
    decreases cnt
  {
    if cnt > 0 {
      TrailsDetermineDigits(s[1..], cnt - 1, at + 1, acc * TC + TrailValue(s[0]), d);
      TrailValueInverts(s[0]);
      DigitsFront(d, cnt);
      assert s[..cnt] == [s[0]] + s[1..][..cnt - 1];
    }
  }

  lemma LeadHasRange(b: Byte) returns (start: int, first: int, q: int)
    requires B_MIN <= b < B_RESET
    ensures b == start + q && IsRange(start, first, Lead(b).1, q) && LeadFits(start, q, first, Lead(b).1)
  {
    if S_NEG2 <= b < S_POS2 { start, first := B_MIDDLE, 0; }
    else if S_POS2 <= b < S_POS3 { start, first := S_POS2, R_POS1 + 1; }
    else if S_POS3 <= b < S_POS4 { start, first := S_POS3, R_POS2 + 1; }
    else if S_POS4 <= b { start, first := S_POS4, R_POS3 + 1; }
    else if b >= S_NEG3 { start, first := S_NEG2, R_NEG1; }
    else if b > B_MIN { start, first := S_NEG3, R_NEG2; }
    else { start, first := B_MIN + 1, R_NEG3; }
    q := b - start;
    RangeIsRead(start, first, Lead(b).1, q);
  }

  lemma RangeIsUnique(start: int, first: int, cnt: nat, d: int)
    requires IsRange(start, first, cnt, LeadPart(d, cnt))
    ensures RangeOf(first + d) == (start, first, cnt)
  {
    LeadPartBounds(d, cnt);
  }

  lemma PackShape(diff: int, start: int, first: int, cnt: nat)
    requires InReach(diff) && RangeOf(diff) == (start, first, cnt)
    ensures Pack(diff) == [start + LeadPart(diff - first, cnt)] + Digits(diff - first, cnt)
  {
    hide RangeOf, LeadPart, Digits, Lead, Scaled;
  }

  lemma PackOfTrails(s: seq<Byte>, at: nat, start: int, first: int, cnt: nat, q: int, d: int)
    requires IsRange(start, first, cnt, q) && InReach(first + d)
    requires |s| > cnt && s[0] == start + q && Trails(s[1..], cnt, at + 1, q) == Ok(d)
    ensures Pack(first + d) == s[..1 + cnt]
  {
    hide Trails, RangeOf, LeadPart, Digits, IsRange, Pack;
    TrailsAreDigits(s, at, start, cnt, q, d);
    RangeIsUnique(start, first, cnt, d);
    PackShape(first + d, start, first, cnt);
  }

  lemma LeadOfEmit(s: seq<Byte>, at: nat, prev: int)
    requires s != [] && s[0] > 0x20 && Read(s, at, prev).Emit?
    ensures B_MIN <= s[0] < B_RESET
  {
  }

  lemma ReadDeterminesBytes(s: seq<Byte>, at: nat, prev: int)
    requires s != [] && PrevOk(prev) && s[0] > 0x20 && Read(s, at, prev).Emit? && Read(s, at, prev).c > 0x20
    ensures Read(s, at, prev).c <= 0x10FFFF
    ensures EncodeOne(Read(s, at, prev).c, prev) == s[..Read(s, at, prev).used]
  {
    ReadYieldsCodePoint(s, at, prev);
    LeadOfEmit(s, at, prev);
    hide Read, Trails, Scaled, Prev, IsRange, Lead, Pack;
    var start, first, q := LeadHasRange(s[0]);
    TrailsOfRead(s, at, prev, first, q);
    PackOfTrails(s, at, start, first, Lead(s[0]).1, q, Read(s, at, prev).c - prev - first);
  }

  lemma TrailsAreDigits(s: seq<Byte>, at: nat, start: int, cnt: nat, q: int, d: int)
    requires |s| > cnt && s[0] == start + q && Trails(s[1..], cnt, at + 1, q) == Ok(d)
    ensures LeadPart(d, cnt) == q && s[..1 + cnt] == [start + q] + Digits(d, cnt)
  {
    TrailsDetermineDigits(s[1..], cnt, at + 1, q, d);
    assert s[..1 + cnt] == [s[0]] + s[1..][..cnt];
  }

  lemma TrailsOfRead(s: seq<Byte>, at: nat, prev: int, first: int, q: int)
    requires s != [] && s[0] > 0x20 && Read(s, at, prev).Emit?
    requires Lead(s[0]).0 == first + Scaled(q, Lead(s[0]).1)
    ensures |s| > Lead(s[0]).1 && Read(s, at, prev).used == 1 + Lead(s[0]).1
    ensures Trails(s[1..], Lead(s[0]).1, at + 1, q) == Ok(Read(s, at, prev).c - prev - first)
  {
    var cnt := Lead(s[0]).1;
    ScaledByUpTo3(q);
    ScaledByUpTo3(-q);
    var v := Read(s, at, prev).c - prev - Lead(s[0]).0;
    assert Trails(s[1..], cnt, at + 1, q + -q) == Ok(v);
    TrailsShift(s[1..], cnt, at + 1, q, -q, v);
  }

  // ---- canonical byte strings

  /** No reset is read, and no difference code stands for a code point at or below 0x20. */
  predicate Canonical(s: seq<Byte>, at: nat, prev: int)
    decreases |s|
  {
    s != [] ==>
      match Read(s, at, prev)
      case Fail(_) => false
      case Reset => false
      case Emit(c, prev', used) => (s[0] > 0x20 ==> c > 0x20) && Canonical(s[used..], at + used, prev')
  }

  lemma {:induction false} EncodingIsCanonical(cs: seq<CodePoint>, at: nat, prev: int)
    requires PrevOk(prev)
    ensures Canonical(EncodeFrom(cs, prev), at, prev)
  {
    if cs != [] {
      var one, rest := EncodeOne(cs[0], prev), EncodeFrom(cs[1..], Next(cs[0], prev));
      EncodingIsCanonical(cs[1..], at + |one|, Next(cs[0], prev));
      DecodeOne(cs[0], prev, rest, at);
      assert (one + rest)[|one|..] == rest;
      LeadSide(cs[0], prev);
    }
  }

  /** Control bytes encode themselves; everything else starts with a lead byte. */
  lemma LeadSide(c: CodePoint, prev: int)
    requires PrevOk(prev)
    ensures c <= 0x20 ==> EncodeOne(c, prev) == [c]
    ensures c > 0x20 ==> B_MIN <= EncodeOne(c, prev)[0] < B_RESET
  {
    if c > 0x20 {
      LeadOfRange(c - prev);
    }
  }

  lemma ReadOneIsCanonical(s: seq<Byte>, at: nat, prev: int)
    requires s != [] && PrevOk(prev) && Read(s, at, prev).Emit?
    requires s[0] > 0x20 ==> Read(s, at, prev).c > 0x20
    ensures var r := Read(s, at, prev);
            0 <= r.c <= 0x10FFFF && r.prev == Next(r.c, prev) && EncodeOne(r.c, prev) == s[..r.used]
  {
    ReadYieldsCodePoint(s, at, prev);
    if s[0] > 0x20 {
      ReadDeterminesBytes(s, at, prev);
    }
  }

  lemma DecodeStep(s: seq<Byte>, at: nat, prev: int, cs: seq<CodePoint>)
    requires s != [] && Read(s, at, prev).Emit? && DecodeFrom(s, at, prev) == Ok(cs)
    ensures var r := Read(s, at, prev);
            cs != [] && cs[0] == r.c && DecodeFrom(s[r.used..], at + r.used, r.prev) == Ok(cs[1..])
  {
    var rest := DecodeFrom(s[Read(s, at, prev).used..], at + Read(s, at, prev).used, Read(s, at, prev).prev).value;
    assert ([cs[0]] + rest)[1..] == rest;
  }

  predicate Reencoded(s: seq<Byte>, prev: int, cs: seq<CodePoint>)
    requires PrevOk(prev)
  {
    EncodeFrom(cs, prev) == s
  }

  lemma FirstIsReencoded(s: seq<Byte>, at: nat, prev: int, cs: seq<CodePoint>)
    requires s != [] && cs != [] && PrevOk(prev)
    requires Read(s, at, prev).Emit? && Read(s, at, prev).c == cs[0]
    requires s[0] > 0x20 ==> cs[0] > 0x20
    requires Reencoded(s[Read(s, at, prev).used..], Next(cs[0], prev), cs[1..])
    ensures Reencoded(s, prev, cs)
  {
    ReadOneIsCanonical(s, at, prev);
    var used := Read(s, at, prev).used;
    assert s == s[..used] + s[used..];
  }

  lemma {:induction false} CanonicalIsReencoded(s: seq<Byte>, at: nat, prev: int, cs: seq<CodePoint>)
    requires PrevOk(prev) && DecodeFrom(s, at, prev) == Ok(cs) && Canonical(s, at, prev)
    ensures Reencoded(s, prev, cs)
    decreases |s|
  {
    if s != [] {
      var r := Read(s, at, prev);
      ReadOneIsCanonical(s, at, prev);
      DecodeStep(s, at, prev, cs);
      CanonicalIsReencoded(s[r.used..], at + r.used, r.prev, cs[1..]);
      FirstIsReencoded(s, at, prev, cs);
    }
  }

  /** Encoding what was read gives the same bytes exactly when the input was canonical. */
  lemma ReencodesIffCanonical(s: seq<Byte>, cs: seq<CodePoint>)
    requires Decode(s) == Ok(cs)
    ensures Encode(cs) == s <==> Canonical(s, 0, ASCII_PREV)
  {
    if Canonical(s, 0, ASCII_PREV) {
      CanonicalIsReencoded(s, 0, ASCII_PREV, cs);
    }
    EncodingIsCanonical(cs, 0, ASCII_PREV);
  }

  // ---- byte order is code-point order

  /** `a` and `b` differ within both, and `a` is smaller there; so any extensions compare the same way. */
  predicate Diverges(a: seq<int>, b: seq<int>) {
    a != [] && b != [] && (a[0] < b[0] || (a[0] == b[0] && Diverges(a[1..], b[1..])))
  }

  lemma {:induction false} DivergenceDecides(a: seq<int>, b: seq<int>, x: seq<int>, y: seq<int>)
    requires Diverges(a, b)
    ensures Diverges(a + x, b + y) && Less(a + x, b + y)
  {
    assert (a + x)[1..] == a[1..] + x && (b + y)[1..] == b[1..] + y;
    if a[0] == b[0] {
      DivergenceDecides(a[1..], b[1..], x, y);
    }
  }

  lemma {:induction false} DivergesAfter(p: seq<int>, a: seq<int>, b: seq<int>)
    requires Diverges(a, b)
    ensures Diverges(p + a, p + b)
  {
    if p == [] {
      assert p + a == a && p + b == b;
    } else {
      DivergesAfter(p[1..], a, b);
      assert (p + a)[1..] == p[1..] + a && (p + b)[1..] == p[1..] + b;
    }
  }

  lemma LeadPartIsMonotone(d: int, e: int, cnt: nat)
    requires d <= e
    ensures LeadPart(d, cnt) <= LeadPart(e, cnt)
    decreases cnt
  {
    if cnt > 0 {
      LeadPartIsMonotone(d / TC, e / TC, cnt - 1);
    }
  }

  lemma {:induction false} DigitsAreMonotone(d: int, e: int, cnt: nat)
    requires d < e && LeadPart(d, cnt) == LeadPart(e, cnt)
    ensures Diverges(Digits(d, cnt), Digits(e, cnt))
    decreases cnt
  {
    var x, y := [TrailByte(d % TC)], [TrailByte(e % TC)];
    if d / TC == e / TC {
      assert Diverges(x, y);
      DivergesAfter(Digits(d / TC, cnt - 1), x, y);
    } else {
      DigitsAreMonotone(d / TC, e / TC, cnt - 1);
      DivergenceDecides(Digits(d / TC, cnt - 1), Digits(e / TC, cnt - 1), x, y);
    }
  }

  /** Differences of one range whose lead bytes agree too. */
  predicate SameLead(d: int, e: int) {
    var (start, first, cnt) := RangeOf(d);
    RangeOf(e) == RangeOf(d) && LeadPart(d - first, cnt) == LeadPart(e - first, cnt)
  }

  lemma LeadsAreOrdered(d: int, e: int)
    requires InReach(d) && InReach(e) && d < e
    ensures Pack(d)[0] < Pack(e)[0] || SameLead(d, e)
  {
    var (start, first, cnt) := RangeOf(d);
    RangeIsChosen(d);
    RangeIsChosen(e);
    if RangeOf(e) == RangeOf(d) {
      LeadPartIsMonotone(d - first, e - first, cnt);
    }
  }

  lemma SharedLead(d: int, e: int) returns (lead: Byte, x: int, y: int, cnt: nat)
    requires InReach(d) && InReach(e) && d < e && SameLead(d, e)
    ensures Pack(d) == [lead] + Digits(x, cnt) && Pack(e) == [lead] + Digits(y, cnt)
    ensures x < y && LeadPart(x, cnt) == LeadPart(y, cnt)
  {
    lead, cnt := Pack(d)[0], RangeOf(d).2;
    x, y := d - RangeOf(d).1, e - RangeOf(d).1;
  }

  lemma PackIsMonotone(d: int, e: int)
    requires InReach(d) && InReach(e) && d < e
    ensures Diverges(Pack(d), Pack(e))
  {
    LeadsAreOrdered(d, e);
    if SameLead(d, e) {
      var lead, x, y, cnt := SharedLead(d, e);
      DigitsAreMonotone(x, y, cnt);
      DivergesAfter([lead], Digits(x, cnt), Digits(y, cnt));
    }
  }

  lemma OneIsMonotone(c: CodePoint, e: CodePoint, prev: int)
    requires PrevOk(prev) && c < e
    ensures Diverges(EncodeOne(c, prev), EncodeOne(e, prev))
  {
    LeadSide(c, prev);
    LeadSide(e, prev);
    if c > 0x20 {
      PackIsMonotone(c - prev, e - prev);
    }
  }

  lemma {:induction false} EncodingKeepsOrder(a: seq<CodePoint>, b: seq<CodePoint>, prev: int)
    requires PrevOk(prev) && Less(a, b)
    ensures Less(EncodeFrom(a, prev), EncodeFrom(b, prev))
  {
    if a != [] {
      var x, y := EncodeFrom(a[1..], Next(a[0], prev)), EncodeFrom(b[1..], Next(b[0], prev));
      if a[0] < b[0] {
        OneIsMonotone(a[0], b[0], prev);
        DivergenceDecides(EncodeOne(a[0], prev), EncodeOne(b[0], prev), x, y);
      } else {
        EncodingKeepsOrder(a[1..], b[1..], Next(a[0], prev));
        LessAfter(EncodeOne(a[0], prev), x, y);
      }
    }
  }

  lemma {:induction false} LessAfter(p: seq<int>, a: seq<int>, b: seq<int>)
    ensures Less(p + a, p + b) == Less(a, b)
  {
    if p == [] {
      assert p + a == a && p + b == b;
    } else {
      LessAfter(p[1..], a, b);
      assert (p + a)[1..] == p[1..] + a && (p + b)[1..] == p[1..] + b;
    }
  }

  /** Sorting encoded texts by bytes sorts them by code points. */
  lemma EncodingPreservesOrder(a: seq<CodePoint>, b: seq<CodePoint>)
    ensures Less(Encode(a), Encode(b)) <==> Less(a, b)
  {
    if Less(a, b) {
      EncodingKeepsOrder(a, b, ASCII_PREV);
    } else if Less(b, a) {
      EncodingKeepsOrder(b, a, ASCII_PREV);
      LessIsAsymmetric(Encode(b), Encode(a));
    } else {
      LessIsTotal(a, b);
      if Less(Encode(a), Encode(b)) {
        LessIsAsymmetric(Encode(a), Encode(b));
      }
    }
  }

  /** On canonical inputs reading is injective and keeps the order. */
  lemma CanonicalReadingKeepsOrder(s: seq<Byte>, t: seq<Byte>, a: seq<CodePoint>, b: seq<CodePoint>)
    requires Decode(s) == Ok(a) && Decode(t) == Ok(b)
    requires Canonical(s, 0, ASCII_PREV) && Canonical(t, 0, ASCII_PREV)
    ensures a == b <==> s == t
    ensures Less(a, b) <==> Less(s, t)
  {
    CanonicalIsReencoded(s, 0, ASCII_PREV, a);
    CanonicalIsReencoded(t, 0, ASCII_PREV, b);
    EncodingPreservesOrder(a, b);
  }
}
