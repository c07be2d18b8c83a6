/** The BOCU-1 reader of `_onecdec/scsu_std.py`, against the encoder of Unicode Technical Note #6. */
module Bocu1 {
  import opened Prelude

  const B_MIN := 0x21
  const B_MIDDLE := 0x90
  const B_RESET := 0xFF
  const ASCII_PREV := 0x40

  // 243 trail values: 223 from B_MIN up, and 20 control bytes.
  const TC := 243

  // How far one, two and three bytes reach on either side.
  const R_POS1 := 63
  const R_NEG1 := -64
  const R_POS2 := R_POS1 + 43 * TC
  const R_NEG2 := R_NEG1 - 43 * TC
  const R_POS3 := R_POS2 + 3 * TC * TC
  const R_NEG3 := R_NEG2 - 3 * TC * TC

  // First lead byte of each multi-byte range.
  const S_POS2 := B_MIDDLE + R_POS1 + 1
  const S_POS3 := S_POS2 + 43
  const S_POS4 := S_POS3 + 3
  const S_NEG2 := B_MIDDLE + R_NEG1
  const S_NEG3 := S_NEG2 - 43

  const TRAIL_CTL: seq<int> :=
    [-1, 0, 1, 2, 3, 4, 5, -1, -1, -1, -1, -1, -1, -1, -1, -1,
     6, 7, 8, 9, 10, 11, 12, 13, 14, 15, -1, -1, 16, 17, 18, 19, -1]

  datatype Error =
    | Truncated(at: nat)
    | BadTrail(byte: Byte, at: nat)
    | OutOfRange(at: nat)

  /** The reference point for the next difference: the middle of the script block of `c`. */
  function Prev(c: int): int {
    if 0x3040 <= c <= 0x309F then 0x3070
    else if 0x4E00 <= c <= 0x9FA5 then 0x4E00 - R_NEG2
    else if 0xAC00 <= c <= 0xD7A3 then (0xD7A3 + 0xAC00) / 2
    else c - c % 0x80 + 0x40
  }

  /** The digit a trail byte stands for; negative when the byte is no trail. */
  function TrailValue(t: Byte): int {
    if t > 0x20 then t - (B_MIN - 20)
    else if 0x01 <= t <= 0x06 then t - 0x01
    else if 0x10 <= t <= 0x19 then t - 0x10 + 6
    else if 0x1C <= t <= 0x1F then t - 0x1C + 16
    else -1
  }

  /** The ranges above are the source's table. */
  lemma TrailValueIsTable(t: Byte)
    ensures TrailValue(t) == if t <= 0x20 then TRAIL_CTL[t] else t - (B_MIN - 20)
  {
  }

  /** What a lead byte contributes to the difference, and how many trails follow it. */
  function Lead(b: Byte): (int, nat)
    requires B_MIN <= b < B_RESET
  {
    if S_NEG2 <= b < S_POS2 then (b - B_MIDDLE, 0)
    else if b >= S_NEG2 then
      if b < S_POS3 then ((b - S_POS2) * TC + R_POS1 + 1, 1)
      else if b < S_POS4 then ((b - S_POS3) * TC * TC + R_POS2 + 1, 2)
      else (R_POS3 + 1, 3)
    else
      if b >= S_NEG3 then ((b - S_NEG2) * TC + R_NEG1, 1)
      else if b > B_MIN then ((b - S_NEG3) * TC * TC + R_NEG2, 2)
      else (-TC * TC * TC + R_NEG3, 3)
  }

  /** The value of `cnt` trail digits, most significant first, continuing from `acc`. */
  function Trails(s: seq<Byte>, cnt: nat, at: nat, acc: int): Result<int, Error>
    requires cnt <= |s|
  {
    if cnt == 0 then Ok(acc)
    else if TrailValue(s[0]) < 0 then Err(BadTrail(s[0], at))
    else Trails(s[1..], cnt - 1, at + 1, acc * TC + TrailValue(s[0]))
  }

  datatype Step = Emit(c: int, prev: int, used: nat) | Reset | Fail(error: Error)

  /** Reads one code point (or a reset) off the front of `s`, which starts at offset `at`. */
  function Read(s: seq<Byte>, at: nat, prev: int): (r: Step)
    requires s != []
    ensures r.Emit? ==> 1 <= r.used <= |s|
  {
    if s[0] <= 0x20 then Emit(s[0], if s[0] != 0x20 then ASCII_PREV else prev, 1)
    else if s[0] == B_RESET then Reset
    else
      var (diff, cnt) := Lead(s[0]);
      if cnt == 0 then Emit(prev + diff, Prev(prev + diff), 1)
      else if |s| < 1 + cnt then Fail(Truncated(at + 1))
      else match Trails(s[1..], cnt, at + 1, 0)
        case Err(e) => Fail(e)
        case Ok(v) =>
          var c := prev + diff + v;
          if 0 <= c <= 0x10FFFF then Emit(c, Prev(c), 1 + cnt)
          else Fail(OutOfRange(at + 1 + cnt))
  }

  function Cons(c: int, r: Result<seq<int>, Error>): Result<seq<int>, Error> {
    match r
    case Ok(cs) => Ok([c] + cs)
    case Err(e) => Err(e)
  }

  function DecodeFrom(s: seq<Byte>, at: nat, prev: int): Result<seq<int>, Error> {
    if s == [] then Ok([])
    else match Read(s, at, prev)
      case Emit(c, prev', used) => Cons(c, DecodeFrom(s[used..], at + used, prev'))
      case Reset => DecodeFrom(s[1..], at + 1, ASCII_PREV)
      case Fail(e) => Err(e)
  }

  function Decode(data: seq<Byte>): Result<seq<int>, Error> {
    DecodeFrom(data, 0, ASCII_PREV)
  }

  // ---- the encoder of UTN #6

  function TrailByte(m: int): Byte
    requires 0 <= m < TC
  {
    if m >= 20 then m + (B_MIN - 20)
    else if m >= 16 then m - 16 + 0x1C
    else if m >= 6 then m - 6 + 0x10
    else m + 0x01
  }

  /** Trail bytes and the digits 0..242 correspond one to one. */
  lemma TrailByteInverts(m: int)
    requires 0 <= m < TC
    ensures TrailValue(TrailByte(m)) == m
  {
  }

  lemma TrailValueInverts(t: Byte)
    requires TrailValue(t) >= 0
    ensures TrailValue(t) < TC && TrailByte(TrailValue(t)) == t
  {
  }

  /** The last `cnt` base-243 digits of `d`, and what is left in front of them (possibly negative). */
  function Digits(d: int, cnt: nat): (ds: seq<Byte>)
    ensures |ds| == cnt
    decreases cnt
  {
    if cnt == 0 then [] else Digits(d / TC, cnt - 1) + [TrailByte(d % TC)]
  }

  function LeadPart(d: int, cnt: nat): int
    decreases cnt
  {
    if cnt == 0 then d else LeadPart(d / TC, cnt - 1)
  }

  /** Lead byte `start + q` is read as `q` scaled by its `cnt` trails, counted from `first`. */
  predicate LeadFits(start: int, q: int, first: int, cnt: nat) {
    && B_MIN <= start + q < B_RESET
    && Lead(start + q) == (first + Scaled(q, cnt), cnt)
  }

  /** The range a difference falls in: first lead byte, first difference, number of trails. */
  function RangeOf(diff: int): (int, int, nat) {
    if diff >= R_NEG1 then
      if diff <= R_POS1 then (B_MIDDLE, 0, 0)
      else if diff <= R_POS2 then (S_POS2, R_POS1 + 1, 1)
      else if diff <= R_POS3 then (S_POS3, R_POS2 + 1, 2)
      else (S_POS4, R_POS3 + 1, 3)
    else
      if diff >= R_NEG2 then (S_NEG2, R_NEG1, 1)
      else if diff >= R_NEG3 then (S_NEG3, R_NEG2, 2)
      else (B_MIN + 1, R_NEG3, 3)
  }

  /** Every difference two code points can have. */
  predicate InReach(diff: int) {
    -0x110000 < diff < 0x110000
  }

  function Pack(diff: int): (p: seq<Byte>)
    requires InReach(diff)
    ensures p != []
  {
    var (start, first, cnt) := RangeOf(diff);
    LeadOfRange(diff);
    [start + LeadPart(diff - first, cnt)] + Digits(diff - first, cnt)
  }

  predicate PrevOk(prev: int) {
    ASCII_PREV <= prev <= 0x10FFC0
  }

  /** What the encoder writes for one code point, and the state it leaves. */
  function EncodeOne(c: CodePoint, prev: int): (p: seq<Byte>)
    requires PrevOk(prev)
    ensures p != []
  {
    if c <= 0x20 then [c] else Pack(c - prev)
  }

  function Next(c: CodePoint, prev: int): (r: int)
    requires PrevOk(prev)
    ensures PrevOk(r)
  {
    if c == 0x20 then prev else if c < 0x20 then ASCII_PREV else Prev(c)
  }

  function EncodeFrom(cs: seq<CodePoint>, prev: int): seq<Byte>
    requires PrevOk(prev)
  {
    if cs == [] then []
    else EncodeOne(cs[0], prev) + EncodeFrom(cs[1..], Next(cs[0], prev))
  }

  function Encode(cs: seq<CodePoint>): seq<Byte> {
    EncodeFrom(cs, ASCII_PREV)
  }

  // ---- reading undoes writing

  /** `q` times 243 to the power `cnt`. */
  function Scaled(q: int, cnt: nat): int
    decreases cnt
  {
    if cnt == 0 then q else Scaled(q * TC, cnt - 1)
  }

  lemma ScaledByUpTo3(q: int)
    ensures Scaled(q, 0) == q && Scaled(q, 1) == q * TC
    ensures Scaled(q, 2) == q * TC * TC && Scaled(q, 3) == q * TC * TC * TC
  {
    assert Scaled(q, 2) == Scaled(q * TC, 1);
    assert Scaled(q, 3) == Scaled(q * TC, 2) == Scaled(q * TC * TC, 1);
  }

  lemma LeadPartBounds(d: int, cnt: nat)
    requires cnt <= 3
    ensures var q := LeadPart(d, cnt);
            && (cnt == 0 ==> q == d)
            && (cnt == 1 ==> 0 <= d - q * TC < TC)
            && (cnt == 2 ==> 0 <= d - q * TC * TC < TC * TC)
            && (cnt == 3 ==> 0 <= d - q * TC * TC * TC < TC * TC * TC)
    decreases cnt
  {
    if cnt > 0 {
      LeadPartBounds(d / TC, cnt - 1);
      assert 0 <= d - (d / TC) * TC < TC;
    }
  }

  /** The seven ranges of lead bytes, with the lead parts each of them can hold. */
  predicate IsRange(start: int, first: int, cnt: nat, q: int) {
    || (start == B_MIDDLE && first == 0 && cnt == 0 && R_NEG1 <= q <= R_POS1)
    || (start == S_POS2 && first == R_POS1 + 1 && cnt == 1 && 0 <= q < 43)
    || (start == S_POS3 && first == R_POS2 + 1 && cnt == 2 && 0 <= q < 3)
    || (start == S_POS4 && first == R_POS3 + 1 && cnt == 3 && q == 0)
    || (start == S_NEG2 && first == R_NEG1 && cnt == 1 && -43 <= q < 0)
    || (start == S_NEG3 && first == R_NEG2 && cnt == 2 && -3 <= q < 0)
    || (start == B_MIN + 1 && first == R_NEG3 && cnt == 3 && q == -1)
  }

  lemma RangeIsRead(start: int, first: int, cnt: nat, q: int)
    requires IsRange(start, first, cnt, q)
    ensures LeadFits(start, q, first, cnt)
  {
    ScaledByUpTo3(q);
  }

  lemma RangeIsChosen(diff: int)
    requires InReach(diff)
    ensures var (start, first, cnt) := RangeOf(diff);
            IsRange(start, first, cnt, LeadPart(diff - first, cnt))
  {
    var (start, first, cnt) := RangeOf(diff);
    LeadPartBounds(diff - first, cnt);
  }

  /** The ranges tile all differences: the lead written for a range is read as that range. */
  lemma LeadOfRange(diff: int)
    requires InReach(diff)
    ensures var (start, first, cnt) := RangeOf(diff);
            LeadFits(start, LeadPart(diff - first, cnt), first, cnt)
  {
    var (start, first, cnt) := RangeOf(diff);
    RangeIsChosen(diff);
    RangeIsRead(start, first, cnt, LeadPart(diff - first, cnt));
  }

  /** The digits of `d`, read after its lead part, give `d`. */
  lemma {:induction false} DigitsInvert(d: int, cnt: nat, rest: seq<Byte>, more: nat, at: nat)
    requires more <= |rest|
    ensures Trails(Digits(d, cnt) + rest, cnt + more, at, LeadPart(d, cnt)) == Trails(rest, more, at + cnt, d)
    decreases cnt
  {
    if cnt == 0 {
      assert Digits(d, cnt) + rest == rest;
    } else {
      var t := TrailByte(d % TC);
      DigitsInvert(d / TC, cnt - 1, [t] + rest, more + 1, at);
      TrailByteInverts(d % TC);
      assert Digits(d, cnt) + rest == Digits(d / TC, cnt - 1) + ([t] + rest);
    }
  }

  lemma {:induction false} TrailsShift(s: seq<Byte>, cnt: nat, at: nat, acc: int, delta: int, v: int)
    requires cnt <= |s| && Trails(s, cnt, at, acc + delta) == Ok(v)
    ensures Trails(s, cnt, at, acc) == Ok(v - Scaled(delta, cnt))
  {
    if cnt > 0 {
      TrailsShift(s[1..], cnt - 1, at + 1, acc * TC + TrailValue(s[0]), delta * TC, v);
    }
  }

  lemma DigitsAddUp(d: int, cnt: nat, rest: seq<Byte>, at: nat)
    ensures Trails(Digits(d, cnt) + rest, cnt, at, 0) == Ok(d - Scaled(LeadPart(d, cnt), cnt))
  {
    DigitsInvert(d, cnt, rest, 0, at);
    TrailsShift(Digits(d, cnt) + rest, cnt, at, 0, LeadPart(d, cnt), d);
  }

  lemma ReadOfLead(b: Byte, ds: seq<Byte>, prev: int, diff: int, rest: seq<Byte>, at: nat)
    requires B_MIN <= b < B_RESET && |ds| == Lead(b).1
    requires Trails(ds + rest, |ds|, at + 1, 0) == Ok(diff - Lead(b).0)
    requires 0x20 < prev + diff <= 0x10FFFF
    ensures Read([b] + ds + rest, at, prev) == Emit(prev + diff, Prev(prev + diff), 1 + |ds|)
  {
    assert ([b] + ds + rest)[1..] == ds + rest;
  }

  lemma ReadInvertsDigits(start: int, first: int, d: int, cnt: nat, prev: int, rest: seq<Byte>, at: nat)
    requires LeadFits(start, LeadPart(d, cnt), first, cnt)
    requires 0x20 < prev + first + d <= 0x10FFFF
    ensures var c := prev + first + d;
            Read([start + LeadPart(d, cnt)] + Digits(d, cnt) + rest, at, prev) == Emit(c, Prev(c), 1 + cnt)
  {
    DigitsAddUp(d, cnt, rest, at + 1);
    ReadOfLead(start + LeadPart(d, cnt), Digits(d, cnt), prev, first + d, rest, at);
  }

  lemma ReadInvertsPack(diff: int, prev: int, rest: seq<Byte>, at: nat)
    requires InReach(diff) && 0x20 < prev + diff <= 0x10FFFF
    ensures Read(Pack(diff) + rest, at, prev) == Emit(prev + diff, Prev(prev + diff), |Pack(diff)|)
  {
    hide RangeOf, LeadPart, Digits, Read, Lead, Scaled, Prev;
    var (start, first, cnt) := RangeOf(diff);
    LeadOfRange(diff);
    ReadInvertsDigits(start, first, diff - first, cnt, prev, rest, at);
  }

  lemma DecodeOne(c: CodePoint, prev: int, rest: seq<Byte>, at: nat)
    requires PrevOk(prev)
    ensures var one := EncodeOne(c, prev);
            && Read(one + rest, at, prev) == Emit(c, Next(c, prev), |one|)
            && DecodeFrom(one + rest, at, prev) == Cons(c, DecodeFrom(rest, at + |one|, Next(c, prev)))
  {
    if c > 0x20 {
      ReadInvertsPack(c - prev, prev, rest, at);
    }
    var one := EncodeOne(c, prev);
    assert (one + rest)[|one|..] == rest;
  }

  predicate Inverted(cs: seq<CodePoint>, at: nat, prev: int)
    requires PrevOk(prev)
  {
    DecodeFrom(EncodeFrom(cs, prev), at, prev) == Ok(cs)
  }

  lemma FirstIsInverted(cs: seq<CodePoint>, at: nat, prev: int)
    requires cs != [] && PrevOk(prev)
    requires Inverted(cs[1..], at + |EncodeOne(cs[0], prev)|, Next(cs[0], prev))
    ensures Inverted(cs, at, prev)
  {
    hide DecodeFrom, EncodeOne, Next, Read;
    var rest := EncodeFrom(cs[1..], Next(cs[0], prev));
    DecodeOne(cs[0], prev, rest, at);
    assert EncodeFrom(cs, prev) == EncodeOne(cs[0], prev) + rest;
    assert cs == [cs[0]] + cs[1..];
  }

  lemma {:induction false} AllInverted(cs: seq<CodePoint>, at: nat, prev: int)
    requires PrevOk(prev)
    ensures Inverted(cs, at, prev)
  {
    if cs != [] {
      AllInverted(cs[1..], at + |EncodeOne(cs[0], prev)|, Next(cs[0], prev));
      FirstIsInverted(cs, at, prev);
    }
  }

  /** Reading what UTN #6 writes gives the text back, for every text. */
  lemma DecodeInvertsEncode(cs: seq<CodePoint>)
    ensures Decode(Encode(cs)) == Ok(cs)
  {
    AllInverted(cs, 0, ASCII_PREV);
  }
}
