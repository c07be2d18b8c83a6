/** Hexadecimal text and little-endian integers, as the V8 container files use them. */
module Numbers {
  import opened Prelude

  const U32 := 0x1_0000_0000
  const U64 := 0x1_0000_0000_0000_0000

  // ---- hexadecimal

  function HexDigit(d: nat): Byte
    requires d < 16
  {
    if d < 10 then 0x30 + d else 0x61 + (d - 10)
  }

  /** The value of a hexadecimal digit of either case; 16 for anything else. */
  function HexValue(b: Byte): nat {
    if 0x30 <= b <= 0x39 then b - 0x30
    else if 0x61 <= b <= 0x66 then b - 0x61 + 10
    else if 0x41 <= b <= 0x46 then b - 0x41 + 10
    else 16
  }

  /** `%0<width>x`: at least `width` digits, more when the number needs them. */
  function Hex(n: nat, width: nat): (s: seq<Byte>)
    ensures |s| >= width
    decreases n, width
  {
    if n == 0 && width == 0 then []
    else Hex(n / 16, if width > 0 then width - 1 else 0) + [HexDigit(n % 16)]
  }

  function HexDigits(s: seq<Byte>): Option<nat> {
    if s == [] then Some(0)
    else match HexDigits(s[..|s| - 1])
      case None => None
      case Some(v) => if HexValue(s[|s| - 1]) == 16 then None else Some(v * 16 + HexValue(s[|s| - 1]))
  }

  predicate IsBlank(b: Byte) {
    b == 0x20 || 0x09 <= b <= 0x0D
  }

  function DropBlanks(s: seq<Byte>): seq<Byte> {
    if s != [] && IsBlank(s[0]) then DropBlanks(s[1..]) else s
  }

  function CutBlanks(s: seq<Byte>): seq<Byte> {
    if s != [] && IsBlank(s[|s| - 1]) then CutBlanks(s[..|s| - 1]) else s
  }

  const BAR: Byte := 0x5F

  /** Single underscores stand between characters only. */
  predicate WellBarred(s: seq<Byte>) {
    && s != [] && s[0] != BAR && s[|s| - 1] != BAR
    && forall k :: 0 <= k < |s| - 1 ==> !(s[k] == BAR && s[k + 1] == BAR)
  }

  function WithoutBars(s: seq<Byte>): seq<Byte> {
    if s == [] then [] else (if s[0] == BAR then [] else [s[0]]) + WithoutBars(s[1..])
  }

  /** Digits, behind `0x` and one underscore at most. */
  function ParseDigits(s: seq<Byte>): Option<nat> {
    var t := if |s| >= 2 && s[0] == 0x30 && (s[1] == 0x78 || s[1] == 0x58)
             then (if |s| > 2 && s[2] == BAR then s[3..] else s[2..])
             else s;
    if WellBarred(t) then HexDigits(WithoutBars(t)) else None
  }

  /** `int(s, 16)`: blanks around, a sign, a prefix and underscores are all taken. */
  function ParseHex(s: seq<Byte>): Option<int> {
    var t := CutBlanks(DropBlanks(s));
    var signed := t != [] && (t[0] == 0x2B || t[0] == 0x2D);
    match ParseDigits(if signed then t[1..] else t)
    case None => None
    case Some(v) =>
      var n: int := v;
      Some(if signed && t[0] == 0x2D then -n else n)
  }

  lemma {:induction false} DigitsAre(s: seq<Byte>, k: nat)
    requires HexDigits(s).Some? && k < |s|
    ensures HexValue(s[k]) < 16
    decreases |s|
  {
    if k < |s| - 1 {
      DigitsAre(s[..|s| - 1], k);
    }
  }

  lemma {:induction false} NoBars(s: seq<Byte>)
    requires forall k :: 0 <= k < |s| ==> s[k] != BAR
    ensures WithoutBars(s) == s
  {
    if s != [] {
      NoBars(s[1..]);
      assert s == [s[0]] + s[1..];
    }
  }

  /** Plain digits are read as such. */
  lemma PlainIsParsed(s: seq<Byte>)
    requires s != [] && HexDigits(s).Some?
    ensures ParseHex(s) == Some(HexDigits(s).value)
  {
    forall k | 0 <= k < |s| ensures HexValue(s[k]) < 16 {
      DigitsAre(s, k);
    }
    NoBars(s);
  }

  lemma PlainDigits(s: seq<Byte>)
    requires s != [] && HexDigits(s).Some?
    ensures ParseDigits(s) == HexDigits(s) && forall k :: 0 <= k < |s| ==> HexValue(s[k]) < 16
  {
    forall k | 0 <= k < |s| ensures HexValue(s[k]) < 16 {
      DigitsAre(s, k);
    }
    NoBars(s);
  }

  lemma NothingCut(t: seq<Byte>)
    requires t != [] && !IsBlank(t[0]) && !IsBlank(t[|t| - 1])
    ensures CutBlanks(DropBlanks(t)) == t
  {
  }

  /** A sign in front is taken: minus turns the number round. */
  lemma SignIsParsed(s: seq<Byte>, sign: Byte)
    requires s != [] && HexDigits(s).Some? && (sign == 0x2B || sign == 0x2D)
    ensures var v: int := HexDigits(s).value; ParseHex([sign] + s) == Some(if sign == 0x2D then -v else v)
  {
    hide DropBlanks, CutBlanks, ParseDigits;
    PlainDigits(s);
    var t := [sign] + s;
    assert t[|t| - 1] == s[|s| - 1] && t[1..] == s;
    NothingCut(t);
  }

  /** So is a prefix. */
  lemma PrefixIsParsed(s: seq<Byte>)
    requires s != [] && HexDigits(s).Some?
    ensures ParseHex([0x30, 0x78] + s) == Some(HexDigits(s).value)
  {
    hide DropBlanks, CutBlanks;
    PlainDigits(s);
    var t := [0x30, 0x78] + s;
    assert t[|t| - 1] == s[|s| - 1] && t[2..] == s && t[0] == 0x30;
    NothingCut(t);
    NoBars(s);
  }

  /** No digits at all, or an underscore at either end, is no number. */
  lemma NoNumber(s: seq<Byte>)
    requires s != [] && HexDigits(s).Some?
    ensures ParseHex([]) == None && ParseHex([BAR] + s) == None && ParseHex(s + [BAR]) == None
  {
    hide DropBlanks, CutBlanks;
    PlainDigits(s);
    EmptyIsCut();
    NothingCut([BAR] + s);
    NothingCut(s + [BAR]);
    assert ([BAR] + s)[0] == BAR && (s + [BAR])[|s|] == BAR;
  }

  /** Blanks around are taken off. */
  lemma BlanksAreCut(s: seq<Byte>, b: Byte)
    requires s != [] && !IsBlank(s[0]) && !IsBlank(s[|s| - 1]) && IsBlank(b)
    ensures ParseHex([b] + s) == ParseHex(s) == ParseHex(s + [b])
  {
    hide ParseDigits;
    assert ([b] + s)[1..] == s && (s + [b])[..|s|] == s;
    NothingCut(s);
  }

  lemma EmptyIsCut()
    ensures CutBlanks(DropBlanks([])) == []
  {
  }

  lemma {:induction false} HexIsRead(n: nat, width: nat)
    ensures HexDigits(Hex(n, width)) == Some(n)
    decreases n, width
  {
    if n > 0 || width > 0 {
      var w := if width > 0 then width - 1 else 0;
      HexIsRead(n / 16, w);
      assert Hex(n, width)[..|Hex(n, width)| - 1] == Hex(n / 16, w);
    }
  }

  lemma {:induction false} HexFits(n: nat, width: nat)
    requires DigitsFit(n, width)
    ensures |Hex(n, width)| == width
    decreases width
  {
    if width > 0 {
      HexFits(n / 16, width - 1);
    }
  }

  predicate DigitsFit(n: nat, width: nat)
    decreases width
  {
    if width == 0 then n == 0 else DigitsFit(n / 16, width - 1)
  }

  /** `base` to the power `k`. */
  function Power(base: nat, k: nat): nat {
    if k == 0 then 1 else base * Power(base, k - 1)
  }

  lemma {:induction false} DigitsFitBelow(n: nat, width: nat)
    requires n < Power(16, width)
    ensures DigitsFit(n, width)
    decreases width
  {
    if width > 0 {
      DigitsFitBelow(n / 16, width - 1);
    }
  }

  /** A 32-bit number is printed in exactly eight digits and read back. */
  lemma Hex8(n: nat)
    requires n < U32
    ensures |Hex(n, 8)| == 8 && ParseHex(Hex(n, 8)) == Some(n)
  {
    assert Power(16, 4) == 0x10000 by { assert Power(16, 2) == 0x100; }
    assert Power(16, 8) == U32 by { assert Power(16, 6) == 0x100_0000; }
    DigitsFitBelow(n, 8);
    HexFits(n, 8);
    HexIsRead(n, 8);
    PlainIsParsed(Hex(n, 8));
  }

  /** So is a 64-bit one in sixteen digits. */
  lemma Hex16(n: nat)
    requires n < U64
    ensures |Hex(n, 16)| == 16 && ParseHex(Hex(n, 16)) == Some(n)
  {
    assert Power(16, 4) == 0x10000 by { assert Power(16, 2) == 0x100; }
    assert Power(16, 8) == U32 by { assert Power(16, 6) == 0x100_0000; }
    assert Power(16, 12) == 0x1_0000_0000_0000 by { assert Power(16, 10) == 0x100_0000_0000; }
    assert Power(16, 16) == U64 by { assert Power(16, 14) == 0x100_0000_0000_0000; }
    DigitsFitBelow(n, 16);
    HexFits(n, 16);
    HexIsRead(n, 16);
    PlainIsParsed(Hex(n, 16));
  }

  // ---- little-endian integers

  function Le(n: nat, k: nat): (s: seq<Byte>)
    ensures |s| == k
    decreases k
  {
    if k == 0 then [] else [n % 0x100] + Le(n / 0x100, k - 1)
  }

  function FromLe(s: seq<Byte>): nat {
    if s == [] then 0 else s[0] + 0x100 * FromLe(s[1..])
  }

  predicate BytesFit(n: nat, k: nat)
    decreases k
  {
    if k == 0 then n == 0 else BytesFit(n / 0x100, k - 1)
  }

  lemma {:induction false} LeIsRead(n: nat, k: nat)
    requires BytesFit(n, k)
    ensures FromLe(Le(n, k)) == n
    decreases k
  {
    if k > 0 {
      LeIsRead(n / 0x100, k - 1);
      assert Le(n, k)[1..] == Le(n / 0x100, k - 1);
    }
  }

  lemma {:induction false} BytesFitBelow(n: nat, k: nat)
    requires n < Power(0x100, k)
    ensures BytesFit(n, k)
    decreases k
  {
    if k > 0 {
      BytesFitBelow(n / 0x100, k - 1);
    }
  }

  /** A 32-bit number survives `struct.pack('<I')` and `struct.unpack`. */
  lemma Le4(n: nat)
    requires n < U32
    ensures FromLe(Le(n, 4)) == n
  {
    assert Power(0x100, 4) == U32 by { assert Power(0x100, 2) == 0x10000; }
    BytesFitBelow(n, 4);
    LeIsRead(n, 4);
  }

  /** So does a 64-bit one `struct.pack('<Q')`. */
  lemma Le8(n: nat)
    requires n < U64
    ensures FromLe(Le(n, 8)) == n
  {
    assert Power(0x100, 4) == U32 by { assert Power(0x100, 2) == 0x10000; }
    assert Power(0x100, 8) == U64 by { assert Power(0x100, 6) == 0x1_0000_0000_0000; }
    BytesFitBelow(n, 8);
    LeIsRead(n, 8);
  }

  /** Little-endian text determines the number only together with its length: reading, then writing, is exact. */
  lemma {:induction false} LeIsWritten(s: seq<Byte>)
    ensures Le(FromLe(s), |s|) == s
  {
    if s != [] {
      LeIsWritten(s[1..]);
      assert FromLe(s) % 0x100 == s[0] && FromLe(s) / 0x100 == FromLe(s[1..]);
      assert s == [s[0]] + s[1..];
    }
  }
}
