/**
 * What BOCU-1 is built for, stated on texts and bytes alone: where the reference point lies after each script, what
 * spaces, control codes and the reset byte do to it, and the constants of Unicode Technical Note #6.
 */
module Bocu1Laws {
  import opened Prelude
  import opened Bocu1

  /** The numbers UTN #6 gives: lead bytes, and how far one, two and three bytes reach. */
  lemma ConstantsAreUtn6()
    ensures S_NEG3 == 0x25 && S_NEG2 == 0x50 && S_POS2 == 0xD0 && S_POS3 == 0xFB && S_POS4 == 0xFE && TC == 243
    ensures R_NEG3 == -187660 && R_NEG2 == -10513 && R_POS2 == 10512 && R_POS3 == 187659
  {
  }

  // ---- the state the encoder is in after a text

  function After(cs: seq<CodePoint>, prev: int): (r: int)
    requires PrevOk(prev)
    ensures PrevOk(r)
  {
    if cs == [] then prev else After(cs[1..], Next(cs[0], prev))
  }

  lemma {:induction false} AfterConcat(cs: seq<CodePoint>, ds: seq<CodePoint>, prev: int)
    requires PrevOk(prev)
    ensures After(cs + ds, prev) == After(ds, After(cs, prev))
    ensures EncodeFrom(cs + ds, prev) == EncodeFrom(cs, prev) + EncodeFrom(ds, After(cs, prev))
  {
    hide EncodeOne, Next;
    if cs == [] {
      assert cs + ds == ds;
    } else {
      var one := EncodeOne(cs[0], prev);
      Regroup(one, EncodeFrom(cs[1..], Next(cs[0], prev)), EncodeFrom(ds, After(cs, prev)));
      AfterConcat(cs[1..], ds, Next(cs[0], prev));
      assert (cs + ds)[1..] == cs[1..] + ds;
    }
  }

  lemma EncodeSingle(c: CodePoint, prev: int)
    requires PrevOk(prev)
    ensures EncodeFrom([c], prev) == EncodeOne(c, prev) && After([c], prev) == Next(c, prev)
  {
    assert [c][1..] == [];
  }

  /** A code point behind a text is written from the reference point the text leaves. */
  lemma EncodeSnoc(cs: seq<CodePoint>, c: CodePoint, d: CodePoint)
    ensures exists p :: PrevOk(p) && Encode(cs + [c, d]) == Encode(cs + [c]) + EncodeOne(d, Next(c, p))
  {
    var p := After(cs, ASCII_PREV);
    AfterConcat(cs, [c], ASCII_PREV);
    EncodeSingle(c, p);
    AfterConcat(cs + [c], [d], ASCII_PREV);
    EncodeSingle(d, Next(c, p));
    assert cs + [c, d] == cs + [c] + [d];
  }

  // ---- where the reference point lies

  predicate IsHiragana(c: int) { 0x3040 <= c <= 0x309F }
  predicate IsUnihan(c: int) { 0x4E00 <= c <= 0x9FA5 }
  predicate IsHangul(c: int) { 0xAC00 <= c <= 0xD7A3 }

  predicate IsSmallScript(c: int) {
    c > 0x20 && !IsHiragana(c) && !IsUnihan(c) && !IsHangul(c)
  }

  lemma OneByte(d: CodePoint, prev: int)
    requires PrevOk(prev) && d > 0x20 && -64 <= d - prev <= 63
    ensures EncodeOne(d, prev) == [0x90 + (d - prev)]
  {
    assert LeadPart(d - prev, 0) == d - prev && Digits(d - prev, 0) == [];
  }

  lemma TwoBytes(d: CodePoint, prev: int)
    requires PrevOk(prev) && d > 0x20 && R_NEG2 <= d - prev <= R_POS2
    ensures |EncodeOne(d, prev)| <= 2
  {
  }

  /** Within a block of 128 code points every code point behind another is one byte, which says its place in the block. */
  lemma SmallScriptsTakeOneByte(cs: seq<CodePoint>, c: CodePoint, d: CodePoint)
    requires IsSmallScript(c) && d > 0x20 && d / 0x80 == c / 0x80
    ensures Encode(cs + [c, d]) == Encode(cs + [c]) + [0x50 + d % 0x80]
  {
    hide Encode, EncodeOne;
    EncodeSnoc(cs, c, d);
    var p :| PrevOk(p) && Encode(cs + [c, d]) == Encode(cs + [c]) + EncodeOne(d, Next(c, p));
    OneByte(d, Next(c, p));
  }

  /** So does every Hiragana letter behind another. */
  lemma HiraganaTakesOneByte(cs: seq<CodePoint>, c: CodePoint, d: CodePoint)
    requires IsHiragana(c) && IsHiragana(d)
    ensures Encode(cs + [c, d]) == Encode(cs + [c]) + [0x90 + d - 0x3070]
  {
    hide Encode, EncodeOne;
    EncodeSnoc(cs, c, d);
    var p :| PrevOk(p) && Encode(cs + [c, d]) == Encode(cs + [c]) + EncodeOne(d, Next(c, p));
    OneByte(d, Next(c, p));
  }

  /** A Hangul syllable behind another takes two bytes at most, the middle one a single byte. */
  lemma HangulTakesTwoBytes(cs: seq<CodePoint>, c: CodePoint, d: CodePoint)
    requires IsHangul(c) && IsHangul(d)
    ensures |Encode(cs + [c, d])| <= |Encode(cs + [c])| + 2
    ensures d == 0xC1D1 ==> Encode(cs + [c, d]) == Encode(cs + [c]) + [0x90]
  {
    hide Encode, EncodeOne;
    EncodeSnoc(cs, c, d);
    var p :| PrevOk(p) && Encode(cs + [c, d]) == Encode(cs + [c]) + EncodeOne(d, Next(c, p));
    TwoBytes(d, Next(c, p));
    if d == 0xC1D1 {
      OneByte(d, Next(c, p));
    }
  }

  /** An ideograph behind another takes two bytes at most; the first of the block is the lowest pair of bytes there is. */
  lemma UnihanTakesTwoBytes(cs: seq<CodePoint>, c: CodePoint, d: CodePoint)
    requires IsUnihan(c) && IsUnihan(d)
    ensures |Encode(cs + [c, d])| <= |Encode(cs + [c])| + 2
    ensures d == 0x4E00 ==> Encode(cs + [c, d]) == Encode(cs + [c]) + [0x25, 0x01]
  {
    hide Encode;
    EncodeSnoc(cs, c, d);
    var p :| PrevOk(p) && Encode(cs + [c, d]) == Encode(cs + [c]) + EncodeOne(d, Next(c, p));
    TwoBytes(d, Next(c, p));
    if d == 0x4E00 {
      assert d - Next(c, p) - R_NEG1 == -43 * TC;
      assert LeadPart(-43 * TC, 1) == LeadPart(-43, 0) == -43;
      assert Digits(-43 * TC, 1) == Digits(-43, 0) + [0x01] == [0x01];
    }
  }

  /** A text starts like one in Basic Latin. */
  lemma StartIsBasicLatin(d: CodePoint)
    requires 0x20 < d < 0x80
    ensures Encode([d]) == [0x50 + d]
  {
    EncodeSingle(d, ASCII_PREV);
    OneByte(d, ASCII_PREV);
  }

  // ---- spaces, control codes and the reset byte

  /** A control code is written as itself and what follows it is written as at the start of a text. */
  lemma ControlsStartAnew(cs: seq<CodePoint>, c: CodePoint, ds: seq<CodePoint>)
    requires c < 0x20
    ensures Encode(cs + [c] + ds) == Encode(cs) + [c] + Encode(ds)
  {
    var p := After(cs, ASCII_PREV);
    AfterConcat(cs, [c], ASCII_PREV);
    EncodeSingle(c, p);
    AfterConcat(cs + [c], ds, ASCII_PREV);
  }

  /** A space is written as itself and changes nothing else. */
  lemma SpacesAreNotSeen(cs: seq<CodePoint>, ds: seq<CodePoint>)
    ensures Encode(cs) <= Encode(cs + ds)
    ensures Encode(cs + [0x20] + ds) == Encode(cs) + [0x20] + Encode(cs + ds)[|Encode(cs)|..]
  {
    var p := After(cs, ASCII_PREV);
    AfterConcat(cs, [0x20], ASCII_PREV);
    EncodeSingle(0x20, p);
    AfterConcat(cs + [0x20], ds, ASCII_PREV);
    AfterConcat(cs, ds, ASCII_PREV);
  }

  lemma {:induction false} ReadOn(cs: seq<CodePoint>, prev: int, rest: seq<Byte>, at: nat, ds: seq<int>)
    requires PrevOk(prev)
    requires DecodeFrom(rest, at + |EncodeFrom(cs, prev)|, After(cs, prev)) == Ok(ds)
    ensures DecodeFrom(EncodeFrom(cs, prev) + rest, at, prev) == Ok(cs + ds)
  {
    hide Read, EncodeOne, Next, DecodeFrom;
    if cs == [] {
      assert EncodeFrom(cs, prev) + rest == rest && cs + ds == ds;
    } else {
      var one, more := EncodeOne(cs[0], prev), EncodeFrom(cs[1..], Next(cs[0], prev));
      ReadOn(cs[1..], Next(cs[0], prev), rest, at + |one|, ds);
      DecodeOne(cs[0], prev, more + rest, at);
      assert EncodeFrom(cs, prev) + rest == one + (more + rest);
      assert cs + ds == [cs[0]] + (cs[1..] + ds);
    }
  }

  lemma ResetIsRead(rest: seq<Byte>, at: nat, prev: int)
    ensures DecodeFrom([0xFF] + rest, at, prev) == DecodeFrom(rest, at + 1, ASCII_PREV)
  {
    assert ([0xFF] + rest)[1..] == rest;
  }

  /** Behind the reset byte the reader goes on as at the start: two encodings can be joined with it. */
  lemma ResetJoinsEncodings(cs: seq<CodePoint>, ds: seq<CodePoint>)
    ensures Decode(Encode(cs) + [0xFF] + Encode(ds)) == Ok(cs + ds)
  {
    hide DecodeFrom, EncodeFrom, After;
    var one, two := Encode(cs), Encode(ds);
    AllInverted(ds, |one| + 1, ASCII_PREV);
    ResetIsRead(two, |one|, After(cs, ASCII_PREV));
    ReadOn(cs, ASCII_PREV, [0xFF] + two, 0, ds);
    assert one + [0xFF] + two == one + ([0xFF] + two);
  }
}
