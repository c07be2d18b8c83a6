/** The reading loop of `decode`, and the choice `decode_image` makes between the two readers. */
module TextReader {
  import opened Prelude
  import Utf16
  import Bocu1
  import Scsu
  import ScsuWriter

  /** What one turn of the loop of `decode` leaves: its variables, the units it adds and the next offset. */
  datatype Turn = Turn(win: seq<int>, active: int, unicodeMode: bool, emit: seq<int>, next: nat)

  ghost predicate IsTurn(m: Scsu.Machine, data: seq<Byte>, i: nat, r: Result<Turn, Scsu.Error>)
    requires i < |data| && Scsu.Valid(m)
  {
    match r
    case Ok(t) =>
      i < t.next && Scsu.Step(m, data[i..], i) == Scsu.Go(Scsu.Machine(t.win, t.active, t.unicodeMode), t.emit, t.next - i)
    case Err(e) => Scsu.Step(m, data[i..], i) == Scsu.Fail(e)
  }

  /** A turn in single-byte mode; the tag is at `at`. */
  method SingleByteTurn(data: seq<Byte>, at: nat, win0: seq<int>, active0: int) returns (r: Result<Turn, Scsu.Error>)
    requires at < |data| && Scsu.Valid(Scsu.Machine(win0, active0, false))
    ensures IsTurn(Scsu.Machine(win0, active0, false), data, at, r)
  {
    var win, active, i, n := win0, active0, at + 1, |data|;
    var b: int := data[at];
    if b >= 0x80 {
      return Ok(Turn(win, active, false, [win[active] + b - 0x80], i));
    } else if b in {0x00, 0x09, 0x0A, 0x0D} || b >= 0x20 {
      return Ok(Turn(win, active, false, [b], i));
    } else if 0x01 <= b <= 0x08 {
      if i + 1 > n { return Err(Scsu.Truncated(i)); }
      var c: int, k := data[i], b - 1;
      return Ok(Turn(win, active, false, [if c < 0x80 then Scsu.STATIC[k] + c else win[k] + c - 0x80], i + 1));
    } else if 0x10 <= b <= 0x17 {
      active := b - 0x10;
      return Ok(Turn(win, active, false, [], i));
    } else if 0x18 <= b <= 0x1F {
      if i + 1 > n { return Err(Scsu.Truncated(i)); }
      active := b - 0x18;
      var x := Scsu.Offset(data[i]);
      if x.Err? { return Err(x.error); }
      win := win[active := x.value];
      return Ok(Turn(win, active, false, [], i + 1));
    } else if b == 0x0B {
      if i + 2 > n { return Err(Scsu.Truncated(i)); }
      var h: int, l: int := data[i], data[i + 1];
      active := h / 0x20;
      win := win[active := 0x10000 + ((h % 0x20) * 0x100 + l) * 0x80];
      return Ok(Turn(win, active, false, [], i + 2));
    } else if b == 0x0E {
      if i + 2 > n { return Err(Scsu.Truncated(i)); }
      var h: int, l: int := data[i], data[i + 1];
      return Ok(Turn(win, active, false, [h * 0x100 + l], i + 2));
    } else if b == 0x0F {
      return Ok(Turn(win, active, true, [], i));
    }
    return Err(Scsu.ReservedTag(b, i - 1));
  }

  /** A turn in Unicode mode. */
  method UnicodeTurn(data: seq<Byte>, at: nat, win0: seq<int>, active0: int) returns (r: Result<Turn, Scsu.Error>)
    requires at < |data| && Scsu.Valid(Scsu.Machine(win0, active0, true))
    ensures IsTurn(Scsu.Machine(win0, active0, true), data, at, r)
  {
    var win, active, i, n := win0, active0, at + 1, |data|;
    var b: int := data[at];
    if 0xE0 <= b <= 0xE7 {
      active := b - 0xE0;
      return Ok(Turn(win, active, false, [], i));
    } else if 0xE8 <= b <= 0xEF {
      if i + 1 > n { return Err(Scsu.Truncated(i)); }
      active := b - 0xE8;
      var x := Scsu.Offset(data[i]);
      if x.Err? { return Err(x.error); }
      win := win[active := x.value];
      return Ok(Turn(win, active, false, [], i + 1));
    } else if b == 0xF0 {
      if i + 2 > n { return Err(Scsu.Truncated(i)); }
      var h: int, l: int := data[i], data[i + 1];
      return Ok(Turn(win, active, true, [h * 0x100 + l], i + 2));
    } else if b == 0xF1 {
      if i + 2 > n { return Err(Scsu.Truncated(i)); }
      var h: int, l: int := data[i], data[i + 1];
      active := h / 0x20;
      win := win[active := 0x10000 + ((h % 0x20) * 0x100 + l) * 0x80];
      return Ok(Turn(win, active, false, [], i + 2));
    } else if b == 0xF2 {
      return Err(Scsu.ReservedTag(b, i - 1));
    }
    if i + 1 > n { return Err(Scsu.Truncated(i)); }
    var l: int := data[i];
    return Ok(Turn(win, active, true, [b * 0x100 + l], i + 1));
  }

  /** `decode`: the loop over the bytes with its window list, active window, mode and growing output. */
  method DecodeScsu(data: seq<Byte>) returns (r: Result<seq<int>, Scsu.Error>)
    ensures r == Scsu.Decode(data)
  {
    var win, active, unicodeMode, out := Scsu.DYNAMIC, 0, false, [];
    var i, n := 0, |data|;
    StartEmpty(data);
    while i < n
      invariant i <= n && Scsu.Valid(Scsu.Machine(win, active, unicodeMode))
      invariant Scsu.Units(Scsu.START, data, 0)
             == Scsu.Prepend(out, Scsu.Units(Scsu.Machine(win, active, unicodeMode), data[i..], i))
      decreases n - i
    {
      var turn;
      if !unicodeMode {
        turn := SingleByteTurn(data, i, win, active);
      } else {
        turn := UnicodeTurn(data, i, win, active);
      }
      AppendTurn(data, i, Scsu.Machine(win, active, unicodeMode), out, turn);
      if turn.Err? { return Err(turn.error); }
      win, active, unicodeMode := turn.value.win, turn.value.active, turn.value.unicodeMode;
      out, i := out + turn.value.emit, turn.value.next;
    }
    assert data[i..] == [] && out + [] == out;
    var s := Utf16.JoinUnits(out);
    return Ok(s);
  }

  lemma StartEmpty(data: seq<Byte>)
    ensures Scsu.Units(Scsu.START, data, 0) == Scsu.Prepend([], Scsu.Units(Scsu.START, data[0..], 0))
  {
    assert data[0..] == data;
    var us := Scsu.Units(Scsu.START, data, 0);
    if us.Ok? {
      assert [] + us.value == us.value;
    }
  }

  lemma AppendTurn(data: seq<Byte>, i: nat, m: Scsu.Machine, out: seq<int>, r: Result<Turn, Scsu.Error>)
    requires i < |data| && Scsu.Valid(m) && IsTurn(m, data, i, r)
    ensures match r
            case Err(e) => Scsu.Prepend(out, Scsu.Units(m, data[i..], i)) == Err(e)
            case Ok(t) =>
              var m' := Scsu.Machine(t.win, t.active, t.unicodeMode);
              && i < t.next <= |data| && Scsu.Valid(m')
              && Scsu.Prepend(out, Scsu.Units(m, data[i..], i))
              == Scsu.Prepend(out + t.emit, Scsu.Units(m', data[t.next..], t.next))
  {
    hide Scsu.Step;
    if r.Ok? {
      var t := r.value;
      assert data[i..][t.next - i..] == data[t.next..];
      ScsuWriter.TwiceInFront(out, t.emit, Scsu.Units(Scsu.Machine(t.win, t.active, t.unicodeMode), data[t.next..], t.next));
    }
  }

  // ---- decode_image

  datatype ImageError = FromBocu1(bocu1: Bocu1.Error) | FromScsu(scsu: Scsu.Error)

  const BOCU1_BOM: seq<Byte> := [0xFB, 0xEE, 0x28]

  /** A module image is BOCU-1 when it starts with that code's signature, SCSU otherwise. */
  function DecodeImage(data: seq<Byte>): Result<seq<int>, ImageError> {
    if BOCU1_BOM <= data then
      match Bocu1.Decode(data)
      case Ok(cs) => Ok(cs)
      case Err(e) => Err(FromBocu1(e))
    else
      match Scsu.Decode(data)
      case Ok(cs) => Ok(cs)
      case Err(e) => Err(FromScsu(e))
  }

  lemma BomIsEncodedMark(cs: seq<CodePoint>)
    ensures BOCU1_BOM <= Bocu1.Encode([0xFEFF] + cs)
  {
    var d := 0xFEFF - Bocu1.ASCII_PREV - (Bocu1.R_POS2 + 1);
    assert d == 54702 && d / 243 == 225 && d % 243 == 27 && 225 / 243 == 0;
    assert Bocu1.LeadPart(d, 2) == Bocu1.LeadPart(225, 1) == Bocu1.LeadPart(0, 0) == 0;
    assert Bocu1.Digits(225, 1) == Bocu1.Digits(0, 0) + [0xEE] == [0xEE];
    assert Bocu1.Digits(d, 2) == Bocu1.Digits(225, 1) + [0x28] == [0xEE, 0x28];
    assert Bocu1.EncodeOne(0xFEFF, Bocu1.ASCII_PREV) == BOCU1_BOM;
  }

  /**
   * The signature separates the two codes: an image written in BOCU-1 behind a byte order mark and an
   * image written in SCSU's Unicode mode are both read back by the one entry point.
   */
  lemma ImageReadersAgree(cs: seq<CodePoint>, quote: nat -> bool)
    ensures DecodeImage(Bocu1.Encode([0xFEFF] + cs)) == Ok([0xFEFF] + cs)
    ensures DecodeImage(Scsu.EncodeUnicode(cs, quote)) == Ok(cs) <==> Utf16.NoLoosePair(cs)
  {
    BomIsEncodedMark(cs);
    Bocu1.DecodeInvertsEncode([0xFEFF] + cs);
    Scsu.DecodeInvertsUnicode(cs, quote);
    assert Scsu.EncodeUnicode(cs, quote)[0] == 0x0F;
  }

  lemma {:induction false} SpelledFront(cs: seq<CodePoint>, whole: nat -> bool, n: nat, front: seq<int>)
    requires front <= Utf16.Spell(cs, whole, n) && forall k :: 0 <= k < |front| ==> front[k] < 0xD800
    ensures front <= cs
  {
    if front != [] {
      var one, rest := Utf16.SpellOne(cs[0], whole(n)), Utf16.Spell(cs[1..], whole, n + 1);
      assert (one + rest)[0] == one[0] == front[0];
      assert (one + rest)[1..] == rest;
      SpelledFront(cs[1..], whole, n + 1, front[1..]);
    }
  }

  lemma ThreeInFront(r: Result<seq<int>, Scsu.Error>)
    ensures var all := Scsu.Prepend([0xFB], Scsu.Prepend([0xEE], Scsu.Prepend([0x28], r)));
            all.Ok? ==> [0xFB, 0xEE, 0x28] <= all.value
  {
    if r.Ok? {
      assert [0xFB] + ([0xEE] + ([0x28] + r.value)) == [0xFB, 0xEE, 0x28] + r.value;
    }
  }

  /** Bytes that start like the signature say the three characters it is in Latin-1. */
  lemma SignatureInLatin1(rest: seq<Byte>)
    requires Scsu.Units(Scsu.START, BOCU1_BOM + rest, 0).Ok?
    ensures [0xFB, 0xEE, 0x28] <= Scsu.Units(Scsu.START, BOCU1_BOM + rest, 0).value
  {
    var m := Scsu.START;
    assert BOCU1_BOM + rest == [0xFB] + ([0xEE] + ([0x28] + rest));
    ScsuWriter.UnitsBehind(m, [0xFB], [0xEE] + ([0x28] + rest), 0, m, [0xFB]);
    ScsuWriter.UnitsBehind(m, [0xEE], [0x28] + rest, 1, m, [0xEE]);
    ScsuWriter.UnitsBehind(m, [0x28], rest, 2, m, [0x28]);
    hide Scsu.Units, Scsu.Step, Scsu.Prepend;
    ThreeInFront(Scsu.Units(m, rest, 3));
  }

  /**
   * Any text written in SCSU that does not start with the three characters the signature is in Latin-1 is read back through
   * the entry point exactly when it has no loose pair.
   */
  lemma WrittenImageIsRead(items: seq<ScsuWriter.Item>, cs: seq<CodePoint>, whole: nat -> bool)
    requires ScsuWriter.AllFit(items, ScsuWriter.STANDARD_START) && ScsuWriter.AllSaid(items) == Utf16.Spell(cs, whole, 0)
    requires !([0xFB, 0xEE, 0x28] <= cs)
    ensures DecodeImage(ScsuWriter.AllBytes(items, ScsuWriter.STANDARD_START)) == Ok(cs) <==> Utf16.NoLoosePair(cs)
  {
    hide Scsu.Units, Scsu.Decode, ScsuWriter.AllBytes;
    assert Scsu.START == ScsuWriter.STANDARD_START;
    var s := ScsuWriter.AllBytes(items, ScsuWriter.STANDARD_START);
    ScsuWriter.DecodeInvertsItems(items, cs, whole);
    if BOCU1_BOM <= s {
      ScsuWriter.UnitsInvertItems(items, Scsu.START, 0);
      assert s == BOCU1_BOM + s[3..];
      SignatureInLatin1(s[3..]);
      SpelledFront(cs, whole, 0, [0xFB, 0xEE, 0x28]);
      assert false;
    }
  }

  /** A text that does start so is taken for BOCU-1, and for an empty text behind a byte order mark. */
  lemma SignatureIsTakenForMark()
    ensures Scsu.Decode([0xFB, 0xEE, 0x28]) == Ok([0xFB, 0xEE, 0x28])
    ensures DecodeImage([0xFB, 0xEE, 0x28]) == Ok([0xFEFF])
  {
    Scsu.DecodeKeepsLatin1([0xFB, 0xEE, 0x28]);
    BomIsEncodedMark([]);
    assert [0xFEFF] + [] == [0xFEFF];
    Bocu1.DecodeInvertsEncode([0xFEFF]);
    assert Bocu1.Encode([0xFEFF]) == BOCU1_BOM by { MarkAlone(); }
  }

  lemma MarkAlone()
    ensures Bocu1.Encode([0xFEFF]) == BOCU1_BOM
  {
    assert [0xFEFF][1..] == [];
    BomIsEncodedMark([]);
  }
}
