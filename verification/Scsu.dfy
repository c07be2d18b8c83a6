/** The SCSU reader of `_onecdec/scsu_std.py` (Unicode Technical Standard #6) as a two-mode window machine. */
module Scsu {
  import opened Prelude
  import opened Utf16

  datatype Error =
    | Truncated(at: nat)
    | ReservedTag(tag: Byte, at: nat)
    | ReservedOffset(x: Byte)

  // Initial positions of the eight movable windows, and the fixed ones.
  const DYNAMIC: seq<int> := [0x0080, 0x00C0, 0x0400, 0x0600, 0x0900, 0x3040, 0x30A0, 0xFF00]
  const STATIC: seq<int> := [0x0000, 0x0080, 0x0100, 0x0300, 0x2000, 0x2080, 0x2100, 0x3000]

  datatype Machine = Machine(win: seq<int>, active: int, unicode: bool)

  const START := Machine(DYNAMIC, 0, false)

  function Offset(x: Byte): Result<int, Error> {
    if 0x01 <= x <= 0x67 then Ok(x * 0x80)
    else if 0x68 <= x <= 0xA7 then Ok(x * 0x80 + 0xAC00)
    else if x == 0xF9 then Ok(0x00C0)
    else if x == 0xFA then Ok(0x0250)
    else if x == 0xFB then Ok(0x0370)
    else if x == 0xFC then Ok(0x0530)
    else if x == 0xFD then Ok(0x3040)
    else if x == 0xFE then Ok(0x30A0)
    else if x == 0xFF then Ok(0xFF60)
    else Err(ReservedOffset(x))
  }

  function Unit16(h: Byte, l: Byte): Unit {
    h * 0x100 + l
  }

  /** The window a two-byte SDX/UDX argument selects, and its supplementary position. */
  function Extended(h: Byte, l: Byte): (int, int) {
    (h / 0x20, 0x10000 + ((h % 0x20) * 0x100 + l) * 0x80)
  }

  // ---- what a valid machine looks like

  /** A window lies below or above the surrogates, and within the code points. */
  predicate WindowOk(w: int) {
    (0 <= w && w + 0x7F < 0xD800) || (0xE000 <= w && w + 0x7F <= 0x10FFFF)
  }

  predicate Valid(m: Machine) {
    && |m.win| == 8
    && 0 <= m.active < 8
    && forall k :: 0 <= k < 8 ==> WindowOk(m.win[k])
  }

  // ---- one tag

  datatype Move = Go(m: Machine, emit: seq<int>, used: nat) | Fail(error: Error)

  /** Points window `k` at `x` and makes it the active one, in single-byte mode. */
  function Define(m: Machine, k: int, x: int): Machine
    requires Valid(m) && 0 <= k < 8
  {
    Machine(m.win[k := x], k, false)
  }

  function DefineTag(m: Machine, s: seq<Byte>, at: nat, k: int): Move
    requires Valid(m) && 0 <= k < 8 && s != []
  {
    if |s| < 2 then Fail(Truncated(at + 1))
    else match Offset(s[1])
      case Err(e) => Fail(e)
      case Ok(x) => Go(Define(m, k, x), [], 2)
  }

  function ExtendedTag(m: Machine, s: seq<Byte>, at: nat): Move
    requires Valid(m) && s != []
  {
    if |s| < 3 then Fail(Truncated(at + 1))
    else
      var (k, x) := Extended(s[1], s[2]);
      Go(Define(m, k, x), [], 3)
  }

  function QuoteTag(m: Machine, s: seq<Byte>, at: nat): Move
    requires s != []
  {
    if |s| < 3 then Fail(Truncated(at + 1)) else Go(m, [Unit16(s[1], s[2])], 3)
  }

  function SingleByte(m: Machine, s: seq<Byte>, at: nat): Move
    requires Valid(m) && s != []
  {
    var b := s[0];
    if b >= 0x80 then Go(m, [m.win[m.active] + b - 0x80], 1)
    else if b == 0x00 || b == 0x09 || b == 0x0A || b == 0x0D || b >= 0x20 then Go(m, [b], 1)
    else if 0x01 <= b <= 0x08 then
      if |s| < 2 then Fail(Truncated(at + 1))
      else Go(m, [if s[1] < 0x80 then STATIC[b - 1] + s[1] else m.win[b - 1] + s[1] - 0x80], 2)
    else if 0x10 <= b <= 0x17 then Go(m.(active := b - 0x10), [], 1)
    else if 0x18 <= b <= 0x1F then DefineTag(m, s, at, b - 0x18)
    else if b == 0x0B then ExtendedTag(m, s, at)
    else if b == 0x0E then QuoteTag(m, s, at)
    else if b == 0x0F then Go(m.(unicode := true), [], 1)
    else Fail(ReservedTag(b, at))
  }

  function UnicodeMode(m: Machine, s: seq<Byte>, at: nat): Move
    requires Valid(m) && s != []
  {
    var b := s[0];
    if 0xE0 <= b <= 0xE7 then Go(m.(active := b - 0xE0, unicode := false), [], 1)
    else if 0xE8 <= b <= 0xEF then DefineTag(m, s, at, b - 0xE8)
    else if b == 0xF0 then QuoteTag(m, s, at)
    else if b == 0xF1 then ExtendedTag(m, s, at)
    else if b == 0xF2 then Fail(ReservedTag(b, at))
    else if |s| < 2 then Fail(Truncated(at + 1))
    else Go(m, [Unit16(b, s[1])], 2)
  }

  function Step(m: Machine, s: seq<Byte>, at: nat): (r: Move)
    requires Valid(m) && s != []
    ensures r.Go? ==> 1 <= r.used <= |s| && Valid(r.m)
  {
    OffsetIsWindow(if |s| > 1 then s[1] else 0);
    if m.unicode then UnicodeMode(m, s, at) else SingleByte(m, s, at)
  }

  lemma OffsetIsWindow(x: Byte)
    ensures Offset(x).Ok? ==> WindowOk(Offset(x).value)
  {
  }

  function Prepend(out: seq<int>, r: Result<seq<int>, Error>): Result<seq<int>, Error> {
    match r
    case Ok(us) => Ok(out + us)
    case Err(e) => Err(e)
  }

  /** The units and code points read from `s`, before surrogate pairs are joined. */
  function Units(m: Machine, s: seq<Byte>, at: nat): Result<seq<int>, Error>
    requires Valid(m)
    decreases |s|
  {
    if s == [] then Ok([])
    else match Step(m, s, at)
      case Fail(e) => Err(e)
      case Go(m', emit, used) => Prepend(emit, Units(m', s[used..], at + used))
  }

  function Decode(data: seq<Byte>): Result<seq<int>, Error> {
    match Units(START, data, 0)
    case Err(e) => Err(e)
    case Ok(us) => Ok(Join(us))
  }

  // ---- every accepted input gives code points

  predicate AllCodePoints(us: seq<int>) {
    forall k :: 0 <= k < |us| ==> 0 <= us[k] <= 0x10FFFF
  }

  /** What a step emits is a code point, and a surrogate only where a 16-bit unit is spelled out. */
  lemma StepEmitsCodePoints(m: Machine, s: seq<Byte>, at: nat)
    requires Valid(m) && s != [] && Step(m, s, at).Go?
    ensures AllCodePoints(Step(m, s, at).emit)
    ensures !m.unicode && s[0] != 0x0E ==> forall u :: u in Step(m, s, at).emit ==> IsScalar(u)
  {
  }

  lemma {:induction false} UnitsAreCodePoints(m: Machine, s: seq<Byte>, at: nat)
    requires Valid(m) && Units(m, s, at).Ok?
    ensures AllCodePoints(Units(m, s, at).value)
    decreases |s|
  {
    if s != [] {
      var r := Step(m, s, at);
      StepEmitsCodePoints(m, s, at);
      UnitsAreCodePoints(r.m, s[r.used..], at + r.used);
    }
  }

  lemma DecodeYieldsCodePoints(data: seq<Byte>)
    requires Decode(data).Ok?
    ensures AllCodePoints(Decode(data).value)
  {
    UnitsAreCodePoints(START, data, 0);
    JoinStaysInRange(Units(START, data, 0).value);
  }

  // ---- texts in Unicode mode

  /** A unit whose high byte would be taken for a tag has to be quoted. */
  predicate MustQuote(u: Unit) {
    0xE0 <= u / 0x100 <= 0xF2
  }

  /** A unit as UTF-16BE bytes, behind UQU when asked for or when it needs it. */
  function UnitBytes(u: Unit, quote: bool): (bs: seq<Byte>)
    ensures bs != []
  {
    if quote || MustQuote(u) then [0xF0, u / 0x100, u % 0x100] else [u / 0x100, u % 0x100]
  }

  /** Units from number `n` on; `quote` says of each position whether its unit is quoted. */
  function UnicodeBytes(us: seq<Unit>, quote: nat -> bool, n: nat): seq<Byte> {
    if us == [] then [] else UnitBytes(us[0], quote(n)) + UnicodeBytes(us[1..], quote, n + 1)
  }

  /** SCU, then every unit of the text. */
  function EncodeUnicode(cs: seq<CodePoint>, quote: nat -> bool): seq<Byte> {
    [0x0F] + UnicodeBytes(UnitsOf(cs), quote, 0)
  }

  lemma StepReadsUnit(m: Machine, u: Unit, quote: bool, rest: seq<Byte>, at: nat)
    requires Valid(m) && m.unicode
    ensures Step(m, UnitBytes(u, quote) + rest, at) == Go(m, [u], |UnitBytes(u, quote)|)
  {
  }

  lemma {:induction false} UnitsInvertBytes(m: Machine, us: seq<Unit>, quote: nat -> bool, n: nat, at: nat)
    requires Valid(m) && m.unicode
    ensures Units(m, UnicodeBytes(us, quote, n), at) == Ok(us)
  {
    hide Step, UnitBytes, Valid;
    if us != [] {
      var one, rest := UnitBytes(us[0], quote(n)), UnicodeBytes(us[1..], quote, n + 1);
      UnitsInvertBytes(m, us[1..], quote, n + 1, at + |one|);
      StepReadsUnit(m, us[0], quote(n), rest, at);
      assert (one + rest)[|one|..] == rest;
      assert us == [us[0]] + us[1..];
    }
  }

  lemma UnitsAfterScu(rest: seq<Byte>, us: seq<int>)
    requires Units(START.(unicode := true), rest, 1) == Ok(us)
    ensures Units(START, [0x0F] + rest, 0) == Ok(us)
  {
    assert Step(START, [0x0F] + rest, 0) == Go(START.(unicode := true), [], 1);
    assert ([0x0F] + rest)[1..] == rest && [] + us == us;
  }

  /**
   * A text written in Unicode mode is read back, whichever of its units are quoted, exactly when it holds no
   * high surrogate right before a low one; scalar-value texts never do.
   */
  lemma DecodeInvertsUnicode(cs: seq<CodePoint>, quote: nat -> bool)
    ensures Decode(EncodeUnicode(cs, quote)) == Ok(cs) <==> NoLoosePair(cs)
    ensures (forall k :: 0 <= k < |cs| ==> IsScalar(cs[k])) ==> NoLoosePair(cs)
  {
    UnitsInvertBytes(START.(unicode := true), UnitsOf(cs), quote, 0, 1);
    UnitsAfterScu(UnicodeBytes(UnitsOf(cs), quote, 0), UnitsOf(cs));
    JoinInvertsUnits(cs);
    if forall k :: 0 <= k < |cs| ==> IsScalar(cs[k]) {
      ScalarsHaveNoLoosePair(cs);
    }
  }

  // ---- Latin-1 text is its own encoding

  predicate IsLatin1Text(c: int) {
    c == 0x00 || c == 0x09 || c == 0x0A || c == 0x0D || 0x20 <= c <= 0xFF
  }

  lemma {:induction false} Latin1Units(s: seq<Byte>, at: nat)
    requires forall k :: 0 <= k < |s| ==> IsLatin1Text(s[k])
    ensures Units(START, s, at) == Ok(s) && Join(s) == s
  {
    if s != [] {
      Latin1Units(s[1..], at + 1);
      assert s == [s[0]] + s[1..];
    }
  }

  /** ISO 8859-1 text without control codes is valid SCSU and reads as itself. */
  lemma DecodeKeepsLatin1(s: seq<Byte>)
    requires forall k :: 0 <= k < |s| ==> IsLatin1Text(s[k])
    ensures Decode(s) == Ok(s)
  {
    Latin1Units(s, 0);
  }
}
