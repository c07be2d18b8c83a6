/**
 * What a writer of Unicode Technical Standard #6 may put down, item by item, and that the reader takes exactly that
 * language and reads every text written in it back.
 */
module ScsuWriter {
  import opened Prelude
  import opened Utf16
  import opened Scsu

  // ---- the windows of the standard, by the script blocks they are placed at

  const LATIN_1 := 0x0080
  const LATIN_LETTERS := 0x00C0      // letters of Latin-1 and half of Latin Extended-A
  const LATIN_EXTENDED_A := 0x0100
  const IPA := 0x0250
  const DIACRITICS := 0x0300
  const GREEK := 0x0370
  const CYRILLIC := 0x0400
  const ARMENIAN := 0x0530
  const ARABIC := 0x0600
  const DEVANAGARI := 0x0900
  const PUNCTUATION := 0x2000
  const CURRENCY := 0x2080
  const LETTERLIKE := 0x2100
  const CJK_SYMBOLS := 0x3000
  const HIRAGANA := 0x3040
  const KATAKANA := 0x30A0
  const FULLWIDTH := 0xFF00
  const HALFWIDTH_KATAKANA := 0xFF60

  const STANDARD_START :=
    Machine([LATIN_1, LATIN_LETTERS, CYRILLIC, ARABIC, DEVANAGARI, HIRAGANA, KATAKANA, FULLWIDTH], 0, false)

  function StaticBlock(k: nat): int
    requires k < 8
  {
    match k
    case 0 => 0x0000
    case 1 => LATIN_1
    case 2 => LATIN_EXTENDED_A
    case 3 => DIACRITICS
    case 4 => PUNCTUATION
    case 5 => CURRENCY
    case 6 => LETTERLIKE
    case _ => CJK_SYMBOLS
  }

  /** The byte that places a window at `x`: half-blocks below the ideographs and above the surrogates, and seven scripts. */
  function PlaceByte(x: int): Option<Byte> {
    if 0x0080 <= x < 0x3400 && x % 0x80 == 0 then Some(x / 0x80)
    else if 0xE000 <= x < 0x10000 && x % 0x80 == 0 then Some(0x68 + (x - 0xE000) / 0x80)
    else if x == LATIN_LETTERS then Some(0xF9)
    else if x == IPA then Some(0xFA)
    else if x == GREEK then Some(0xFB)
    else if x == ARMENIAN then Some(0xFC)
    else if x == HIRAGANA then Some(0xFD)
    else if x == KATAKANA then Some(0xFE)
    else if x == HALFWIDTH_KATAKANA then Some(0xFF)
    else None
  }

  // ---- what may be written

  datatype Item =
    | Itself(c: int)                        // a byte of Basic Latin that is no tag
    | InWindow(c: int)                      // a byte of the active window
    | Quoted(k: nat, c: int, fixed: bool)   // SQ0 to SQ7: one character of a static or of a movable window
    | Select(k: nat)                        // SC0 to SC7, or UC0 to UC7
    | Place(k: nat, x: int)                 // SD0 to SD7, or UD0 to UD7
    | PlaceHigh(k: nat, x: int)             // SDX, or UDX: beyond the basic plane
    | Spelled(u: Unit, quoted: bool)        // SQU; in Unicode mode two bytes, behind UQU if wanted or needed
    | Leave                                 // SCU

  predicate InBlock(c: int, start: int) {
    start <= c < start + 0x80
  }

  /** The item may be written in this state. */
  predicate Fits(item: Item, m: Machine)
    requires Valid(m)
  {
    match item
    case Itself(c) => !m.unicode && (c in {0x00, 0x09, 0x0A, 0x0D} || 0x20 <= c < 0x80)
    case InWindow(c) => !m.unicode && InBlock(c, m.win[m.active])
    case Quoted(k, c, fixed) => !m.unicode && k < 8 && InBlock(c, if fixed then StaticBlock(k) else m.win[k])
    case Select(k) => k < 8
    case Place(k, x) => k < 8 && PlaceByte(x).Some?
    case PlaceHigh(k, x) => k < 8 && 0x10000 <= x <= 0x10FF80 && x % 0x80 == 0
    case Spelled(_, quoted) => quoted || m.unicode
    case Leave => !m.unicode
  }

  function Bytes(item: Item, m: Machine): (bs: seq<Byte>)
    requires Valid(m) && Fits(item, m)
    ensures bs != []
  {
    match item
    case Itself(c) => [c]
    case InWindow(c) => [0x80 + (c - m.win[m.active])]
    case Quoted(k, c, fixed) => [0x01 + k, if fixed then c - StaticBlock(k) else 0x80 + (c - m.win[k])]
    case Select(k) => [(if m.unicode then 0xE0 else 0x10) + k]
    case Place(k, x) => [(if m.unicode then 0xE8 else 0x18) + k, PlaceByte(x).value]
    case PlaceHigh(k, x) =>
      var i := (x - 0x10000) / 0x80;
      [if m.unicode then 0xF1 else 0x0B, k * 0x20 + i / 0x100, i % 0x100]
    case Spelled(u, quoted) =>
      if !m.unicode then [0x0E, u / 0x100, u % 0x100] else UnitBytes(u, quoted)
    case Leave => [0x0F]
  }

  /** The state the item leaves. */
  function Then(item: Item, m: Machine): (n: Machine)
    requires Valid(m) && Fits(item, m)
    ensures Valid(n)
  {
    match item
    case Select(k) => Machine(m.win, k, false)
    case Place(k, x) => Machine(m.win[k := x], k, false)
    case PlaceHigh(k, x) => Machine(m.win[k := x], k, false)
    case Leave => Machine(m.win, m.active, true)
    case _ => m
  }

  /** The character or 16-bit unit the item stands for, if any. */
  function Said(item: Item): seq<int> {
    match item
    case Itself(c) => [c]
    case InWindow(c) => [c]
    case Quoted(_, c, _) => [c]
    case Spelled(u, _) => [u]
    case _ => []
  }

  predicate AllFit(items: seq<Item>, m: Machine)
    requires Valid(m)
  {
    items == [] || (Fits(items[0], m) && AllFit(items[1..], Then(items[0], m)))
  }

  function AllBytes(items: seq<Item>, m: Machine): seq<Byte>
    requires Valid(m) && AllFit(items, m)
  {
    if items == [] then [] else Bytes(items[0], m) + AllBytes(items[1..], Then(items[0], m))
  }

  function AllSaid(items: seq<Item>): seq<int> {
    if items == [] then [] else Said(items[0]) + AllSaid(items[1..])
  }

  // ---- one item is one step

  lemma PlaceByteInverts(x: int, b: Byte)
    ensures PlaceByte(x) == Some(b) <==> Offset(b) == Ok(x)
  {
  }

  lemma ItemIsStep(item: Item, m: Machine, rest: seq<Byte>, at: nat)
    requires Valid(m) && Fits(item, m)
    ensures Step(m, Bytes(item, m) + rest, at) == Go(Then(item, m), Said(item), |Bytes(item, m)|)
  {
    if item.Place? {
      PlaceByteInverts(item.x, PlaceByte(item.x).value);
    }
  }

  lemma {:induction false} UnitsInvertItems(items: seq<Item>, m: Machine, at: nat)
    requires Valid(m) && AllFit(items, m)
    ensures Units(m, AllBytes(items, m), at) == Ok(AllSaid(items))
    decreases |items|
  {
    hide Step, Bytes, Valid, Fits, Then, Said;
    if items != [] {
      var one, rest := Bytes(items[0], m), AllBytes(items[1..], Then(items[0], m));
      UnitsInvertItems(items[1..], Then(items[0], m), at + |one|);
      ItemIsStep(items[0], m, rest, at);
      assert (one + rest)[|one|..] == rest;
    }
  }

  /**
   * Whatever the writer chooses, item by item -- which window to use, move or quote, when to change the mode, what to
   * quote, which code points to spell out as surrogates --, the text is read back exactly when it holds no high surrogate
   * right before a low one.
   */
  lemma DecodeInvertsItems(items: seq<Item>, cs: seq<CodePoint>, whole: nat -> bool)
    requires AllFit(items, STANDARD_START) && AllSaid(items) == Spell(cs, whole, 0)
    ensures Decode(AllBytes(items, STANDARD_START)) == Ok(cs) <==> NoLoosePair(cs)
  {
    assert START == STANDARD_START;
    UnitsInvertItems(items, STANDARD_START, 0);
    JoinInvertsSpelling(cs, whole, 0);
  }

  // ---- every step is one item

  function Unextended(h: Byte, l: Byte): Item {
    PlaceHigh(Extended(h, l).0, Extended(h, l).1)
  }

  function SingleByteItem(m: Machine, s: seq<Byte>, at: nat): Item
    requires Valid(m) && !m.unicode && s != [] && Step(m, s, at).Go?
  {
    var b := s[0];
    if b >= 0x80 then InWindow(m.win[m.active] + b - 0x80)
    else if 0x01 <= b <= 0x08 then
      Quoted(b - 1, if s[1] < 0x80 then StaticBlock(b - 1) + s[1] else m.win[b - 1] + s[1] - 0x80, s[1] < 0x80)
    else if 0x10 <= b <= 0x17 then Select(b - 0x10)
    else if 0x18 <= b <= 0x1F then Place(b - 0x18, Offset(s[1]).value)
    else if b == 0x0B then Unextended(s[1], s[2])
    else if b == 0x0E then Spelled(Unit16(s[1], s[2]), true)
    else if b == 0x0F then Leave
    else Itself(b)
  }

  function UnicodeItem(m: Machine, s: seq<Byte>, at: nat): Item
    requires Valid(m) && m.unicode && s != [] && Step(m, s, at).Go?
  {
    var b := s[0];
    if 0xE0 <= b <= 0xE7 then Select(b - 0xE0)
    else if 0xE8 <= b <= 0xEF then Place(b - 0xE8, Offset(s[1]).value)
    else if b == 0xF0 then Spelled(Unit16(s[1], s[2]), true)
    else if b == 0xF1 then Unextended(s[1], s[2])
    else Spelled(Unit16(b, s[1]), false)
  }

  /** Writing the item gives the bytes the step used, and leaves and says what the step does. */
  ghost predicate Explains(item: Item, m: Machine, s: seq<Byte>, r: Move)
    requires Valid(m) && r.Go? && r.used <= |s|
  {
    Fits(item, m) && Bytes(item, m) == s[..r.used] && Then(item, m) == r.m && Said(item) == r.emit
  }

  lemma PlaceExplains(m: Machine, s: seq<Byte>, at: nat, k: nat)
    requires Valid(m) && k < 8 && s != [] && s[0] == (if m.unicode then 0xE8 else 0x18) + k && DefineTag(m, s, at, k).Go?
    ensures Explains(Place(k, Offset(s[1]).value), m, s, DefineTag(m, s, at, k))
  {
    PlaceByteInverts(Offset(s[1]).value, s[1]);
    OffsetIsWindow(s[1]);
  }

  lemma ExtendedExplains(m: Machine, s: seq<Byte>, at: nat)
    requires Valid(m) && s != [] && s[0] == (if m.unicode then 0xF1 else 0x0B) && ExtendedTag(m, s, at).Go?
    ensures Explains(Unextended(s[1], s[2]), m, s, ExtendedTag(m, s, at))
  {
    var h: int, l: int := s[1], s[2];
    var i := (h % 0x20) * 0x100 + l;
    assert i / 0x100 == h % 0x20 && i % 0x100 == l;
    assert Extended(s[1], s[2]) == (h / 0x20, 0x10000 + i * 0x80);
  }

  lemma QuoteExplains(m: Machine, s: seq<Byte>, at: nat)
    requires Valid(m) && s != [] && s[0] == (if m.unicode then 0xF0 else 0x0E) && QuoteTag(m, s, at).Go?
    ensures Explains(Spelled(Unit16(s[1], s[2]), true), m, s, QuoteTag(m, s, at))
  {
    var u := Unit16(s[1], s[2]);
    assert u / 0x100 == s[1] && u % 0x100 == s[2];
  }

  lemma SingleByteExplains(m: Machine, s: seq<Byte>, at: nat)
    requires Valid(m) && !m.unicode && s != [] && Step(m, s, at).Go?
    ensures Explains(SingleByteItem(m, s, at), m, s, Step(m, s, at))
  {
    hide Explains, DefineTag, ExtendedTag, QuoteTag, Offset;
    var b := s[0];
    if 0x18 <= b <= 0x1F {
      PlaceExplains(m, s, at, b - 0x18);
    } else if b == 0x0B {
      ExtendedExplains(m, s, at);
    } else if b == 0x0E {
      QuoteExplains(m, s, at);
    } else {
      ShortExplains(m, s, at);
    }
  }

  lemma ShortExplains(m: Machine, s: seq<Byte>, at: nat)
    requires Valid(m) && !m.unicode && s != [] && Step(m, s, at).Go?
    requires !(0x18 <= s[0] <= 0x1F) && s[0] != 0x0B && s[0] != 0x0E
    ensures Explains(SingleByteItem(m, s, at), m, s, Step(m, s, at))
  {
    hide DefineTag, ExtendedTag, QuoteTag, Offset, PlaceByte;
  }

  lemma UnicodeExplains(m: Machine, s: seq<Byte>, at: nat)
    requires Valid(m) && m.unicode && s != [] && Step(m, s, at).Go?
    ensures Explains(UnicodeItem(m, s, at), m, s, Step(m, s, at))
  {
    hide Explains, DefineTag, ExtendedTag, QuoteTag, Offset;
    var b := s[0];
    if 0xE8 <= b <= 0xEF {
      PlaceExplains(m, s, at, b - 0xE8);
    } else if b == 0xF1 {
      ExtendedExplains(m, s, at);
    } else if b == 0xF0 {
      QuoteExplains(m, s, at);
    } else {
      PairExplains(m, s, at);
    }
  }

  lemma PairExplains(m: Machine, s: seq<Byte>, at: nat)
    requires Valid(m) && m.unicode && s != [] && Step(m, s, at).Go?
    requires !(0xE8 <= s[0] <= 0xEF) && s[0] != 0xF0 && s[0] != 0xF1
    ensures Explains(UnicodeItem(m, s, at), m, s, Step(m, s, at))
  {
    hide DefineTag, ExtendedTag, QuoteTag, Offset, PlaceByte;
    if s[0] < 0xE0 || s[0] > 0xF2 {
      var u := Unit16(s[0], s[1]);
      assert u / 0x100 == s[0] && u % 0x100 == s[1];
    }
  }

  /** Whatever the reader takes was written so: there are items with just these bytes, saying just what was read. */
  lemma {:induction false} AcceptedIsItems(m: Machine, s: seq<Byte>, at: nat) returns (items: seq<Item>)
    requires Valid(m) && Units(m, s, at).Ok?
    ensures AllFit(items, m) && AllBytes(items, m) == s && AllSaid(items) == Units(m, s, at).value
    decreases |s|
  {
    hide Step, Bytes, Valid, Fits, Then, Said, SingleByteItem, UnicodeItem;
    items := [];
    if s != [] {
      var r := Step(m, s, at);
      var item := ItemOf(m, s, at);
      var rest := AcceptedIsItems(r.m, s[r.used..], at + r.used);
      items := [item] + rest;
      assert items[1..] == rest;
      assert s == s[..r.used] + s[r.used..];
    }
  }

  lemma ItemOf(m: Machine, s: seq<Byte>, at: nat) returns (item: Item)
    requires Valid(m) && s != [] && Step(m, s, at).Go?
    ensures var r := Step(m, s, at);
            Fits(item, m) && Bytes(item, m) == s[..r.used] && Then(item, m) == r.m && Said(item) == r.emit
  {
    hide SingleByteItem, UnicodeItem, Step, Fits, Bytes, Then, Said;
    item := if m.unicode then UnicodeItem(m, s, at) else SingleByteItem(m, s, at);
    if m.unicode {
      UnicodeExplains(m, s, at);
    } else {
      SingleByteExplains(m, s, at);
    }
  }

  /** The reader accepts exactly the language of the standard: no reserved tag or offset, nothing cut short. */
  lemma AcceptedIffWritten(s: seq<Byte>)
    ensures Decode(s).Ok? <==> exists items :: AllFit(items, STANDARD_START) && AllBytes(items, STANDARD_START) == s
  {
    assert START == STANDARD_START;
    if Decode(s).Ok? {
      var items := AcceptedIsItems(START, s, 0);
    }
    if exists items :: AllFit(items, STANDARD_START) && AllBytes(items, STANDARD_START) == s {
      var items :| AllFit(items, STANDARD_START) && AllBytes(items, STANDARD_START) == s;
      UnitsInvertItems(items, STANDARD_START, 0);
    }
  }

  // ---- what is refused, and where

  function AfterAll(items: seq<Item>, m: Machine): (n: Machine)
    requires Valid(m) && AllFit(items, m)
    ensures Valid(n)
  {
    if items == [] then m else AfterAll(items[1..], Then(items[0], m))
  }

  /** `s` cannot go on with an item: what comes is cut short, or starts with a tag or a window place there is none of. */
  ghost predicate Refuses(m: Machine, s: seq<Byte>, at: nat, e: Error)
    requires Valid(m) && s != []
  {
    match e
    case Truncated(k) => k == at + 1 && exists item :: Fits(item, m) && s < Bytes(item, m)
    case ReservedTag(tag, k) => k == at && tag == s[0] && forall item :: Fits(item, m) ==> Bytes(item, m)[0] != tag
    case ReservedOffset(x) =>
      && |s| > 1 && s[1] == x && (forall y :: PlaceByte(y) != Some(x))
      && (if m.unicode then 0xE8 <= s[0] <= 0xEF else 0x18 <= s[0] <= 0x1F)
  }

  lemma CutShort(m: Machine, s: seq<Byte>, at: nat)
    requires Valid(m) && s != [] && Step(m, s, at).Fail? && Step(m, s, at).error.Truncated?
    ensures Step(m, s, at).error.at == at + 1
    ensures Step(m, s + [0x01, 0x00], at).Go? && Step(m, s + [0x01, 0x00], at).used > |s|
  {
    var t: seq<Byte> := s + [0x01, 0x00];
    assert t[0] == s[0] && t[1] == (if |s| > 1 then s[1] else 0x01);
  }

  lemma TruncatedIsPrefix(m: Machine, s: seq<Byte>, at: nat) returns (item: Item)
    requires Valid(m) && s != [] && Step(m, s, at).Fail? && Step(m, s, at).error.Truncated?
    ensures Step(m, s, at).error.at == at + 1 && Fits(item, m) && s < Bytes(item, m)
  {
    hide Step, Fits, Bytes, Then, Said;
    CutShort(m, s, at);
    item := ItemOf(m, s + [0x01, 0x00], at);
    assert (s + [0x01, 0x00])[..|s|] == s;
  }

  lemma PrefixIsTruncated(m: Machine, s: seq<Byte>, at: nat, item: Item)
    requires Valid(m) && s != [] && Fits(item, m) && s < Bytes(item, m)
    ensures Step(m, s, at) == Fail(Truncated(at + 1))
  {
    hide Offset, PlaceByte, Extended;
  }

  lemma NoItemStarts(m: Machine, s: seq<Byte>, at: nat, item: Item)
    requires Valid(m) && s != [] && Step(m, s, at).Fail? && Step(m, s, at).error.ReservedTag? && Fits(item, m)
    ensures Step(m, s, at) == Fail(ReservedTag(s[0], at)) && Bytes(item, m)[0] != s[0]
  {
    hide PlaceByte, Extended;
  }

  lemma NoPlace(m: Machine, s: seq<Byte>, at: nat, x: Byte)
    requires Valid(m) && s != []
    ensures Step(m, s, at) == Fail(ReservedOffset(x)) <==> Refuses(m, s, at, ReservedOffset(x))
  {
    forall y ensures PlaceByte(y) == Some(x) <==> Offset(x) == Ok(y) {
      PlaceByteInverts(y, x);
    }
    if Offset(x).Ok? {
      assert PlaceByte(Offset(x).value) == Some(x);
    }
    hide PlaceByte, Offset;
    OffsetFails(x);
  }

  lemma OffsetFails(x: Byte)
    ensures Offset(x).Ok? || Offset(x) == Err(ReservedOffset(x))
  {
  }

  lemma TagFails(m: Machine, s: seq<Byte>, at: nat)
    requires Valid(m) && s != [] && Step(m, s, at).Fail? && Step(m, s, at).error.ReservedTag?
    ensures Step(m, s, at) == Fail(ReservedTag(s[0], at))
  {
    hide Offset, Extended;
    if |s| > 1 {
      OffsetFails(s[1]);
    }
  }

  lemma PlaceStarts(m: Machine, s: seq<Byte>, at: nat) returns (item: Item)
    requires Valid(m) && s != [] && Step(m, s, at).Fail? && Step(m, s, at).error.ReservedOffset?
    ensures Fits(item, m) && Bytes(item, m)[0] == s[0]
  {
    item := Place(s[0] - (if m.unicode then 0xE8 else 0x18), LATIN_1);
  }

  /** No item starts with the byte exactly when the step calls it a reserved tag. */
  lemma TagIsReserved(m: Machine, s: seq<Byte>, at: nat)
    requires Valid(m) && s != [] && forall item :: Fits(item, m) ==> Bytes(item, m)[0] != s[0]
    ensures Step(m, s, at) == Fail(ReservedTag(s[0], at))
  {
    hide Step, Fits, Bytes, Then, Said;
    var r := Step(m, s, at);
    if r.Go? {
      var item := ItemOf(m, s, at);
      assert false;
    } else if r.error.Truncated? {
      var item := TruncatedIsPrefix(m, s, at);
      assert false;
    } else if r.error.ReservedOffset? {
      var item := PlaceStarts(m, s, at);
      assert false;
    } else {
      TagFails(m, s, at);
    }
  }

  lemma FailsAsRefused(m: Machine, s: seq<Byte>, at: nat, e: Error)
    requires Valid(m) && s != []
    ensures Step(m, s, at) == Fail(e) <==> Refuses(m, s, at, e)
  {
    hide Step, Fits, Bytes;
    match e
    case ReservedOffset(x) => NoPlace(m, s, at, x);
    case Truncated(k) =>
      if Step(m, s, at) == Fail(e) {
        var item := TruncatedIsPrefix(m, s, at);
      }
      forall item | Fits(item, m) && s < Bytes(item, m) ensures Step(m, s, at) == Fail(Truncated(at + 1)) {
        PrefixIsTruncated(m, s, at, item);
      }
    case ReservedTag(tag, k) =>
      if Step(m, s, at) == Fail(e) {
        TagFails(m, s, at);
        forall item | Fits(item, m) ensures Bytes(item, m)[0] != tag {
          NoItemStarts(m, s, at, item);
        }
      }
      if Refuses(m, s, at, e) {
        TagIsReserved(m, s, at);
      }
  }

  // ---- along the whole text

  lemma UnitsBehind(m: Machine, one: seq<Byte>, more: seq<Byte>, at: nat, n: Machine, said: seq<int>)
    requires Valid(m) && Valid(n) && one != [] && Step(m, one + more, at) == Go(n, said, |one|)
    ensures Units(m, one + more, at) == Prepend(said, Units(n, more, at + |one|))
  {
    hide Step, Valid;
    assert (one + more)[|one|..] == more;
  }

  lemma {:induction false} UnitsThrough(items: seq<Item>, m: Machine, rest: seq<Byte>, at: nat)
    requires Valid(m) && AllFit(items, m)
    ensures Units(m, AllBytes(items, m) + rest, at)
         == Prepend(AllSaid(items), Units(AfterAll(items, m), rest, at + |AllBytes(items, m)|))
    decreases |items|
  {
    hide Step, Bytes, Valid, Fits, Then, Said, Units, Prepend;
    if items == [] {
      assert AllBytes(items, m) + rest == rest;
      NothingInFront(Units(m, rest, at));
    } else {
      var one, more := Bytes(items[0], m), AllBytes(items[1..], Then(items[0], m));
      UnitsThrough(items[1..], Then(items[0], m), rest, at + |one|);
      ItemIsStep(items[0], m, more + rest, at);
      assert one + more + rest == one + (more + rest);
      UnitsBehind(m, one, more + rest, at, Then(items[0], m), Said(items[0]));
      TwiceInFront(Said(items[0]), AllSaid(items[1..]), Units(AfterAll(items, m), rest, at + |one + more|));
    }
  }

  lemma NothingInFront(r: Result<seq<int>, Error>)
    ensures Prepend([], r) == r
  {
    if r.Ok? { assert [] + r.value == r.value; }
  }

  lemma TwiceInFront(a: seq<int>, b: seq<int>, r: Result<seq<int>, Error>)
    ensures Prepend(a, Prepend(b, r)) == Prepend(a + b, r)
  {
    if r.Ok? { assert a + (b + r.value) == a + b + r.value; }
  }

  /** Where the reader gives up it has read whole items, and cannot go on with another. */
  lemma {:induction false} StuckBehindItems(m: Machine, s: seq<Byte>, at: nat) returns (items: seq<Item>, rest: seq<Byte>)
    requires Valid(m) && Units(m, s, at).Err?
    ensures AllFit(items, m) && s == AllBytes(items, m) + rest && rest != []
    ensures Step(AfterAll(items, m), rest, at + |AllBytes(items, m)|) == Fail(Units(m, s, at).error)
    decreases |s|
  {
    hide Step, Bytes, Valid, Fits, Then, Said;
    var r := Step(m, s, at);
    if r.Fail? {
      items, rest := [], s;
    } else {
      var item := ItemOf(m, s, at);
      var more;
      more, rest := StuckBehindItems(r.m, s[r.used..], at + r.used);
      items := [item] + more;
      assert items[1..] == more;
      assert s == s[..r.used] + s[r.used..];
    }
  }

  /** The bytes are whole items of a text and then something that cannot go on. */
  ghost predicate BreaksOff(s: seq<Byte>, items: seq<Item>, rest: seq<Byte>, e: Error) {
    && AllFit(items, STANDARD_START) && s == AllBytes(items, STANDARD_START) + rest && rest != []
    && Refuses(AfterAll(items, STANDARD_START), rest, |AllBytes(items, STANDARD_START)|, e)
  }

  /** The reader raises exactly what is wrong behind the last whole item, and where. */
  lemma RefusedIff(s: seq<Byte>, e: Error)
    ensures Decode(s) == Err(e) <==> exists items, rest :: BreaksOff(s, items, rest, e)
  {
    hide Refuses, Step, AllBytes;
    assert START == STANDARD_START;
    if Decode(s) == Err(e) {
      var items, rest := StuckBehindItems(START, s, 0);
      FailsAsRefused(AfterAll(items, START), rest, |AllBytes(items, START)|, e);
      assert BreaksOff(s, items, rest, e);
    }
    forall items, rest | BreaksOff(s, items, rest, e) ensures Decode(s) == Err(e) {
      UnitsThrough(items, START, rest, 0);
      FailsAsRefused(AfterAll(items, START), rest, |AllBytes(items, START)|, e);
    }
  }
}
