/** What `write15` lays out is what opening and reading the image gives back. */
module V8RoundTrip {
  import opened Prelude
  import opened Numbers
  import opened V8Chain
  import opened V8Container
  import Utf16

  // ---- names

  predicate IsText(name: Name) {
    forall k :: 0 <= k < |name| ==> Utf16.IsScalar(name[k])
  }

  lemma OneUnitIsRead(lo: Byte, hi: Byte, rest: seq<Byte>)
    ensures BytesUnits([lo, hi] + rest) == [lo + 0x100 * hi] + BytesUnits(rest)
  {
    assert ([lo, hi] + rest)[2..] == rest;
  }

  lemma {:induction false} UnitBytesAreRead(us: seq<Utf16.Unit>, rest: seq<Byte>)
    ensures BytesUnits(UnitBytes(us) + rest) == us + BytesUnits(rest)
  {
    if us == [] {
      assert UnitBytes(us) + rest == rest;
    } else {
      var tail := UnitBytes(us[1..]) + rest;
      UnitBytesAreRead(us[1..], rest);
      assert UnitBytes(us) + rest == [us[0] % 0x100, us[0] / 0x100] + tail;
      OneUnitIsRead(us[0] % 0x100, us[0] / 0x100, tail);
      assert us + BytesUnits(rest) == [us[0]] + (us[1..] + BytesUnits(rest));
    }
  }

  lemma UnitsCons(c: CodePoint, cs: seq<CodePoint>)
    ensures Utf16.UnitsOf([c] + cs) == Utf16.UnitsOfOne(c) + Utf16.UnitsOf(cs)
  {
    assert ([c] + cs)[1..] == cs;
  }

  lemma {:induction false} UnitsConcat(a: seq<CodePoint>, b: seq<CodePoint>)
    ensures Utf16.UnitsOf(a + b) == Utf16.UnitsOf(a) + Utf16.UnitsOf(b)
  {
    hide Utf16.UnitsOfOne;
    if a == [] {
      assert a + b == b;
    } else {
      var one, rest := Utf16.UnitsOfOne(a[0]), Utf16.UnitsOf(a[1..]);
      UnitsConcat(a[1..], b);
      UnitsCons(a[0], a[1..] + b);
      assert a + b == [a[0]] + (a[1..] + b);
      assert one + (rest + Utf16.UnitsOf(b)) == one + rest + Utf16.UnitsOf(b);
    }
  }

  lemma {:induction false} TextIsNotReplaced(s: seq<CodePoint>)
    requires IsText(s)
    ensures Replaced(s) == s
  {
    if s != [] {
      TextIsNotReplaced(s[1..]);
      assert s == [s[0]] + s[1..];
    }
  }

  lemma {:induction false} StripNulAfter(s: seq<int>, n: nat)
    ensures StripNul(s + seq(n, _ => 0)) == StripNul(s)
  {
    var z := s + seq(n, _ => 0);
    if n == 0 {
      assert z == s;
    } else {
      StripNulAfter(s, n - 1);
      assert z[..|z| - 1] == s + seq(n - 1, _ => 0);
    }
  }

  lemma TwoNuls()
    ensures BytesUnits(Zeros(4)) == [0, 0] && Utf16.UnitsOf([0, 0]) == [0, 0]
  {
    OneUnitIsRead(0, 0, [0, 0]);
    OneUnitIsRead(0, 0, []);
    assert Zeros(4) == [0, 0] + [0, 0] && [0, 0] == [0, 0] + [];
    UnitsCons(0, [0]);
    UnitsCons(0, []);
    assert [0, 0] == [0] + [0] && [0] == [0] + [];
  }

  lemma PaddedNameIsRead(name: Name)
    requires IsText(name)
    ensures Replaced(Utf16.Join(BytesUnits(NameBytes(name) + Zeros(4)))) == name + [0, 0]
  {
    var padded: Name := name + [0, 0];
    UnitBytesAreRead(Utf16.UnitsOf(name), Zeros(4));
    TwoNuls();
    UnitsConcat(name, [0, 0]);
    Utf16.ScalarsHaveNoLoosePair(padded);
    Utf16.JoinInvertsUnits(padded);
    TextIsNotReplaced(padded);
  }

  /** The name of a written header is the name, less its trailing NULs. */
  lemma NameIsRead(name: Name)
    requires IsText(name)
    ensures NameOf(HeaderData(name)) == StripNul(name)
  {
    assert Slice(HeaderData(name), 20, |HeaderData(name)|) == NameBytes(name) + Zeros(4);
    PaddedNameIsRead(name);
    StripNulAfter(name, 2);
    assert name + seq(2, _ => 0) == name + [0, 0];
  }

  lemma {:induction false} StripNulShrinks(s: seq<int>)
    ensures |StripNul(s)| <= |s|
    ensures StripNul(s) == s <==> s == [] || s[|s| - 1] != 0
  {
    if s != [] && s[|s| - 1] == 0 {
      StripNulShrinks(s[..|s| - 1]);
    }
  }

  // ---- entries

  function Seen(es: seq<Source>): seq<Entry> {
    if es == [] then [] else [(StripNul(es[0].name), es[0].body)] + Seen(es[1..])
  }

  function Given(es: seq<Source>): seq<Entry> {
    if es == [] then [] else [(es[0].name, es[0].body)] + Given(es[1..])
  }

  lemma {:induction false} SeenIsGiven(es: seq<Source>)
    ensures Seen(es) == Given(es) <==>
            forall k :: 0 <= k < |es| ==> es[k].name == [] || es[k].name[|es[k].name| - 1] != 0
  {
    if es != [] {
      SeenIsGiven(es[1..]);
      StripNulShrinks(es[0].name);
      assert Seen(es)[1..] == Seen(es[1..]) && Given(es)[1..] == Given(es[1..]);
      assert forall k :: 1 <= k < |es| ==> es[k] == es[1..][k - 1];
    }
  }

  lemma RowIsRead(toc: seq<Byte>, off: nat, ha: nat, da: nat, rest: seq<Byte>)
    requires off <= |toc| && toc[off..] == TocRow(ha, da) + rest && ha < U32 && da < U32
    ensures off + 12 <= |toc| && U32At(toc, off) == ha && U32At(toc, off + 4) == da && toc[off + 12..] == rest
  {
    Le4(ha);
    Le4(da);
    var row := TocRow(ha, da) + rest;
    assert row[..4] == Le(ha, 4) && row[4..8] == Le(da, 4) && row[12..] == rest;
    assert Slice(toc, off, off + 4) == toc[off..][..4];
    assert Slice(toc, off + 4, off + 8) == toc[off..][4..8];
    assert toc[off + 12..] == toc[off..][12..];
  }

  lemma BlockStands(raw: seq<Byte>, at: nat, data: seq<Byte>, rest: seq<Byte>, fuel: nat)
    requires |raw| <= U32 && fuel > 0 && Stands(raw, at, BlockText(data, 512) + rest)
    ensures Block(raw, false, at, fuel) == Done(data) && at < U32
    ensures Stands(raw, at + |BlockText(data, 512)|, rest)
  {
    hide HeaderText, Block;
    StandsParts(raw, at, BlockText(data, 512), rest);
    BlockIsRead(raw, at, data, 512, fuel);
  }

  lemma EntryStep(v8: V8, toc: seq<Byte>, off: nat, inflate: seq<Byte> -> Option<seq<Byte>>, fuel: nat,
                  ha: nat, da: nat, header: seq<Byte>, blob: seq<Byte>, rest: seq<Entry>)
    requires !v8.wide && off + 12 <= |toc| && U32At(toc, off) == ha && U32At(toc, off + 4) == da
    requires Block(v8.raw, false, ha, fuel) == Done(header) && Block(v8.raw, false, da, fuel) == Done(blob)
    requires EntriesFrom(v8, toc, off + 12, inflate, fuel) == Done(rest)
    ensures EntriesFrom(v8, toc, off, inflate, fuel) == Done([(NameOf(header), BodyOf(blob, inflate))] + rest)
  {
  }

  lemma TwoBlocksStand(raw: seq<Byte>, at: nat, first: seq<Byte>, second: seq<Byte>, rest: seq<Byte>, fuel: nat)
    requires |raw| <= U32 && fuel > 0 && Stands(raw, at, BlockText(first, 512) + BlockText(second, 512) + rest)
    ensures var da := at + |BlockText(first, 512)|;
            && at < U32 && Block(raw, false, at, fuel) == Done(first)
            && da < U32 && Block(raw, false, da, fuel) == Done(second)
            && Stands(raw, da + |BlockText(second, 512)|, rest)
  {
    hide BlockText, Block;
    var x, y := BlockText(first, 512), BlockText(second, 512);
    assert x + y + rest == x + (y + rest);
    BlockStands(raw, at, first, y + rest, fuel);
    BlockStands(raw, at + |x|, second, rest, fuel);
  }

  lemma BodiesCons(es: seq<Source>, deflateAll: bool, deflate: seq<Byte> -> seq<Byte>)
    requires es != []
    ensures Bodies(es, deflateAll, deflate)
         == BlockText(HeaderData(es[0].name), 512) + BlockText(Stored(es[0].body, deflateAll, deflate), 512)
            + Bodies(es[1..], deflateAll, deflate)
  {
    hide BlockText;
  }

  lemma TocCons(es: seq<Source>, at: nat, deflateAll: bool, deflate: seq<Byte> -> seq<Byte>)
    requires es != []
    ensures var da := at + |HeaderBlock(es[0])|;
            Toc(es, deflateAll, deflate, at)
            == TocRow(at, da) + Toc(es[1..], deflateAll, deflate, da + |BodyBlock(es[0], deflateAll, deflate)|)
  {
    hide BlockText, TocRow;
  }

  /** Where the blocks of the first entry stand, and where the next entry begins. */
  lemma FirstEntryStands(raw: seq<Byte>, es: seq<Source>, at: nat, deflateAll: bool, deflate: seq<Byte> -> seq<Byte>, fuel: nat)
    returns (da: nat, next: nat)
    requires es != [] && fuel > 0 && |raw| <= U32 && Stands(raw, at, Bodies(es, deflateAll, deflate))
    ensures da == at + |HeaderBlock(es[0])| && next == da + |BodyBlock(es[0], deflateAll, deflate)|
    ensures at < U32 && Block(raw, false, at, fuel) == Done(HeaderData(es[0].name))
    ensures da < U32 && Block(raw, false, da, fuel) == Done(Stored(es[0].body, deflateAll, deflate))
    ensures Stands(raw, next, Bodies(es[1..], deflateAll, deflate))
  {
    hide BlockText, Block, Stored, Bodies;
    BodiesCons(es, deflateAll, deflate);
    da := at + |HeaderBlock(es[0])|;
    next := da + |BodyBlock(es[0], deflateAll, deflate)|;
    TwoBlocksStand(raw, at, HeaderData(es[0].name), Stored(es[0].body, deflateAll, deflate),
                   Bodies(es[1..], deflateAll, deflate), fuel);
  }

  ghost predicate AreRead(v8: V8, es: seq<Source>, toc: seq<Byte>, off: nat, inflate: seq<Byte> -> Option<seq<Byte>>, fuel: nat) {
    EntriesFrom(v8, toc, off, inflate, fuel) == Done(Seen(es))
  }

  lemma NoEntries(v8: V8, toc: seq<Byte>, off: nat, inflate: seq<Byte> -> Option<seq<Byte>>, fuel: nat)
    requires off == |toc|
    ensures EntriesFrom(v8, toc, off, inflate, fuel) == Done([])
  {
  }

  lemma {:induction false} EntriesAreRead(v8: V8, es: seq<Source>, toc: seq<Byte>, off: nat, at: nat, deflateAll: bool,
                                          deflate: seq<Byte> -> seq<Byte>, inflate: seq<Byte> -> Option<seq<Byte>>, fuel: nat)
    requires IsCodec(deflate, inflate) && fuel > 0 && !v8.wide && |v8.raw| <= U32
    requires forall k :: 0 <= k < |es| ==> IsText(es[k].name)
    requires Stands(v8.raw, at, Bodies(es, deflateAll, deflate))
    requires off <= |toc| && toc[off..] == Toc(es, deflateAll, deflate, at)
    ensures AreRead(v8, es, toc, off, inflate, fuel)
    decreases |es|
  {
    hide BlockText, Block, EntriesFrom, NameOf, BodyOf, Stored, HeaderData, TocRow, U32At;
    if es == [] {
      NoEntries(v8, toc, off, inflate, fuel);
    } else {
      var da, next := FirstEntryStands(v8.raw, es, at, deflateAll, deflate, fuel);
      TocCons(es, at, deflateAll, deflate);
      RowIsRead(toc, off, at, da, Toc(es[1..], deflateAll, deflate, next));
      EntriesAreRead(v8, es[1..], toc, off + 12, next, deflateAll, deflate, inflate, fuel);
      NameIsRead(es[0].name);
      StoredIsRead(es[0].body, deflateAll, deflate, inflate);
      EntryStep(v8, toc, off, inflate, fuel, at, da, HeaderData(es[0].name), Stored(es[0].body, deflateAll, deflate),
                Seen(es[1..]));
    }
  }

  // ---- the image

  lemma EndIsW15()
    ensures Le(END, 4) == W15
  {
    assert Le(END, 4) == [0xFF] + Le(0x7FFFFF, 3);
    assert Le(0x7FFFFF, 3) == [0xFF] + Le(0x7FFF, 2);
    assert Le(0x7FFF, 2) == [0xFF] + Le(0x7F, 1);
    assert Le(0x7F, 1) == [0x7F] + Le(0, 0);
  }

  lemma FileHeaderIsW15(version: nat, rest: seq<Byte>)
    ensures |FileHeader(version)| == 16
    ensures Take(FileHeader(version) + rest, 4) == W15 && Take(FileHeader(version) + rest, 8) != W16
  {
    EndIsW15();
    var img := FileHeader(version) + rest;
    assert img[..4] == W15 && img[3] == 0x7F;
    assert Take(img, 8)[3] == img[3];
  }

  lemma SameBlockLength(a: seq<Byte>, b: seq<Byte>)
    requires |a| == |b|
    ensures |BlockText(a, 512)| == |BlockText(b, 512)|
  {
  }

  lemma ThreeParts(f: seq<Byte>, t: seq<Byte>, b: seq<Byte>)
    ensures Stands(f + t + b, |f|, t) && Stands(f + t + b, |f| + |t|, b)
  {
    var img := f + t + b;
    assert img == f + (t + b);
    assert Stands(img, 0, f + (t + b));
    StandsParts(img, 0, f, t + b);
    StandsParts(img, |f|, t, b);
  }

  lemma PartsOfImage(version: nat, t: seq<Byte>, b: seq<Byte>)
    ensures var img := FileHeader(version) + t + b;
            && Stands(img, 16, t) && Stands(img, 16 + |t|, b)
            && Take(img, 4) == W15 && Take(img, 8) != W16
  {
    hide FileHeader;
    FileHeaderIsW15(version, t + b);
    ThreeParts(FileHeader(version), t, b);
    assert FileHeader(version) + t + b == FileHeader(version) + (t + b);
  }

  lemma ImageParts(es: seq<Source>, version: nat, deflateAll: bool, deflate: seq<Byte> -> seq<Byte>)
    ensures var img := Image(es, version, deflateAll, deflate);
            && Stands(img, 16, BlockText(Toc(es, deflateAll, deflate, FirstEntry(es)), 512))
            && Stands(img, FirstEntry(es), Bodies(es, deflateAll, deflate))
            && Take(img, 4) == W15 && Take(img, 8) != W16
  {
    hide BlockText, Bodies, FileHeader, Toc;
    var toc := Toc(es, deflateAll, deflate, FirstEntry(es));
    SameBlockLength(toc, Zeros(12 * |es|));
    PartsOfImage(version, BlockText(toc, 512), Bodies(es, deflateAll, deflate));
  }

  lemma TocOfImage(es: seq<Source>, version: nat, deflateAll: bool, deflate: seq<Byte> -> seq<Byte>, fuel: nat)
    requires fuel > 0 && |Image(es, version, deflateAll, deflate)| <= U32
    ensures Block(Image(es, version, deflateAll, deflate), false, 16, fuel)
         == Done(Toc(es, deflateAll, deflate, FirstEntry(es)))
  {
    ImageParts(es, version, deflateAll, deflate);
    BlockIsRead(Image(es, version, deflateAll, deflate), 16, Toc(es, deflateAll, deflate, FirstEntry(es)), 512, fuel);
  }

  lemma OpenImage(img: seq<Byte>, primary: bool)
    requires Take(img, 4) == W15 && Take(img, 8) != W16 && BaseOf(img, primary) == 0
    ensures Open(img, primary) == Ok(V8(0, img, false))
  {
    assert Slice(img, 0, |img|) == img;
  }

  /**
   * The round trip: an image below 4 GiB, opened as written, gives exactly the entries, in order, with their
   * names less trailing NULs; so names and bodies come back unchanged exactly when no name ends in NUL.
   */
  lemma ReadInvertsWrite(es: seq<Source>, version: nat, deflateAll: bool, deflate: seq<Byte> -> seq<Byte>,
                         inflate: seq<Byte> -> Option<seq<Byte>>, primary: bool, fuel: nat)
    requires IsCodec(deflate, inflate) && fuel > 0
    requires forall k :: 0 <= k < |es| ==> IsText(es[k].name)
    requires var img := Image(es, version, deflateAll, deflate); |img| <= U32 && BaseOf(img, primary) == 0
    ensures var got := ReadAll(Image(es, version, deflateAll, deflate), primary, inflate, fuel);
            && got == Done(Seen(es))
            && (got == Done(Given(es)) <==>
                forall k :: 0 <= k < |es| ==> es[k].name == [] || es[k].name[|es[k].name| - 1] != 0)
  {
    var img := Image(es, version, deflateAll, deflate);
    var toc := Toc(es, deflateAll, deflate, FirstEntry(es));
    ImageParts(es, version, deflateAll, deflate);
    OpenImage(img, primary);
    TocOfImage(es, version, deflateAll, deflate, fuel);
    assert toc[0..] == toc;
    EntriesAreRead(V8(0, img, false), es, toc, 0, FirstEntry(es), deflateAll, deflate, inflate, fuel);
    SeenIsGiven(es);
  }
}
