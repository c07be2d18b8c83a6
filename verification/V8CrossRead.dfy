/** Each of the two container tools reads what the other one writes. */
module V8CrossRead {
  import opened Prelude
  import opened Numbers
  import opened V8Chain
  import opened V8Container
  import R = V8Repack
  import T = V8RoundTrip

  // ---- an image of `write15`, read by the repacking tool

  /** What `write15` stored, element by element. */
  function StoredElements(es: seq<Source>, deflateAll: bool, deflate: seq<Byte> -> seq<Byte>): seq<R.Element> {
    if es == [] then []
    else [R.Element(HeaderData(es[0].name), Some(Stored(es[0].body, deflateAll, deflate)))]
         + StoredElements(es[1..], deflateAll, deflate)
  }

  /** The element as it is read: whatever stands at the address of absent data is taken for absent. */
  function Met(e: Source, at: nat, da: nat, deflateAll: bool, deflate: seq<Byte> -> seq<Byte>): R.Element {
    R.Element(if at == END then [] else HeaderData(e.name), if da == END then None else Some(Stored(e.body, deflateAll, deflate)))
  }

  function MetElements(es: seq<Source>, deflateAll: bool, deflate: seq<Byte> -> seq<Byte>, at: nat): seq<R.Element> {
    if es == [] then []
    else
      var da := at + |HeaderBlock(es[0])|;
      [Met(es[0], at, da, deflateAll, deflate)]
      + MetElements(es[1..], deflateAll, deflate, da + |BodyBlock(es[0], deflateAll, deflate)|)
  }

  /** No block of an entry laid out from `at` on begins at the address that means "absent". */
  predicate EndIsFree(es: seq<Source>, deflateAll: bool, deflate: seq<Byte> -> seq<Byte>, at: nat) {
    es != [] ==>
      var da := at + |HeaderBlock(es[0])|;
      at != 0x7FFF_FFFF && da != 0x7FFF_FFFF && EndIsFree(es[1..], deflateAll, deflate, da + |BodyBlock(es[0], deflateAll, deflate)|)
  }

  lemma {:induction false} MetIsStored(es: seq<Source>, deflateAll: bool, deflate: seq<Byte> -> seq<Byte>, at: nat)
    ensures MetElements(es, deflateAll, deflate, at) == StoredElements(es, deflateAll, deflate) <==> EndIsFree(es, deflateAll, deflate, at)
  {
    hide HeaderBlock, BodyBlock, Stored, NameBytes;
    if es != [] {
      var da := at + |HeaderBlock(es[0])|;
      var next := da + |BodyBlock(es[0], deflateAll, deflate)|;
      MetIsStored(es[1..], deflateAll, deflate, next);
      var one, rest := Met(es[0], at, da, deflateAll, deflate), MetElements(es[1..], deflateAll, deflate, next);
      var two, more := R.Element(HeaderData(es[0].name), Some(Stored(es[0].body, deflateAll, deflate))),
                       StoredElements(es[1..], deflateAll, deflate);
      assert |HeaderData(es[0].name)| >= 24;
      assert one == two <==> at != END && da != END;
      SameLists(one, rest, two, more);
    }
  }

  lemma SameLists<T>(x: T, xs: seq<T>, y: T, ys: seq<T>)
    ensures [x] + xs == [y] + ys <==> x == y && xs == ys
  {
    if [x] + xs == [y] + ys {
      assert ([x] + xs)[0] == ([y] + ys)[0] && ([x] + xs)[1..] == ([y] + ys)[1..];
    }
  }

  lemma BlockIsFollowed(raw: seq<Byte>, at: nat, data: seq<Byte>, rest: seq<Byte>, fuel: nat)
    requires |raw| <= U32 && fuel > 0 && Stands(raw, at, BlockText(data, 512) + rest)
    ensures at < U32 && ReadBlock(raw, at, fuel) == Done(if at == END then [] else data)
    ensures Stands(raw, at + |BlockText(data, 512)|, rest)
  {
    hide HeaderText, ReadBlock, Block;
    StandsParts(raw, at, BlockText(data, 512), rest);
    BlockIsRead(raw, at, data, 512, fuel);
    R.AtEnd(raw, fuel);
  }

  /** Both blocks of the first entry are read where they stand, and the next entry begins behind them. */
  lemma FirstIsFollowed(raw: seq<Byte>, es: seq<Source>, at: nat, deflateAll: bool, deflate: seq<Byte> -> seq<Byte>, fuel: nat)
    returns (da: nat, next: nat)
    requires es != [] && fuel > 0 && |raw| <= U32 && Stands(raw, at, Bodies(es, deflateAll, deflate))
    ensures da == at + |HeaderBlock(es[0])| && next == da + |BodyBlock(es[0], deflateAll, deflate)|
    ensures at < U32 && ReadBlock(raw, at, fuel) == Done(Met(es[0], at, da, deflateAll, deflate).header)
    ensures da < U32 && R.ReadData(raw, da, fuel) == Done(Met(es[0], at, da, deflateAll, deflate).data)
    ensures Stands(raw, next, Bodies(es[1..], deflateAll, deflate))
  {
    hide BlockText, ReadBlock, Stored, Bodies, HeaderData;
    T.BodiesCons(es, deflateAll, deflate);
    var x, y := BlockText(HeaderData(es[0].name), 512), BlockText(Stored(es[0].body, deflateAll, deflate), 512);
    da, next := at + |x|, at + |x| + |y|;
    Regroup(x, y, Bodies(es[1..], deflateAll, deflate));
    BlockIsFollowed(raw, at, HeaderData(es[0].name), y + Bodies(es[1..], deflateAll, deflate), fuel);
    BlockIsFollowed(raw, da, Stored(es[0].body, deflateAll, deflate), Bodies(es[1..], deflateAll, deflate), fuel);
  }

  lemma {:induction false} EntriesAreElements(raw: seq<Byte>, es: seq<Source>, toc: seq<Byte>, off: nat, at: nat,
                                              deflateAll: bool, deflate: seq<Byte> -> seq<Byte>, fuel: nat)
    requires fuel > 0 && |raw| <= U32 && Stands(raw, at, Bodies(es, deflateAll, deflate))
    requires off <= |toc| && toc[off..] == Toc(es, deflateAll, deflate, at)
    ensures R.ElementsFrom(raw, toc, off, fuel) == Done(MetElements(es, deflateAll, deflate, at))
    decreases |es|
  {
    hide BlockText, ReadBlock, Stored, HeaderData, TocRow, U32At, Bodies, R.ElementsFrom, R.ReadData, Met;
    if es == [] {
      NoMore(raw, toc, off, fuel);
    } else {
      var da, next := FirstIsFollowed(raw, es, at, deflateAll, deflate, fuel);
      T.TocCons(es, at, deflateAll, deflate);
      T.RowIsRead(toc, off, at, da, Toc(es[1..], deflateAll, deflate, next));
      EntriesAreElements(raw, es[1..], toc, off + 12, next, deflateAll, deflate, fuel);
      R.ElementStep(raw, toc, off, fuel, at, da, Met(es[0], at, da, deflateAll, deflate),
                    MetElements(es[1..], deflateAll, deflate, next));
    }
  }

  lemma NoMore(raw: seq<Byte>, toc: seq<Byte>, off: nat, fuel: nat)
    requires off == |toc|
    ensures R.ElementsFrom(raw, toc, off, fuel) == Done([])
  {
  }

  lemma FourWords(a: seq<Byte>, b: seq<Byte>, c: seq<Byte>, d: seq<Byte>, rest: seq<Byte>)
    requires |a| == |b| == |c| == |d| == 4
    ensures var s := a + b + c + d + rest;
            Slice(s, 4, 8) == b && Slice(s, 8, 12) == c && Slice(s, 12, 16) == d
  {
  }

  lemma MetaOfHeader(version: nat, rest: seq<Byte>)
    requires version < U32
    ensures var img := FileHeader(version) + rest;
            U32At(img, 4) == 512 && U32At(img, 8) == version && U32At(img, 12) == 0
  {
    Le4(512);
    Le4(version);
    Le4(0);
    hide Le, FromLe;
    FourWords(Le(END, 4), Le(512, 4), Le(version, 4), Le(0, 4), rest);
  }

  /**
   * The repacking tool reads an image of `write15` of at most 4 GiB as page size 512, the version given, and every element
   * as stored, header and body in the order given, exactly when none of their blocks begins at 0x7fffffff.
   */
  lemma RepackerReadsWrite15(es: seq<Source>, version: nat, deflateAll: bool, deflate: seq<Byte> -> seq<Byte>, fuel: nat)
    requires fuel > 0 && version < U32 && |Image(es, version, deflateAll, deflate)| <= U32
    ensures R.ReadFile(Image(es, version, deflateAll, deflate), fuel)
            == Done((R.Meta(512, version, 0), StoredElements(es, deflateAll, deflate)))
       <==> EndIsFree(es, deflateAll, deflate, FirstEntry(es))
  {
    hide BlockText, Bodies, Toc, FileHeader, ReadBlock, R.ElementsFrom, EndIsFree;
    var toc := Toc(es, deflateAll, deflate, FirstEntry(es));
    var img := Image(es, version, deflateAll, deflate);
    T.ImageParts(es, version, deflateAll, deflate);
    assert img == FileHeader(version) + (BlockText(toc, 512) + Bodies(es, deflateAll, deflate));
    MetaOfHeader(version, BlockText(toc, 512) + Bodies(es, deflateAll, deflate));
    assert BlockText(toc, 512) + [] == BlockText(toc, 512);
    BlockIsFollowed(img, 16, toc, [], fuel);
    assert toc[0..] == toc;
    EntriesAreElements(img, es, toc, 0, FirstEntry(es), deflateAll, deflate, fuel);
    MetIsStored(es, deflateAll, deflate, FirstEntry(es));
  }

  // ---- a file the repacking tool wrote, listed by `V8`

  /** Names and bodies of elements that have data. */
  function Listed(es: seq<R.Element>, inflate: seq<Byte> -> Option<seq<Byte>>): seq<Entry>
    requires AllPresent(es)
  {
    if es == [] then [] else [(NameOf(es[0].header), BodyOf(es[0].data.value, inflate))] + Listed(es[1..], inflate)
  }

  predicate AllPresent(es: seq<R.Element>) {
    forall k :: 0 <= k < |es| ==> es[k].data.Some?
  }

  lemma BlockIsListed(raw: seq<Byte>, at: nat, data: seq<Byte>, capacity: nat, rest: seq<Byte>, fuel: nat)
    requires |raw| <= U32 && fuel > 0 && capacity < U32 && Stands(raw, at, BlockText(data, capacity) + rest)
    ensures at < U32 && Block(raw, false, at, fuel) == Done(data)
    ensures Stands(raw, at + |BlockText(data, capacity)|, rest)
  {
    hide HeaderText, ReadBlock, Block;
    StandsParts(raw, at, BlockText(data, capacity), rest);
    BlockIsRead(raw, at, data, capacity, fuel);
  }

  lemma {:induction false} ElementsAreListed(v8: V8, es: seq<R.Element>, l: R.Layout, toc: seq<Byte>, off: nat, at: nat,
                                             inflate: seq<Byte> -> Option<seq<Byte>>, fuel: nat)
    requires fuel > 0 && !v8.wide && |v8.raw| <= U32 && l.page < U32 && AllPresent(es)
    requires Stands(v8.raw, at, R.Elements(es, l))
    requires off <= |toc| && toc[off..] == R.Table(es, l, at)
    ensures EntriesFrom(v8, toc, off, inflate, fuel) == Done(Listed(es, inflate))
    decreases |es|
  {
    hide BlockText, Block, EntriesFrom, NameOf, BodyOf, TocRow, U32At, R.Table, Stands;
    if es == [] {
      T.NoEntries(v8, toc, off, inflate, fuel);
      assert toc[off..] == [] by { R.NothingTabled(l, at); }
    } else {
      var e := es[0];
      var h, d, rest := R.HeaderPart(e), R.DataPart(e, l), R.Elements(es[1..], l);
      Regroup(h, d, rest);
      BlockIsSmall(v8.raw, at, e, l, d + rest, rest);
      BlockIsListed(v8.raw, at, e.header, |e.header|, d + rest, fuel);
      BlockIsListed(v8.raw, at + |h|, e.data.value, l.Room(|e.data.value|), rest, fuel);
      R.TableCons(es, l, at);
      T.RowIsRead(toc, off, at, at + |h|, R.Table(es[1..], l, at + |h| + |d|));
      ElementsAreListed(v8, es[1..], l, toc, off + 12, at + |h| + |d|, inflate, fuel);
      T.EntryStep(v8, toc, off, inflate, fuel, at, at + |h|, e.header, e.data.value, Listed(es[1..], inflate));
    }
  }

  lemma BlockIsSmall(raw: seq<Byte>, at: nat, e: R.Element, l: R.Layout, more: seq<Byte>, rest: seq<Byte>)
    requires |raw| <= U32 && l.page < U32 && e.data.Some?
    requires Stands(raw, at, R.HeaderPart(e) + more) && more == R.DataPart(e, l) + rest
    ensures |e.header| < U32 && l.Room(|e.data.value|) < U32
  {
    hide HeaderText;
  }

  /**
   * `V8` lists a file the repacking tool wrote, padded or compact: the name in each header and the data behind it, in
   * order, when every element has data and no 64-bit container is found in the file.
   */
  lemma V8ListsRepacked(meta: R.Meta, es: seq<R.Element>, compact: bool, inflate: seq<Byte> -> Option<seq<Byte>>,
                        primary: bool, fuel: nat)
    requires R.MetaFits(meta) && fuel > 0 && AllPresent(es)
    requires var img := R.Image(meta, es, compact); |img| <= U32 && BaseOf(img, primary) == 0
    ensures ReadAll(R.Image(meta, es, compact), primary, inflate, fuel) == Done(Listed(es, inflate))
  {
    hide BlockText, Block, R.Table, R.Elements, R.FileHead, EntriesFrom, Stands;
    var l := R.Layout(meta.page, compact);
    var at := R.FirstElement(es, l);
    var toc, body := R.Table(es, l, at), R.Elements(es, l);
    var img := R.Image(meta, es, compact);
    var room := l.Room(12 * |es|);
    R.SameLength(toc, Zeros(12 * |es|), room);
    T.ThreeParts(R.FileHead(meta), BlockText(toc, room), body);
    assert img == R.FileHead(meta) + BlockText(toc, room) + body;
    StartsLike15(meta, BlockText(toc, room) + body);
    assert img == R.FileHead(meta) + (BlockText(toc, room) + body);
    T.OpenImage(img, primary);
    assert BlockText(toc, room) + [] == BlockText(toc, room);
    BlockIsListed(img, 16, toc, room, [], fuel);
    assert toc[0..] == toc;
    ElementsAreListed(V8(0, img, false), es, l, toc, 0, at, inflate, fuel);
  }

  lemma StartsLike15(meta: R.Meta, rest: seq<Byte>)
    ensures var img := R.FileHead(meta) + rest; Take(img, 4) == W15 && Take(img, 8) != W16
  {
    T.EndIsW15();
    var img := R.FileHead(meta) + rest;
    assert img[..4] == W15 && img[3] == 0x7F;
    assert Take(img, 8)[3] == img[3];
  }
}
