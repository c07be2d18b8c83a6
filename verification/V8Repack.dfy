/** The repacking tool `_onecdec/v8container.py`: its reader, its padded and compact layouts, and what a rewrite keeps. */
module V8Repack {
  import opened Prelude
  import opened Numbers
  import opened V8Chain
  import V8Container
  import V8RoundTrip

  datatype Meta = Meta(page: nat, version: nat, reserved: nat)

  /** An element header as stored, and the element's data unless it is absent. */
  datatype Element = Element(header: seq<Byte>, data: Option<seq<Byte>>)

  // ---- reading

  /** An address of `END` stands for absent data. */
  function ReadData(raw: seq<Byte>, d: nat, fuel: nat): Outcome<Option<seq<Byte>>> {
    if d == END then Done(None)
    else
      var b :- ReadBlock(raw, d, fuel);
      Done(Some(b))
  }

  function ElementsFrom(raw: seq<Byte>, toc: seq<Byte>, i: nat, fuel: nat): Outcome<seq<Element>>
    decreases |toc| - i
  {
    if i + 12 > |toc| then Done([])
    else
      var header :- ReadBlock(raw, V8Container.U32At(toc, i), fuel);
      var data :- ReadData(raw, V8Container.U32At(toc, i + 4), fuel);
      var rest :- ElementsFrom(raw, toc, i + 12, fuel);
      Done([Element(header, data)] + rest)
  }

  function ReadFile(buf: seq<Byte>, fuel: nat): Outcome<(Meta, seq<Element>)> {
    if |buf| < 16 then Raised(ShortRead(0))
    else
      var toc :- ReadBlock(buf, 16, fuel);
      var es :- ElementsFrom(buf, toc, 0, fuel);
      Done((Meta(V8Container.U32At(buf, 4), V8Container.U32At(buf, 8), V8Container.U32At(buf, 12)), es))
  }

  // ---- the layout

  /** Page size and kind of layout; a block gets a page, or just its own bytes when compact. */
  datatype Layout = Layout(page: nat, compact: bool)
  {
    function Room(n: nat): nat {
      if compact then n else page
    }
  }

  function HeaderPart(e: Element): seq<Byte> {
    BlockText(e.header, |e.header|)
  }

  function DataPart(e: Element, l: Layout): seq<Byte> {
    match e.data
    case None => []
    case Some(b) => BlockText(b, l.Room(|b|))
  }

  function Elements(es: seq<Element>, l: Layout): seq<Byte> {
    if es == [] then [] else HeaderPart(es[0]) + DataPart(es[0], l) + Elements(es[1..], l)
  }

  function DataAddress(e: Element, at: nat): nat {
    if e.data.None? then END else at
  }

  /** The table of contents of elements laid out from address `at` on. */
  function Table(es: seq<Element>, l: Layout, at: nat): (t: seq<Byte>)
    ensures |t| == 12 * |es|
  {
    if es == [] then []
    else
      var da := at + |HeaderPart(es[0])|;
      V8Container.TocRow(at, DataAddress(es[0], da)) + Table(es[1..], l, da + |DataPart(es[0], l)|)
  }

  function FileHead(meta: Meta): (s: seq<Byte>)
    ensures |s| == 16
  {
    Le(END, 4) + Le(meta.page, 4) + Le(meta.version, 4) + Le(meta.reserved, 4)
  }

  function FirstElement(es: seq<Element>, l: Layout): nat {
    16 + |BlockText(Zeros(12 * |es|), l.Room(12 * |es|))|
  }

  function Image(meta: Meta, es: seq<Element>, compact: bool): seq<Byte> {
    var l := Layout(meta.page, compact);
    FileHead(meta) + BlockText(Table(es, l, FirstElement(es, l)), l.Room(12 * |es|)) + Elements(es, l)
  }

  // ---- what the reader makes of it

  /** The element as it is read: whatever stands at address `END` is taken for absent. */
  function Seen(es: seq<Element>, l: Layout, at: nat): seq<Element> {
    if es == [] then []
    else
      var da := at + |HeaderPart(es[0])|;
      [Element(if at == END then [] else es[0].header, if da == END then None else es[0].data)]
      + Seen(es[1..], l, da + |DataPart(es[0], l)|)
  }

  /** Nothing but an empty header is laid out at the address that means "absent". */
  predicate EndIsFree(es: seq<Element>, l: Layout, at: nat) {
    if es == [] then true
    else
      var da := at + |HeaderPart(es[0])|;
      && (at == END ==> es[0].header == [])
      && (da == END ==> es[0].data.None?)
      && EndIsFree(es[1..], l, da + |DataPart(es[0], l)|)
  }

  lemma {:induction false} SeenIsGiven(es: seq<Element>, l: Layout, at: nat)
    ensures Seen(es, l, at) == es <==> EndIsFree(es, l, at)
    decreases |es|
  {
    hide BlockText;
    if es != [] {
      var da := at + |HeaderPart(es[0])|;
      var next := da + |DataPart(es[0], l)|;
      SeenIsGiven(es[1..], l, next);
      assert Seen(es, l, at)[1..] == Seen(es[1..], l, next);
      assert es == [es[0]] + es[1..];
    }
  }

  lemma {:induction false} SmallLayoutsAreFree(es: seq<Element>, l: Layout, at: nat)
    requires at + |Elements(es, l)| <= END
    ensures EndIsFree(es, l, at)
    decreases |es|
  {
    hide BlockText;
    if es != [] {
      BlockIsNotEmpty(es[0].header, |es[0].header|);
      if es[0].data.Some? {
        BlockIsNotEmpty(es[0].data.value, l.Room(|es[0].data.value|));
      }
      SmallLayoutsAreFree(es[1..], l, at + |HeaderPart(es[0])| + |DataPart(es[0], l)|);
    }
  }

  lemma BlockIsNotEmpty(data: seq<Byte>, capacity: nat)
    ensures |BlockText(data, capacity)| >= 31 + |data|
  {
  }

  lemma HeaderPartIsRead(raw: seq<Byte>, at: nat, e: Element, rest: seq<Byte>, fuel: nat)
    requires |raw| <= U32 && fuel > 0 && Stands(raw, at, HeaderPart(e) + rest)
    ensures at < U32 && ReadBlock(raw, at, fuel) == Done(if at == END then [] else e.header)
    ensures Stands(raw, at + |HeaderPart(e)|, rest)
  {
    hide BlockText, FullChain;
    StandsParts(raw, at, HeaderPart(e), rest);
    BlockIsNotEmpty(e.header, |e.header|);
    BlockIsRead(raw, at, e.header, |e.header|, fuel);
    AtEnd(raw, fuel);
  }

  lemma AtEnd(raw: seq<Byte>, fuel: nat)
    ensures ReadBlock(raw, END, fuel) == Done([])
  {
  }

  lemma DataPartIsRead(raw: seq<Byte>, at: nat, e: Element, l: Layout, rest: seq<Byte>, fuel: nat)
    requires |raw| <= U32 && fuel > 0 && l.page < U32 && Stands(raw, at, DataPart(e, l) + rest)
    ensures DataAddress(e, at) < U32
    ensures ReadData(raw, DataAddress(e, at), fuel) == Done(if at == END then None else e.data)
    ensures Stands(raw, at + |DataPart(e, l)|, rest)
  {
    hide BlockText, FullChain, ReadBlock;
    StandsParts(raw, at, DataPart(e, l), rest);
    if e.data.Some? {
      var b := e.data.value;
      BlockIsNotEmpty(b, l.Room(|b|));
      BlockIsRead(raw, at, b, l.Room(|b|), fuel);
    }
  }

  lemma ElementStep(raw: seq<Byte>, toc: seq<Byte>, i: nat, fuel: nat, ha: nat, da: nat, e: Element, rest: seq<Element>)
    requires i + 12 <= |toc| && V8Container.U32At(toc, i) == ha && V8Container.U32At(toc, i + 4) == da
    requires ReadBlock(raw, ha, fuel) == Done(e.header) && ReadData(raw, da, fuel) == Done(e.data)
    requires ElementsFrom(raw, toc, i + 12, fuel) == Done(rest)
    ensures ElementsFrom(raw, toc, i, fuel) == Done([e] + rest)
  {
    hide V8Container.U32At, ReadBlock, ReadData;
  }

  ghost predicate AreRead(raw: seq<Byte>, toc: seq<Byte>, i: nat, fuel: nat, es: seq<Element>, l: Layout, at: nat) {
    ElementsFrom(raw, toc, i, fuel) == Done(Seen(es, l, at))
  }

  lemma NoElements(raw: seq<Byte>, toc: seq<Byte>, fuel: nat, l: Layout, at: nat)
    ensures AreRead(raw, toc, |toc|, fuel, [], l, at)
  {
  }

  lemma NothingTabled(l: Layout, at: nat)
    ensures Table([], l, at) == []
  {
  }

  lemma TableCons(es: seq<Element>, l: Layout, at: nat)
    requires es != []
    ensures var da := at + |HeaderPart(es[0])|;
            Table(es, l, at)
            == V8Container.TocRow(at, DataAddress(es[0], da)) + Table(es[1..], l, da + |DataPart(es[0], l)|)
  {
    hide BlockText, V8Container.TocRow, DataAddress;
  }

  lemma {:induction false} ElementsAreRead(raw: seq<Byte>, toc: seq<Byte>, i: nat, fuel: nat, es: seq<Element>, l: Layout,
                                           at: nat)
    requires |raw| <= U32 && fuel > 0 && l.page < U32
    requires Stands(raw, at, Elements(es, l))
    requires i <= |toc| && toc[i..] == Table(es, l, at)
    ensures AreRead(raw, toc, i, fuel, es, l, at)
    decreases |es|
  {
    hide BlockText, ReadBlock, ReadData, ElementsFrom, V8Container.TocRow, V8Container.U32At, DataAddress;
    hide HeaderPart, DataPart, Table, Stands;
    if es == [] {
      NoElements(raw, toc, fuel, l, at);
    } else {
      var h, d, rest := HeaderPart(es[0]), DataPart(es[0], l), Elements(es[1..], l);
      assert h + d + rest == h + (d + rest);
      HeaderPartIsRead(raw, at, es[0], d + rest, fuel);
      var da := at + |h|;
      DataPartIsRead(raw, da, es[0], l, rest, fuel);
      TableCons(es, l, at);
      V8RoundTrip.RowIsRead(toc, i, at, DataAddress(es[0], da), Table(es[1..], l, da + |d|));
      ElementsAreRead(raw, toc, i + 12, fuel, es[1..], l, da + |d|);
      ElementStep(raw, toc, i, fuel, at, DataAddress(es[0], da),
                  Element(if at == END then [] else es[0].header, if da == END then None else es[0].data),
                  Seen(es[1..], l, da + |d|));
    }
  }

  // ---- the image

  predicate MetaFits(meta: Meta) {
    meta.page < U32 && meta.version < U32 && meta.reserved < U32
  }

  lemma MetaIsRead(meta: Meta, rest: seq<Byte>)
    requires MetaFits(meta)
    ensures var img := FileHead(meta) + rest;
            && V8Container.U32At(img, 4) == meta.page
            && V8Container.U32At(img, 8) == meta.version
            && V8Container.U32At(img, 12) == meta.reserved
  {
    Le4(meta.page);
    Le4(meta.version);
    Le4(meta.reserved);
    var img := FileHead(meta) + rest;
    assert img == Le(END, 4) + Le(meta.page, 4) + Le(meta.version, 4) + Le(meta.reserved, 4) + rest;
    assert img[4..8] == Le(meta.page, 4);
    assert img[8..12] == Le(meta.version, 4);
    assert img[12..16] == Le(meta.reserved, 4);
  }

  lemma SameLength(a: seq<Byte>, b: seq<Byte>, capacity: nat)
    requires |a| == |b|
    ensures |BlockText(a, capacity)| == |BlockText(b, capacity)|
  {
  }

  lemma FileIsRead(img: seq<Byte>, meta: Meta, toc: seq<Byte>, es: seq<Element>, fuel: nat)
    requires |img| >= 16 && ReadBlock(img, 16, fuel) == Done(toc) && ElementsFrom(img, toc, 0, fuel) == Done(es)
    requires V8Container.U32At(img, 4) == meta.page && V8Container.U32At(img, 8) == meta.version
    requires V8Container.U32At(img, 12) == meta.reserved
    ensures ReadFile(img, fuel) == Done((meta, es))
  {
    hide ReadBlock, ElementsFrom, V8Container.U32At;
  }

  lemma TableBlockIsRead(img: seq<Byte>, toc: seq<Byte>, capacity: nat, fuel: nat)
    requires |img| <= U32 && capacity < U32 && fuel > 0 && Stands(img, 16, BlockText(toc, capacity))
    ensures ReadBlock(img, 16, fuel) == Done(toc)
  {
    hide BlockText, ReadBlock;
    BlockIsNotEmpty(toc, capacity);
    BlockIsRead(img, 16, toc, capacity, fuel);
  }

  /**
   * Reading back a written file of at most 4 GiB gives the same page size, version and reserved word, and the same
   * elements, absent data included, in both layouts -- exactly when nothing was laid out at address 0x7fffffff.
   */
  lemma ReadInvertsWrite(meta: Meta, es: seq<Element>, compact: bool, fuel: nat)
    requires MetaFits(meta) && fuel > 0 && |Image(meta, es, compact)| <= U32
    ensures var l := Layout(meta.page, compact);
            var got := ReadFile(Image(meta, es, compact), fuel);
            && got == Done((meta, Seen(es, l, FirstElement(es, l))))
            && (got == Done((meta, es)) <==> EndIsFree(es, l, FirstElement(es, l)))
  {
    hide BlockText, ReadBlock, ReadData, ElementsFrom, V8Container.U32At, HeaderPart, DataPart, Stands;
    hide FileHead, ReadFile, Table, Elements, Seen, EndIsFree;
    var l := Layout(meta.page, compact);
    var at := FirstElement(es, l);
    var toc, body := Table(es, l, at), Elements(es, l);
    var img := Image(meta, es, compact);
    SameLength(toc, Zeros(12 * |es|), l.Room(12 * |es|));
    V8RoundTrip.ThreeParts(FileHead(meta), BlockText(toc, l.Room(12 * |es|)), body);
    assert img == FileHead(meta) + (BlockText(toc, l.Room(12 * |es|)) + body);
    MetaIsRead(meta, BlockText(toc, l.Room(12 * |es|)) + body);
    BlockIsNotEmpty(toc, l.Room(12 * |es|));
    TableBlockIsRead(img, toc, l.Room(12 * |es|), fuel);
    assert toc[0..] == toc;
    ElementsAreRead(img, toc, 0, fuel, es, l, at);
    FileIsRead(img, meta, toc, Seen(es, l, at), fuel);
    SeenIsGiven(es, l, at);
  }

  /** Below 0x7fffffff bytes nothing stands at the reserved address, so reading inverts writing. */
  lemma SmallFilesAreRead(meta: Meta, es: seq<Element>, compact: bool, fuel: nat)
    requires MetaFits(meta) && fuel > 0 && |Image(meta, es, compact)| <= END
    ensures ReadFile(Image(meta, es, compact), fuel) == Done((meta, es))
  {
    hide BlockText, ReadFile, Elements, EndIsFree, Seen;
    var l := Layout(meta.page, compact);
    SameLength(Table(es, l, FirstElement(es, l)), Zeros(12 * |es|), l.Room(12 * |es|));
    SmallLayoutsAreFree(es, l, FirstElement(es, l));
    ReadInvertsWrite(meta, es, compact, fuel);
  }

  /** A block with just its own bytes is not longer than one with a page. */
  lemma OwnRoomIsLess(data: seq<Byte>, page: nat)
    requires page < U32
    ensures |BlockText(data, |data|)| <= |BlockText(data, page)|
  {
    if |data| < page {
      Hex8(|data|);
      Hex8(page);
    }
  }

  lemma {:induction false} CompactElementsAreShorter(es: seq<Element>, page: nat)
    requires page < U32
    ensures |Elements(es, Layout(page, true))| <= |Elements(es, Layout(page, false))|
    decreases |es|
  {
    hide HeaderPart, BlockText;
    if es != [] {
      CompactElementsAreShorter(es[1..], page);
      if es[0].data.Some? {
        OwnRoomIsLess(es[0].data.value, page);
      }
    }
  }

  lemma CompactIsShorter(meta: Meta, es: seq<Element>)
    requires MetaFits(meta)
    ensures |Image(meta, es, true)| <= |Image(meta, es, false)|
  {
    hide BlockText, Table, Elements;
    var l, c := Layout(meta.page, false), Layout(meta.page, true);
    var zeros, toc, cut := Zeros(12 * |es|), Table(es, l, FirstElement(es, l)), Table(es, c, FirstElement(es, c));
    SameLength(toc, zeros, l.Room(12 * |es|));
    SameLength(cut, zeros, c.Room(12 * |es|));
    OwnRoomIsLess(zeros, meta.page);
    CompactElementsAreShorter(es, meta.page);
  }

  /**
   * Compacting a padded file of at most 4 GiB changes what is read exactly when one layout has something at 0x7fffffff
   * that the other has not; so a layout that is read right is read the same in the other if and only if that one is.
   */
  lemma CompactingKeepsElements(meta: Meta, es: seq<Element>, fuel: nat)
    requires MetaFits(meta) && fuel > 0 && |Image(meta, es, false)| <= U32
    ensures var l, c := Layout(meta.page, false), Layout(meta.page, true);
            var same := ReadFile(Image(meta, es, false), fuel) == ReadFile(Image(meta, es, true), fuel);
            && (same <==> Seen(es, l, FirstElement(es, l)) == Seen(es, c, FirstElement(es, c)))
            && (EndIsFree(es, l, FirstElement(es, l)) ==> (same <==> EndIsFree(es, c, FirstElement(es, c))))
            && (EndIsFree(es, c, FirstElement(es, c)) ==> (same <==> EndIsFree(es, l, FirstElement(es, l))))
  {
    hide ReadFile, Image, Seen, EndIsFree, FirstElement;
    CompactIsShorter(meta, es);
    ReadInvertsWrite(meta, es, false, fuel);
    ReadInvertsWrite(meta, es, true, fuel);
  }

  /** A writable file of two gigabytes whose one element has its empty data laid out at 0x7fffffff: it is read as absent. */
  lemma DataAtEndIsLost(version: nat, fuel: nat)
    requires version < U32 && fuel > 0
    ensures var meta := Meta(512, version, 0);
            var es := [Element(Zeros(END - 90), Some([]))];
            && |Image(meta, es, true)| <= U32
            && ReadFile(Image(meta, es, true), fuel) == Done((meta, [Element(Zeros(END - 90), None)]))
  {
    hide BlockText, ReadFile, Hex;
    var meta, l := Meta(512, version, 0), Layout(512, true);
    var e := Element(Zeros(END - 90), Some([]));
    OwnBlock(e.header);
    OwnBlock([]);
    OwnBlock(Zeros(12));
    OwnBlock(Table([e], l, 59));
    assert [e][1..] == [];
    assert FirstElement([e], l) == 59 && 59 + |HeaderPart(e)| == END;
    assert Seen([e], l, 59) == [Element(e.header, None)];
    assert Elements([e], l) == HeaderPart(e) + DataPart(e, l) + Elements([], l);
    assert |Image(meta, [e], true)| == 59 + |HeaderPart(e)| + 31;
    ReadInvertsWrite(meta, [e], true, fuel);
  }

  lemma OwnBlock(data: seq<Byte>)
    requires |data| < U32
    ensures |BlockText(data, |data|)| == 31 + |data|
  {
    hide HeaderText;
    HeaderIsRead(|data|, |data|, END, 0);
  }
}
