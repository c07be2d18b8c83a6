/**
 * The 64-bit container (Format16) `V8` of `_onecdec/v8c.py` also reads: a layout of it, and its reading back alone or as
 * the primary container behind a Format15 preamble.
 */
module V8Format16 {
  import opened Prelude
  import opened Numbers
  import opened V8Chain
  import opened V8Container
  import opened V8RoundTrip

  // ---- the layout: a header of 20 bytes, blocks with sixteen-digit fields, rows of three 64-bit numbers

  function WideBlock(data: seq<Byte>, capacity: nat): (b: seq<Byte>)
    ensures |b| > |data|
  {
    var page := if capacity >= |data| then capacity else |data|;
    HeaderOf(|data|, page, END64, 16) + (data + Zeros(page - |data|))
  }

  function WideHeader(e: Source, capacity: nat): seq<Byte> {
    WideBlock(HeaderData(e.name), capacity)
  }

  function WideBody(e: Source, capacity: nat, deflateAll: bool, deflate: seq<Byte> -> seq<Byte>): seq<Byte> {
    WideBlock(Stored(e.body, deflateAll, deflate), capacity)
  }

  function WideBodies(es: seq<Source>, capacity: nat, deflateAll: bool, deflate: seq<Byte> -> seq<Byte>): seq<Byte> {
    if es == [] then []
    else WideHeader(es[0], capacity) + WideBody(es[0], capacity, deflateAll, deflate)
         + WideBodies(es[1..], capacity, deflateAll, deflate)
  }

  /** Where the header of an element is, where its body is, and an end mark. */
  function WideRow(header: nat, body: nat): seq<Byte> {
    Le(header, 8) + Le(body, 8) + Le(END64, 8)
  }

  function WideToc(es: seq<Source>, capacity: nat, deflateAll: bool, deflate: seq<Byte> -> seq<Byte>, at: nat): (t: seq<Byte>)
    ensures |t| == 24 * |es|
  {
    if es == [] then []
    else
      var body := at + |WideHeader(es[0], capacity)|;
      WideRow(at, body)
      + WideToc(es[1..], capacity, deflateAll, deflate, body + |WideBody(es[0], capacity, deflateAll, deflate)|)
  }

  type Words = w: seq<Byte> | |w| == 12 witness Zeros(12)

  /** `words` are the page size, the version and the last word of the file header. */
  function Image16(es: seq<Source>, words: Words, capacity: nat, deflateAll: bool, deflate: seq<Byte> -> seq<Byte>): seq<Byte> {
    W16 + words
    + WideBlock(WideToc(es, capacity, deflateAll, deflate, FirstAt(es, capacity)), capacity)
    + WideBodies(es, capacity, deflateAll, deflate)
  }

  function FirstAt(es: seq<Source>, capacity: nat): nat {
    20 + |WideBlock(Zeros(24 * |es|), capacity)|
  }

  // ---- reading it back

  lemma WideBlockIsRead(raw: seq<Byte>, at: nat, data: seq<Byte>, capacity: nat, rest: seq<Byte>, fuel: nat)
    requires |raw| <= U64 && fuel > 0 && Stands(raw, at, WideBlock(data, capacity) + rest)
    ensures at < U64 && Block(raw, true, at, fuel) == Done(data)
    ensures Stands(raw, at + |WideBlock(data, capacity)|, rest)
  {
    hide Block, HeaderOf, BlockStandsAt, Hex, ParseHex;
    var page := if capacity >= |data| then capacity else |data|;
    var body := data + Zeros(page - |data|);
    StandsParts(raw, at, WideBlock(data, capacity), rest);
    assert |body| == page;
    HeaderIsLong(|data|, page);
    assert BlockStandsAt(raw, true, at, |data|, body, END64) by { WideBlockStands(raw, at, data, page); }
    var parts: seq<seq<Byte>> := [body];
    ChainIsRead(raw, true, [at], [|data|], parts, END64, fuel);
    assert parts[1..] == [] && body + [] == body;
    assert Flat(parts) == body;
    assert Take(body, |data|) == data;
  }

  lemma HeaderIsLong(doc: nat, page: nat)
    ensures |HeaderOf(doc, page, END64, 16)| > 0
  {
  }

  lemma WideBlockStands(raw: seq<Byte>, at: nat, data: seq<Byte>, page: nat)
    requires |data| <= page < U64
    requires Stands(raw, at, HeaderOf(|data|, page, END64, 16) + (data + Zeros(page - |data|)))
    ensures BlockStandsAt(raw, true, at, |data|, data + Zeros(page - |data|), END64)
  {
    hide Hex, ParseHex, HeaderOf;
    Hex16(|data|);
    Hex16(page);
    Hex16(END64);
  }

  lemma WideRowIsRead(toc: seq<Byte>, off: nat, header: nat, body: nat, rest: seq<Byte>)
    requires off <= |toc| && toc[off..] == WideRow(header, body) + rest && header < U64 && body < U64
    ensures off + 24 <= |toc| && U64At(toc, off) == header && U64At(toc, off + 8) == body && toc[off + 24..] == rest
  {
    Le8(header);
    Le8(body);
    var row := WideRow(header, body) + rest;
    assert row[..8] == Le(header, 8) && row[8..16] == Le(body, 8) && row[24..] == rest;
    assert Slice(toc, off, off + 8) == toc[off..][..8];
    assert Slice(toc, off + 8, off + 16) == toc[off..][8..16];
    assert toc[off + 24..] == toc[off..][24..];
  }

  lemma WideEntryStep(v8: V8, toc: seq<Byte>, off: nat, inflate: seq<Byte> -> Option<seq<Byte>>, fuel: nat,
                      ha: nat, da: nat, header: seq<Byte>, blob: seq<Byte>, rest: seq<Entry>)
    requires v8.wide && off + 24 <= |toc| && U64At(toc, off) == ha && U64At(toc, off + 8) == da
    requires Block(v8.raw, true, ha, fuel) == Done(header) && Block(v8.raw, true, da, fuel) == Done(blob)
    requires EntriesFrom(v8, toc, off + 24, inflate, fuel) == Done(rest)
    ensures EntriesFrom(v8, toc, off, inflate, fuel) == Done([(NameOf(header), BodyOf(blob, inflate))] + rest)
  {
  }

  /** The blocks of the first element, each read back where it stands, and where the next element begins. */
  lemma FirstElementStands(raw: seq<Byte>, es: seq<Source>, at: nat, capacity: nat, deflateAll: bool,
                           deflate: seq<Byte> -> seq<Byte>, fuel: nat)
    returns (da: nat, next: nat)
    requires es != [] && fuel > 0 && |raw| <= U64 && Stands(raw, at, WideBodies(es, capacity, deflateAll, deflate))
    ensures da == at + |WideHeader(es[0], capacity)| && next == da + |WideBody(es[0], capacity, deflateAll, deflate)|
    ensures at < U64 && Block(raw, true, at, fuel) == Done(HeaderData(es[0].name))
    ensures da < U64 && Block(raw, true, da, fuel) == Done(Stored(es[0].body, deflateAll, deflate))
    ensures Stands(raw, next, WideBodies(es[1..], capacity, deflateAll, deflate))
  {
    hide WideBlock, Block, Stored, HeaderData;
    var header, body := WideHeader(es[0], capacity), WideBody(es[0], capacity, deflateAll, deflate);
    var rest := WideBodies(es[1..], capacity, deflateAll, deflate);
    da, next := at + |header|, at + |header| + |body|;
    Regroup(header, body, rest);
    WideBlockIsRead(raw, at, HeaderData(es[0].name), capacity, body + rest, fuel);
    WideBlockIsRead(raw, da, Stored(es[0].body, deflateAll, deflate), capacity, rest, fuel);
  }

  lemma {:induction false} WideEntriesAreRead(v8: V8, es: seq<Source>, toc: seq<Byte>, off: nat, at: nat, capacity: nat,
                                              deflateAll: bool, deflate: seq<Byte> -> seq<Byte>,
                                              inflate: seq<Byte> -> Option<seq<Byte>>, fuel: nat)
    requires IsCodec(deflate, inflate) && fuel > 0 && v8.wide && |v8.raw| <= U64
    requires forall k :: 0 <= k < |es| ==> IsText(es[k].name)
    requires Stands(v8.raw, at, WideBodies(es, capacity, deflateAll, deflate))
    requires off <= |toc| && toc[off..] == WideToc(es, capacity, deflateAll, deflate, at)
    ensures AreRead(v8, es, toc, off, inflate, fuel)
    decreases |es|
  {
    hide WideBlock, Block, EntriesFrom, NameOf, BodyOf, Stored, HeaderData, WideRow, U64At;
    if es == [] {
      NoEntries(v8, toc, off, inflate, fuel);
    } else {
      var da, next := FirstElementStands(v8.raw, es, at, capacity, deflateAll, deflate, fuel);
      WideRowIsRead(toc, off, at, da, WideToc(es[1..], capacity, deflateAll, deflate, next));
      WideEntriesAreRead(v8, es[1..], toc, off + 24, next, capacity, deflateAll, deflate, inflate, fuel);
      NameIsRead(es[0].name);
      StoredIsRead(es[0].body, deflateAll, deflate, inflate);
      WideEntryStep(v8, toc, off, inflate, fuel, at, da, HeaderData(es[0].name), Stored(es[0].body, deflateAll, deflate),
                    Seen(es[1..]));
    }
  }

  // ---- the image, alone or behind a preamble

  lemma SameWideLength(a: seq<Byte>, b: seq<Byte>, capacity: nat)
    requires |a| == |b|
    ensures |WideBlock(a, capacity)| == |WideBlock(b, capacity)|
  {
  }

  lemma PartsOfImage16(es: seq<Source>, words: Words, capacity: nat, deflateAll: bool, deflate: seq<Byte> -> seq<Byte>)
    ensures var img := Image16(es, words, capacity, deflateAll, deflate);
            && |img| >= 22 && img[..8] == W16 && img[20..22] == CRLF
            && Stands(img, 20, WideBlock(WideToc(es, capacity, deflateAll, deflate, FirstAt(es, capacity)), capacity))
            && Stands(img, FirstAt(es, capacity), WideBodies(es, capacity, deflateAll, deflate))
  {
    hide WideBodies, WideToc, Hex;
    var toc := WideToc(es, capacity, deflateAll, deflate, FirstAt(es, capacity));
    var block, bodies := WideBlock(toc, capacity), WideBodies(es, capacity, deflateAll, deflate);
    SameWideLength(toc, Zeros(24 * |es|), capacity);
    ThreeParts(W16 + words, block, bodies);
    var img := W16 + words + block + bodies;
    StartsWithBreak(toc, capacity);
    assert img[20..22] == block[..2];
  }

  lemma StartsWithBreak(data: seq<Byte>, capacity: nat)
    ensures |WideBlock(data, capacity)| >= 2 && WideBlock(data, capacity)[..2] == CRLF
  {
    hide Hex;
    assert WideBlock(data, capacity)[0] == 0x0D && WideBlock(data, capacity)[1] == 0x0A;
  }

  /** An opened 64-bit container lists exactly its elements. */
  lemma ListingOfImage16(base: nat, es: seq<Source>, words: Words, capacity: nat, deflateAll: bool,
                         deflate: seq<Byte> -> seq<Byte>, inflate: seq<Byte> -> Option<seq<Byte>>, fuel: nat)
    requires IsCodec(deflate, inflate) && fuel > 0 && |Image16(es, words, capacity, deflateAll, deflate)| <= U64
    requires forall k :: 0 <= k < |es| ==> IsText(es[k].name)
    ensures Listing(V8(base, Image16(es, words, capacity, deflateAll, deflate), true), inflate, fuel) == Done(Seen(es))
  {
    hide WideBlock, WideBodies, WideToc, Image16, Block, EntriesFrom, IsCodec, FirstAt;
    var img := Image16(es, words, capacity, deflateAll, deflate);
    var toc := WideToc(es, capacity, deflateAll, deflate, FirstAt(es, capacity));
    PartsOfImage16(es, words, capacity, deflateAll, deflate);
    assert WideBlock(toc, capacity) + [] == WideBlock(toc, capacity);
    WideBlockIsRead(img, 20, toc, capacity, [], fuel);
    assert toc[0..] == toc;
    WideEntriesAreRead(V8(base, img, true), es, toc, 0, FirstAt(es, capacity), capacity, deflateAll, deflate, inflate, fuel);
  }

  predicate MarkAt(raw: seq<Byte>, i: nat) {
    i + 8 <= |raw| && raw[i..i + 8] == W16
  }

  /** The first place where the mark stands, if it stands before the limit. */
  lemma {:induction false} MarkIsFound(raw: seq<Byte>, i: nat, limit: nat, at: nat)
    requires i <= at && MarkAt(raw, at)
    ensures FindMark(raw, i, limit) == Some(at)
       <==> at + 8 <= limit && forall k :: i <= k < at ==> !MarkAt(raw, k)
    decreases at - i
  {
    if i < at {
      MarkIsFound(raw, i + 1, limit, at);
      assert MarkAt(raw, i) <==> raw[i..i + 8] == W16;
    }
  }

  /**
   * A 64-bit image is found behind a preamble, which is not itself one, exactly when the whole mark lies in the first
   * 64 KiB and does not occur before, were it only by running from the preamble into the image. A caller that does not
   * take the file for a primary image gets the preamble.
   */
  lemma BaseIsFound(preamble: seq<Byte>, img: seq<Byte>)
    requires preamble != [] && |img| >= 22 && img[..8] == W16 && img[20..22] == CRLF
    ensures var raw := preamble + img;
            && BaseOf(raw, false) == 0
            && (BaseOf(raw, true) == |preamble|
            <==> |preamble| + 8 <= 0x10000 && forall k :: 0 <= k < |preamble| ==> !MarkAt(raw, k))
  {
    var raw, n := preamble + img, |preamble|;
    assert raw[n..n + 8] == img[..8] && raw[n + 20..n + 22] == img[20..22];
    MarkIsFound(raw, 0, 0x10000, n);
    assert Take(raw, 8) == raw[0..8];
    assert Slice(raw, n + 20, n + 22) == raw[n + 20..n + 22];
  }

  /** Standing alone, the image is read back, whatever the caller takes it for. */
  lemma AloneIsRead(es: seq<Source>, words: Words, capacity: nat, deflateAll: bool, deflate: seq<Byte> -> seq<Byte>,
                    inflate: seq<Byte> -> Option<seq<Byte>>, primary: bool, fuel: nat)
    requires IsCodec(deflate, inflate) && fuel > 0 && |Image16(es, words, capacity, deflateAll, deflate)| <= U64
    requires forall k :: 0 <= k < |es| ==> IsText(es[k].name)
    ensures ReadAll(Image16(es, words, capacity, deflateAll, deflate), primary, inflate, fuel) == Done(Seen(es))
  {
    hide Image16, Listing, WideBlock, WideToc, WideBodies, FirstAt, Stands;
    var img := Image16(es, words, capacity, deflateAll, deflate);
    PartsOfImage16(es, words, capacity, deflateAll, deflate);
    assert Take(img, 8) == img[..8] && Slice(img, 0, |img|) == img;
    ListingOfImage16(0, es, words, capacity, deflateAll, deflate, inflate, fuel);
  }

  /**
   * Behind a preamble for old platforms the 64-bit container is the one that is opened and read, all addresses counted
   * from its own start, under the condition above.
   */
  lemma PrimaryIsRead(preamble: seq<Byte>, es: seq<Source>, words: Words, capacity: nat, deflateAll: bool,
                      deflate: seq<Byte> -> seq<Byte>, inflate: seq<Byte> -> Option<seq<Byte>>, fuel: nat)
    requires IsCodec(deflate, inflate) && fuel > 0 && |Image16(es, words, capacity, deflateAll, deflate)| <= U64
    requires forall k :: 0 <= k < |es| ==> IsText(es[k].name)
    requires preamble != [] && |preamble| + 8 <= 0x10000
    requires var raw := preamble + Image16(es, words, capacity, deflateAll, deflate);
             forall k :: 0 <= k < |preamble| ==> !MarkAt(raw, k)
    ensures var raw := preamble + Image16(es, words, capacity, deflateAll, deflate);
            BaseOf(raw, true) == |preamble| && ReadAll(raw, true, inflate, fuel) == Done(Seen(es))
  {
    hide Image16, Listing, WideBlock, WideToc, WideBodies, FirstAt, Stands, BaseOf;
    var img := Image16(es, words, capacity, deflateAll, deflate);
    var raw := preamble + img;
    PartsOfImage16(es, words, capacity, deflateAll, deflate);
    BaseIsFound(preamble, img);
    assert Slice(raw, |preamble|, |raw|) == img;
    assert Take(img, 8) == img[..8];
    ListingOfImage16(|preamble|, es, words, capacity, deflateAll, deflate, inflate, fuel);
  }
}
