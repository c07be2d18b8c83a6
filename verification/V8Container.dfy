/** The V8 container of `_onecdec/v8c.py`: opening an image, listing and reading entries, and the layout `write15` produces. */
module V8Container {
  import opened Prelude
  import opened Numbers
  import opened V8Chain
  import Utf16

  const W15: seq<Byte> := [0xFF, 0xFF, 0xFF, 0x7F]
  const W16: seq<Byte> := [0xFF, 0xFF, 0xFF, 0xFF, 0xFF, 0xFF, 0xFF, 0xFF]

  // ---- opening

  /** `raw` from the container on, and its revision. */
  datatype V8 = V8(base: nat, raw: seq<Byte>, wide: bool)
  {
    function First(): nat {
      if wide then 20 else 16
    }
  }

  /** `raw.find(W16, 0, limit)` */
  function FindMark(raw: seq<Byte>, i: nat, limit: nat): Option<nat>
    decreases |raw| - i
  {
    if i + 8 > |raw| || i + 8 > limit then None
    else if raw[i..i + 8] == W16 then Some(i)
    else FindMark(raw, i + 1, limit)
  }

  /** Where the primary container starts: behind a Format15 preamble when a Format16 header is found soon enough. */
  function BaseOf(raw: seq<Byte>, primary: bool): nat {
    if primary && Take(raw, 8) != W16 then
      match FindMark(raw, 0, 0x10000)
      case Some(i) => if i > 0 && Slice(raw, i + 20, i + 22) == CRLF then i else 0
      case None => 0
    else 0
  }

  function Open(raw: seq<Byte>, primary: bool): Result<V8, Error> {
    var base := BaseOf(raw, primary);
    var body := Slice(raw, base, |raw|);
    if Take(body, 8) == W16 then Ok(V8(base, body, true))
    else if Take(body, 4) == W15 then Ok(V8(base, body, false))
    else Err(NotAContainer)
  }

  // ---- names

  type Name = seq<CodePoint>

  function UnitBytes(us: seq<Utf16.Unit>): seq<Byte> {
    if us == [] then [] else [us[0] % 0x100, us[0] / 0x100] + UnitBytes(us[1..])
  }

  /** UTF-16LE of a name. */
  function NameBytes(name: Name): seq<Byte> {
    UnitBytes(Utf16.UnitsOf(name))
  }

  /** 16-bit units of UTF-16LE text; an odd last byte stands for a replacement character. */
  function BytesUnits(b: seq<Byte>): seq<int> {
    if b == [] then []
    else if |b| == 1 then [0xFFFD]
    else [b[0] + 0x100 * b[1]] + BytesUnits(b[2..])
  }

  /** Surrogates that found no partner are replaced. */
  function Replaced(us: seq<int>): seq<int> {
    if us == [] then []
    else [if Utf16.IsHigh(us[0]) || Utf16.IsLow(us[0]) then 0xFFFD else us[0]] + Replaced(us[1..])
  }

  function StripNul(s: seq<int>): seq<int> {
    if s != [] && s[|s| - 1] == 0 then StripNul(s[..|s| - 1]) else s
  }

  /** The name in an entry header: after two stamps and a word, without trailing NULs. */
  function NameOf(header: seq<Byte>): seq<int> {
    StripNul(Replaced(Utf16.Join(BytesUnits(Slice(header, 20, |header|)))))
  }

  // ---- bodies

  /** DEFLATE as an inverse pair; its output never starts like a container (0xFF would be the reserved block type). */
  ghost predicate IsCodec(deflate: seq<Byte> -> seq<Byte>, inflate: seq<Byte> -> Option<seq<Byte>>) {
    forall b: seq<Byte> :: inflate(deflate(b)) == Some(b) && (deflate(b) == [] || deflate(b)[0] != 0xFF)
  }

  predicate IsContainer(b: seq<Byte>) {
    Take(b, 4) == W15 || Take(b, 8) == W16
  }

  /** `body`: containers as they are, everything else inflated when possible. */
  function BodyOf(blob: seq<Byte>, inflate: seq<Byte> -> Option<seq<Byte>>): seq<Byte> {
    if IsContainer(blob) then blob
    else match inflate(blob) case Some(b) => b case None => blob
  }

  function Stored(body: seq<Byte>, deflateAll: bool, deflate: seq<Byte> -> seq<Byte>): seq<Byte> {
    if deflateAll || !IsContainer(body) then deflate(body) else body
  }

  lemma StoredIsRead(body: seq<Byte>, deflateAll: bool, deflate: seq<Byte> -> seq<Byte>, inflate: seq<Byte> -> Option<seq<Byte>>)
    requires IsCodec(deflate, inflate)
    ensures BodyOf(Stored(body, deflateAll, deflate), inflate) == body
  {
    var d := deflate(body);
    assert inflate(d) == Some(body);
    if d != [] {
      assert d[0] != 0xFF;
      assert Take(d, 4)[0] == d[0] && Take(d, 8)[0] == d[0];
    }
  }

  // ---- listing

  type Entry = (seq<int>, seq<Byte>)

  function U32At(s: seq<Byte>, i: nat): nat {
    FromLe(Slice(s, i, i + 4))
  }

  function U64At(s: seq<Byte>, i: nat): nat {
    FromLe(Slice(s, i, i + 8))
  }

  /** The entries a table of contents lists from offset `off` on, each with its body. */
  function EntriesFrom(v8: V8, toc: seq<Byte>, off: nat, inflate: seq<Byte> -> Option<seq<Byte>>, fuel: nat): Outcome<seq<Entry>>
    decreases |toc| - off
  {
    var step := if v8.wide then 24 else 12;
    if off + step > |toc| then Done([])
    else
      var ha, da := if v8.wide then U64At(toc, off) else U32At(toc, off),
                    if v8.wide then U64At(toc, off + 8) else U32At(toc, off + 4);
      var header :- Block(v8.raw, v8.wide, ha, fuel);
      var blob :- Block(v8.raw, v8.wide, da, fuel);
      var rest :- EntriesFrom(v8, toc, off + step, inflate, fuel);
      Done([(NameOf(header), BodyOf(blob, inflate))] + rest)
  }

  /** Every entry of an opened container, in table order. */
  function Listing(v8: V8, inflate: seq<Byte> -> Option<seq<Byte>>, fuel: nat): Outcome<seq<Entry>> {
    var toc :- Block(v8.raw, v8.wide, v8.First(), fuel);
    EntriesFrom(v8, toc, 0, inflate, fuel)
  }

  /** Opening an image and reading every entry, in table order. */
  function ReadAll(raw: seq<Byte>, primary: bool, inflate: seq<Byte> -> Option<seq<Byte>>, fuel: nat): Outcome<seq<Entry>> {
    match Open(raw, primary)
    case Err(e) => Raised(e)
    case Ok(v8) => Listing(v8, inflate, fuel)
  }

  // ---- the layout of a written container

  datatype Source = Source(name: Name, body: seq<Byte>)

  function HeaderData(name: Name): seq<Byte> {
    Zeros(20) + NameBytes(name) + Zeros(4)
  }

  function HeaderBlock(e: Source): seq<Byte> {
    BlockText(HeaderData(e.name), 512)
  }

  function BodyBlock(e: Source, deflateAll: bool, deflate: seq<Byte> -> seq<Byte>): seq<Byte> {
    BlockText(Stored(e.body, deflateAll, deflate), 512)
  }

  function Bodies(es: seq<Source>, deflateAll: bool, deflate: seq<Byte> -> seq<Byte>): seq<Byte> {
    if es == [] then []
    else HeaderBlock(es[0]) + BodyBlock(es[0], deflateAll, deflate) + Bodies(es[1..], deflateAll, deflate)
  }

  function TocRow(ha: nat, da: nat): seq<Byte> {
    Le(ha, 4) + Le(da, 4) + Le(END, 4)
  }

  /** The table of contents of entries laid out from address `at` on. */
  function Toc(es: seq<Source>, deflateAll: bool, deflate: seq<Byte> -> seq<Byte>, at: nat): (t: seq<Byte>)
    ensures |t| == 12 * |es|
  {
    if es == [] then []
    else
      var da := at + |HeaderBlock(es[0])|;
      TocRow(at, da) + Toc(es[1..], deflateAll, deflate, da + |BodyBlock(es[0], deflateAll, deflate)|)
  }

  function FileHeader(version: nat): seq<Byte> {
    Le(END, 4) + Le(512, 4) + Le(version, 4) + Le(0, 4)
  }

  function FirstEntry(es: seq<Source>): nat {
    16 + |BlockText(Zeros(12 * |es|), 512)|
  }

  /** The image: file header, table of contents, then header and body block of every entry. */
  function Image(es: seq<Source>, version: nat, deflateAll: bool, deflate: seq<Byte> -> seq<Byte>): seq<Byte> {
    FileHeader(version)
    + BlockText(Toc(es, deflateAll, deflate, FirstEntry(es)), 512)
    + Bodies(es, deflateAll, deflate)
  }
}
