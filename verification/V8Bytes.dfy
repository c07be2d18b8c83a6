/** The bytes the two container writers put down, where no reader of theirs looks. */
module V8Bytes {
  import opened Prelude
  import opened Numbers
  import opened V8Chain
  import opened V8Container
  import R = V8Repack
  import T = V8RoundTrip
  import Utf16

  /** ASCII text as bytes. */
  function Ascii(s: string): seq<Byte>
    requires forall k :: 0 <= k < |s| ==> s[k] < '\U{80}'
  {
    seq(|s|, k requires 0 <= k < |s| => s[k] as int)
  }

  // ---- numbers and headers

  /** Hexadecimal fields are written in lower case. */
  lemma {:induction false} HexIsLower(n: nat, width: nat)
    ensures forall b :: b in Hex(n, width) ==> 0x30 <= b <= 0x39 || 0x61 <= b <= 0x66
    decreases n, width
  {
    if n > 0 || width > 0 {
      HexIsLower(n / 16, if width > 0 then width - 1 else 0);
    }
  }

  lemma HexParts(n: nat, width: nat)
    requires width > 0
    ensures Hex(n, width) == Hex(n / 16, width - 1) + [HexDigit(n % 16)]
  {
  }

  lemma {:induction false} HexZeros(width: nat)
    ensures Hex(0, width) == seq(width, _ => 0x30)
    decreases width
  {
    if width > 0 {
      HexZeros(width - 1);
      HexParts(0, width);
    }
  }

  lemma HexOfPage()
    ensures Hex(512, 8) == [0x30, 0x30, 0x30, 0x30, 0x30, 0x32, 0x30, 0x30]
  {
    hide Hex;
    HexZeros(5);
    HexParts(2, 6);
    HexParts(32, 7);
    HexParts(512, 8);
  }

  lemma HexOfEnd()
    ensures Hex(END, 8) == [0x37, 0x66, 0x66, 0x66, 0x66, 0x66, 0x66, 0x66]
  {
    hide Hex;
    HexZeros(0);
    HexParts(7, 1);
    HexParts(0x7F, 2);
    HexParts(0x7FF, 3);
    HexParts(0x7FFF, 4);
    HexParts(0x7FFFF, 5);
    HexParts(0x7FFFFF, 6);
    HexParts(0x7FFFFFF, 7);
    HexParts(0x7FFFFFFF, 8);
  }

  /** The header of an empty block of one page, character by character. */
  lemma EmptyHeader()
    ensures HeaderText(0, 512, END) == Ascii("\r\n00000000 00000200 7fffffff \r\n")
  {
    hide Hex;
    HexZeros(8);
    HexOfPage();
    HexOfEnd();
  }

  // ---- blocks, rows and images

  /** A block: its header, its data, and zeros up to the capacity. */
  lemma BlockShape(data: seq<Byte>, capacity: nat)
    requires |data| < U32 && capacity < U32
    ensures var b := BlockText(data, capacity);
            var page := if capacity >= |data| then capacity else |data|;
            && |b| == 31 + page && b[31..31 + |data|] == data && forall k :: 31 + |data| <= k < |b| ==> b[k] == 0
  {
    hide HeaderText;
    HeaderIsRead(|data|, if capacity >= |data| then capacity else |data|, END, 0);
  }

  /** A row of the table: two addresses and the end mark. */
  lemma RowShape(header: nat, data: nat)
    ensures TocRow(header, data)[..4] == Le(header, 4) && TocRow(header, data)[4..8] == Le(data, 4)
    ensures TocRow(header, data)[8..] == [0xFF, 0xFF, 0xFF, 0x7F]
  {
    T.EndIsW15();
  }

  /** The image of no entries at all, byte by byte: the file header and one empty page. */
  lemma EmptyImage(deflateAll: bool, deflate: seq<Byte> -> seq<Byte>)
    ensures Image([], 0, deflateAll, deflate)
         == [0xFF, 0xFF, 0xFF, 0x7F, 0, 2, 0, 0, 0, 0, 0, 0, 0, 0, 0, 0]
            + Ascii("\r\n00000000 00000200 7fffffff \r\n") + seq(512, _ => 0)
  {
    hide Hex, HeaderText;
    EmptyHeader();
    T.EndIsW15();
    LittlePage();
    assert FileHeader(0) == [0xFF, 0xFF, 0xFF, 0x7F, 0, 2, 0, 0, 0, 0, 0, 0, 0, 0, 0, 0];
    assert Zeros(0) == [];
    assert BlockText([], 512) == HeaderText(0, 512, END) + seq(512, _ => 0);
  }

  lemma LittlePage()
    ensures Le(512, 4) == [0, 2, 0, 0] && Le(0, 4) == [0, 0, 0, 0]
  {
    assert Le(512, 4) == [0] + Le(2, 3) && Le(2, 3) == [2] + Le(0, 2) && Le(0, 2) == [0] + Le(0, 1);
    assert Le(0, 1) == [0] + Le(0, 0) && Le(0, 4) == [0] + Le(0, 3) && Le(0, 3) == [0] + Le(0, 2);
  }

  // ---- how much room each layout takes

  /** What `n` bytes take in a block of at least a page. */
  function Paged(n: nat, page: nat): nat {
    31 + if n >= page then n else page
  }

  lemma BlockSize(data: seq<Byte>, capacity: nat)
    requires |data| < U32 && capacity < U32
    ensures |BlockText(data, capacity)| == Paged(|data|, capacity)
  {
    BlockShape(data, capacity);
  }

  /** The elements of the repacking tool: headers never padded, data padded to a page or not at all. */
  function ElementsSize(es: seq<R.Element>, page: nat, compact: bool): nat {
    if es == [] then 0
    else
      31 + |es[0].header|
      + (if es[0].data.None? then 0 else if compact then 31 + |es[0].data.value| else Paged(|es[0].data.value|, page))
      + ElementsSize(es[1..], page, compact)
  }

  lemma {:induction false} ElementsTake(es: seq<R.Element>, page: nat, compact: bool)
    requires page < U32 && |R.Elements(es, R.Layout(page, compact))| <= U32
    ensures |R.Elements(es, R.Layout(page, compact))| == ElementsSize(es, page, compact)
  {
    hide BlockText;
    if es != [] {
      ElementsTake(es[1..], page, compact);
      BlockSize(es[0].header, |es[0].header|);
      if es[0].data.Some? {
        BlockSize(es[0].data.value, R.Layout(page, compact).Room(|es[0].data.value|));
      }
    }
  }

  /** A compact file holds no padding at all; a padded one a page at least for the table and for the data of each element. */
  lemma RepackedSize(meta: R.Meta, es: seq<R.Element>, compact: bool)
    requires R.MetaFits(meta) && |R.Image(meta, es, compact)| <= U32
    ensures |R.Image(meta, es, compact)|
         == 16 + (if compact then 31 + 12 * |es| else Paged(12 * |es|, meta.page)) + ElementsSize(es, meta.page, compact)
  {
    hide BlockText, R.Elements;
    var l := R.Layout(meta.page, compact);
    ElementsTake(es, meta.page, compact);
    BlockSize(R.Table(es, l, R.FirstElement(es, l)), l.Room(12 * |es|));
  }

  /** `write15` pads everything to 512 bytes. */
  function EntriesSize(es: seq<Source>, deflateAll: bool, deflate: seq<Byte> -> seq<Byte>): nat {
    if es == [] then 0
    else
      Paged(|HeaderData(es[0].name)|, 512) + Paged(|Stored(es[0].body, deflateAll, deflate)|, 512)
      + EntriesSize(es[1..], deflateAll, deflate)
  }

  lemma {:induction false} WrittenSize(es: seq<Source>, deflateAll: bool, deflate: seq<Byte> -> seq<Byte>)
    requires |Bodies(es, deflateAll, deflate)| <= U32
    ensures |Bodies(es, deflateAll, deflate)| == EntriesSize(es, deflateAll, deflate)
  {
    hide BlockText, HeaderData, Stored;
    if es != [] {
      T.BodiesCons(es, deflateAll, deflate);
      WrittenSize(es[1..], deflateAll, deflate);
      BlockSize(HeaderData(es[0].name), 512);
      BlockSize(Stored(es[0].body, deflateAll, deflate), 512);
    }
  }

  // ---- bodies that are containers, and element headers

  /** What starts like a container of either width is stored and returned as it is. */
  lemma ContainersAreKept(b: seq<Byte>, deflate: seq<Byte> -> seq<Byte>, inflate: seq<Byte> -> Option<seq<Byte>>)
    requires [0xFF, 0xFF, 0xFF, 0x7F] <= b || [0xFF, 0xFF, 0xFF, 0xFF, 0xFF, 0xFF, 0xFF, 0xFF] <= b
    ensures Stored(b, false, deflate) == b && BodyOf(b, inflate) == b
  {
  }

  /** `name_of` of the repacking tool: what stands between the stamps and the last four bytes. */
  function NameIn(header: seq<Byte>): seq<int> {
    Utf16.Join(BytesUnits(Slice(header, 20, |header| - 4)))
  }

  /** It finds the exact name in a header `write15` made, trailing NULs included; zeroing the stamps changes nothing there. */
  lemma NameIsFound(name: Name)
    requires T.IsText(name)
    ensures NameIn(HeaderData(name)) == name
    ensures Zeros(20) + HeaderData(name)[20..] == HeaderData(name)
  {
    var h := HeaderData(name);
    assert Slice(h, 20, |h| - 4) == NameBytes(name) + [];
    T.UnitBytesAreRead(Utf16.UnitsOf(name), []);
    assert Utf16.UnitsOf(name) + BytesUnits([]) == Utf16.UnitsOf(name);
    Utf16.ScalarsHaveNoLoosePair(name);
    Utf16.JoinInvertsUnits(name);
  }
}
