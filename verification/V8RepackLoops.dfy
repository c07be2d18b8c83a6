/** The loops of `_onecdec/v8container.py`: following a chain, reading a file, writing one and patching its table in. */
module V8RepackLoops {
  import opened Prelude
  import opened Numbers
  import opened V8Chain
  import opened V8Repack
  import V8Container
  import V8Write

  // ---- reading

  /** One block, both of its line breaks checked. */
  method PieceAt(buf: seq<Byte>, addr: int) returns (r: Result<Piece, Error>)
    ensures r == Strict(buf)(addr)
  {
    hide ParseHex, Slice;
    var head := Slice(buf, addr, addr + 31);
    if Slice(head, 0, 2) != CRLF || Slice(head, 29, 31) != CRLF {
      return Err(BadHeader(addr));
    }
    var dataLen, blockLen, nxt := ParseHex(Slice(head, 2, 10)), ParseHex(Slice(head, 11, 19)), ParseHex(Slice(head, 20, 28));
    if dataLen.None? || blockLen.None? || nxt.None? {
      return Err(BadNumber(addr));
    }
    return Ok(Piece(dataLen.value, Slice(buf, addr + 31, addr + 31 + blockLen.value), nxt.value));
  }

  /** The whole data of the chain starting at `start`; `fuel` bounds the chain, which the source leaves open. */
  method FollowChain(buf: seq<Byte>, start: int, ghost fuel: nat) returns (r: Result<seq<Byte>, Error>)
    requires !ReadBlock(buf, start, fuel).OutOfFuel?
    ensures match r
            case Ok(b) => ReadBlock(buf, start, fuel) == Done(b)
            case Err(e) => ReadBlock(buf, start, fuel) == Raised(e)
  {
    hide Strict;
    var out: seq<Byte>, total: Option<int>, addr: int := [], None, start;
    ghost var left := fuel;
    while addr != END
      invariant FullChain(Strict(buf), addr, out, total, left) == ReadBlock(buf, start, fuel)
      decreases left
    {
      var piece := PieceAt(buf, addr);
      if piece.Err? {
        return Err(piece.error);
      }
      if total.None? {
        total := Some(piece.value.doc);
      }
      out := out + piece.value.bytes;
      addr := piece.value.next;
      left := left - 1;
    }
    return Ok(if total.Some? then Take(out, total.value) else out);
  }

  lemma Prepended(r: Outcome<seq<Element>>)
    ensures Prepend([], r) == r
  {
    if r.Done? {
      assert [] + r.value == r.value;
    }
  }

  method ReadElements(buf: seq<Byte>, toc: seq<Byte>, ghost fuel: nat) returns (r: Result<seq<Element>, Error>)
    requires !ElementsFrom(buf, toc, 0, fuel).OutOfFuel?
    ensures match r
            case Ok(es) => ElementsFrom(buf, toc, 0, fuel) == Done(es)
            case Err(e) => ElementsFrom(buf, toc, 0, fuel) == Raised(e)
  {
    hide ReadBlock, V8Container.U32At;
    var elements: seq<Element>, i: nat := [], 0;
    ghost var whole := ElementsFrom(buf, toc, 0, fuel);
    Prepended(whole);
    while i < |toc| - |toc| % 12
      invariant i % 12 == 0 && i <= |toc|
      invariant whole == Prepend(elements, ElementsFrom(buf, toc, i, fuel))
    {
      var h, d := V8Container.U32At(toc, i), V8Container.U32At(toc, i + 4);
      var header := FollowChain(buf, h, fuel);
      if header.Err? {
        return Err(header.error);
      }
      var data: Option<seq<Byte>> := None;
      if d != END {
        var b := FollowChain(buf, d, fuel);
        if b.Err? {
          return Err(b.error);
        }
        data := Some(b.value);
      }
      PrependOne(elements, Element(header.value, data), ElementsFrom(buf, toc, i + 12, fuel));
      elements := elements + [Element(header.value, data)];
      i := i + 12;
    }
    assert elements + [] == elements;
    return Ok(elements);
  }

  method Read(buf: seq<Byte>, ghost fuel: nat) returns (r: Result<(Meta, seq<Element>), Error>)
    requires !ReadFile(buf, fuel).OutOfFuel?
    ensures match r
            case Ok(f) => ReadFile(buf, fuel) == Done(f)
            case Err(e) => ReadFile(buf, fuel) == Raised(e)
  {
    hide ReadBlock, ElementsFrom, V8Container.U32At;
    if |buf| < 16 {
      return Err(ShortRead(0));
    }
    var toc := FollowChain(buf, 16, fuel);
    if toc.Err? {
      return Err(toc.error);
    }
    var elements := ReadElements(buf, toc.value, fuel);
    if elements.Err? {
      return Err(elements.error);
    }
    return Ok((Meta(V8Container.U32At(buf, 4), V8Container.U32At(buf, 8), V8Container.U32At(buf, 12)), elements.value));
  }

  // ---- writing

  /** Every address the table will hold fits 32 bits. */
  predicate AddressesFit(es: seq<Element>, l: Layout, at: nat) {
    if es == [] then true
    else
      var da := at + |HeaderPart(es[0])|;
      && at < U32
      && DataAddress(es[0], da) < U32
      && AddressesFit(es[1..], l, da + |DataPart(es[0], l)|)
  }

  ghost predicate Underway(es: seq<Element>, rest: seq<Element>, out: seq<Byte>, toc: seq<Byte>, start: seq<Byte>, l: Layout) {
    && out + Elements(rest, l) == start + Elements(es, l)
    && toc + Table(rest, l, |out|) == Table(es, l, |start|)
    && (AddressesFit(es, l, |start|) <==> AddressesFit(rest, l, |out|))
  }

  lemma AtStart(es: seq<Element>, start: seq<Byte>, l: Layout)
    ensures Underway(es, es[0..], start, [], start, l)
  {
    assert es[0..] == es;
    assert [] + Table(es, l, |start|) == Table(es, l, |start|);
  }

  lemma OneMore(es: seq<Element>, rest: seq<Element>, out: seq<Byte>, toc: seq<Byte>, start: seq<Byte>, l: Layout)
    requires rest != [] && Underway(es, rest, out, toc, start, l)
    ensures var h, d := HeaderPart(rest[0]), DataPart(rest[0], l);
            var da := DataAddress(rest[0], |out + h|);
            if |out| < U32 && da < U32
            then Underway(es, rest[1..], out + h + d, toc + V8Container.TocRow(|out|, da), start, l)
            else !AddressesFit(es, l, |start|)
  {
    hide BlockText, V8Container.TocRow, HeaderPart, DataPart, DataAddress, Elements, Table, AddressesFit;
    var h, d := HeaderPart(rest[0]), DataPart(rest[0], l);
    var da := DataAddress(rest[0], |out + h|);
    ElementInFront(rest, |out|, l);
    V8Write.Append(out, h, d, Elements(rest[1..], l));
    TableCons(rest, l, |out|);
    Regroup(toc, V8Container.TocRow(|out|, da), Table(rest[1..], l, |out + h + d|));
  }

  lemma ElementInFront(es: seq<Element>, at: nat, l: Layout)
    requires es != []
    ensures var h, d := HeaderPart(es[0]), DataPart(es[0], l);
            && Elements(es, l) == h + d + Elements(es[1..], l)
            && (AddressesFit(es, l, at)
                <==> at < U32 && DataAddress(es[0], at + |h|) < U32 && AddressesFit(es[1..], l, at + |h| + |d|))
  {
    hide HeaderPart, DataPart, DataAddress;
  }

  lemma AtEnd(es: seq<Element>, out: seq<Byte>, toc: seq<Byte>, start: seq<Byte>, l: Layout)
    requires Underway(es, es[|es|..], out, toc, start, l)
    ensures out == start + Elements(es, l)
    ensures toc == Table(es, l, |start|) && |toc| == 12 * |es|
    ensures AddressesFit(es, l, |start|)
  {
    assert es[|es|..] == [];
    assert out + [] == out && toc + [] == toc;
  }

  lemma TableFits(es: seq<Element>, l: Layout)
    requires AddressesFit(es, l, FirstElement(es, l))
    ensures 12 * |es| < U32
  {
  }

  /** The first bytes of a written block: its header and its data. */
  lemma HeadOfBlock(toc: seq<Byte>, capacity: nat)
    requires |toc| < U32 && capacity < U32
    ensures |BlockText(toc, capacity)| >= 31 + |toc|
    ensures BlockText(toc, capacity)[..31 + |toc|]
         == HeaderText(|toc|, if capacity >= |toc| then capacity else |toc|, END) + toc
  {
    hide HeaderText;
    var page := if capacity >= |toc| then capacity else |toc|;
    HeaderIsRead(|toc|, page, END, 0);
    assert BlockText(toc, capacity) == (HeaderText(|toc|, page, END) + toc) + Zeros(page - |toc|);
  }

  /** Fails exactly when a number does not fit 32 bits; otherwise gives the layout `ReadInvertsWrite` is about. */
  method Write(meta: Meta, es: seq<Element>, compact: bool) returns (r: Option<seq<Byte>>)
    ensures var l := Layout(meta.page, compact);
            r == if MetaFits(meta) && AddressesFit(es, l, FirstElement(es, l)) then Some(Image(meta, es, compact)) else None
  {
    hide BlockText, HeaderText, V8Container.TocRow, Elements, Table, HeaderPart, DataPart, DataAddress, AddressesFit, FileHead;
    if !MetaFits(meta) {
      return None;
    }
    ghost var l := Layout(meta.page, compact);
    var out := FileHead(meta);
    var n := 12 * |es|;
    var tocCap := if compact then n else if meta.page >= n then meta.page else n;
    var tocAt := |out|;
    SameBlock(Zeros(n), l, tocCap);
    out := out + BlockText(Zeros(n), tocCap);
    ghost var start := out;
    var toc: seq<Byte> := [];
    AtStart(es, start, l);
    for i := 0 to |es|
      invariant Underway(es, es[i..], out, toc, start, l)
    {
      OneMore(es, es[i..], out, toc, start, l);
      assert es[i..][0] == es[i] && es[i..][1..] == es[i + 1..];
      var h := |out|;
      out := out + HeaderPart(es[i]);
      var d := DataAddress(es[i], |out|);
      out := out + DataPart(es[i], Layout(meta.page, compact));
      if h >= U32 || d >= U32 {
        return None;
      }
      toc := toc + V8Container.TocRow(h, d);
    }
    AtEnd(es, out, toc, start, l);
    TableFits(es, l);
    SameBlock(toc, l, tocCap);
    HeadOfBlock(toc, tocCap);
    V8Write.PatchIsLayout(FileHead(meta), toc, tocCap, Elements(es, l));
    out := out[..tocAt] + BlockText(toc, tocCap)[..31 + |toc|] + out[tocAt + 31 + |toc|..];
    return Some(out);
  }

  /** `block` takes the larger of capacity and length, so giving it that larger number already changes nothing. */
  lemma SameBlock(data: seq<Byte>, l: Layout, capacity: nat)
    requires capacity == if l.compact then |data| else if l.page >= |data| then l.page else |data|
    ensures BlockText(data, capacity) == BlockText(data, l.Room(|data|))
  {
  }
}
