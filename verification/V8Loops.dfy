/** The loops of `_onecdec/v8c.py`: following a chain, listing entries, and writing an image and patching its table. */
module V8Loops {
  import opened Prelude
  import opened Numbers
  import opened V8Chain
  import opened V8Container

  /** An opened container, as `V8` keeps it. */
  class Reader {
    const base: nat
    const raw: seq<Byte>
    const wide: bool
    const first: nat
    const end: nat

    constructor (v8: V8)
      ensures base == v8.base && raw == v8.raw && wide == v8.wide && first == v8.First()
      ensures end == if v8.wide then END64 else END
    {
      base, raw, wide := v8.base, v8.raw, v8.wide;
      first := if v8.wide then 20 else 16;
      end := if v8.wide then END64 else END;
    }

    /** One block of a chain: its header fields and its bytes. */
    method PieceOf(at: int) returns (r: Result<Piece, Error>)
      ensures r == Loose(raw, wide)(at)
    {
      hide ParseHex, Slice;
      var w, hl := if wide then 16 else 8, if wide then 55 else 31;
      var h := Slice(raw, at, at + hl);
      if Slice(h, 0, 2) != CRLF {
        return Err(BadHeader(at));
      }
      var doc, page, nxt := ParseHex(Slice(h, 2, 2 + w)), ParseHex(Slice(h, 3 + w, 3 + 2 * w)),
                            ParseHex(Slice(h, 4 + 2 * w, 4 + 3 * w));
      if doc.None? || page.None? || nxt.None? {
        return Err(BadNumber(at));
      }
      return Ok(Piece(doc.value, Slice(raw, at + hl, at + hl + page.value), nxt.value));
    }

    /**
     * Follows the chain from `addr`, stopping as soon as the first header's length is read. `fuel` bounds the
     * chain: the source itself does not stop on a cycle of empty pages.
     */
    method Block(addr: int, ghost fuel: nat) returns (r: Result<seq<Byte>, Error>)
      requires end == (if wide then END64 else END) && !V8Chain.Block(raw, wide, addr, fuel).OutOfFuel?
      ensures match r
              case Ok(b) => V8Chain.Block(raw, wide, addr, fuel) == Done(b)
              case Err(e) => V8Chain.Block(raw, wide, addr, fuel) == Raised(e)
    {
      hide Loose;
      var out: seq<Byte>, total: Option<int>, at: int := [], None, addr;
      ghost var left := fuel;
      while true
        invariant EarlyStop(Loose(raw, wide), wide, at, out, total, left) == V8Chain.Block(raw, wide, addr, fuel)
        decreases left
      {
        var piece := PieceOf(at);
        if piece.Err? {
          return Err(piece.error);
        }
        if total.None? {
          total := Some(piece.value.doc);
        }
        out := out + piece.value.bytes;
        if piece.value.next == end || piece.value.next == END || |out| >= total.value {
          return Ok(Take(out, total.value));
        }
        at := piece.value.next;
        left := left - 1;
      }
    }

    /** Every entry of a table of contents, in order, with its body. */
    method Entries(inflate: seq<Byte> -> Option<seq<Byte>>, ghost fuel: nat) returns (r: Result<seq<Entry>, Error>)
      requires end == (if wide then END64 else END) && first == (if wide then 20 else 16)
      requires !Listing(V8(base, raw, wide), inflate, fuel).OutOfFuel?
      ensures match r
              case Ok(es) => Listing(V8(base, raw, wide), inflate, fuel) == Done(es)
              case Err(e) => Listing(V8(base, raw, wide), inflate, fuel) == Raised(e)
    {
      hide EarlyStop, Loose, NameOf, BodyOf, FromLe;
      ghost var v8 := V8(base, raw, wide);
      var toc := Block(first, fuel);
      if toc.Err? {
        return Err(toc.error);
      }
      var step := if wide then 24 else 12;
      var out: seq<Entry>, off: nat := [], 0;
      ghost var whole := EntriesFrom(v8, toc.value, 0, inflate, fuel);
      Prepended([], whole);
      while off + step <= |toc.value|
        invariant whole == Prepend(out, EntriesFrom(v8, toc.value, off, inflate, fuel))
        decreases |toc.value| - off
      {
        var ha, da := if wide then U64At(toc.value, off) else U32At(toc.value, off),
                      if wide then U64At(toc.value, off + 8) else U32At(toc.value, off + 4);
        var header := Block(ha, fuel);
        if header.Err? {
          return Err(header.error);
        }
        var blob := Block(da, fuel);
        if blob.Err? {
          return Err(blob.error);
        }
        var entry := (NameOf(header.value), BodyOf(blob.value, inflate));
        PrependOne(out, entry, EntriesFrom(v8, toc.value, off + step, inflate, fuel));
        out := out + [entry];
        off := off + step;
      }
      assert out + [] == out;
      return Ok(out);
    }
  }

  lemma Prepended(out: seq<Entry>, r: Outcome<seq<Entry>>)
    requires out == []
    ensures Prepend(out, r) == r
  {
    if r.Done? {
      assert [] + r.value == r.value;
    }
  }
}
