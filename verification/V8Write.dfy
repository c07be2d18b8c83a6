/** `write15` of `_onecdec/v8c.py`: blocks are appended, addresses remembered, and the table patched in place at the end. */
module V8Write {
  import opened Prelude
  import opened Numbers
  import opened V8Chain
  import opened V8Container
  import opened V8RoundTrip

  /** What stops a write: `struct.pack` refuses a number, or a name has no UTF-16 form. */
  datatype WriteError = VersionTooBig | NotText(k: nat) | AddressTooBig(row: nat)

  /** Every address the table will hold fits 32 bits. */
  predicate AddressesFit(es: seq<Source>, deflateAll: bool, deflate: seq<Byte> -> seq<Byte>, at: nat) {
    if es == [] then true
    else
      var da := at + |HeaderBlock(es[0])|;
      at < U32 && da < U32 && AddressesFit(es[1..], deflateAll, deflate, da + |BodyBlock(es[0], deflateAll, deflate)|)
  }

  /** The rows of remembered addresses. */
  function Rows(addrs: seq<(nat, nat)>): (t: seq<Byte>)
    ensures |t| == 12 * |addrs|
  {
    if addrs == [] then [] else Rows(addrs[..|addrs| - 1]) + TocRow(addrs[|addrs| - 1].0, addrs[|addrs| - 1].1)
  }

  predicate Fit(addrs: seq<(nat, nat)>) {
    forall k :: 0 <= k < |addrs| ==> addrs[k].0 < U32 && addrs[k].1 < U32
  }

  lemma RowsSnoc(addrs: seq<(nat, nat)>, ha: nat, da: nat)
    ensures Rows(addrs + [(ha, da)]) == Rows(addrs) + TocRow(ha, da)
  {
    hide TocRow;
    assert (addrs + [(ha, da)])[..|addrs|] == addrs;
  }

  /** The table of contents, row by row; the first address over 32 bits stops it. */
  method PackTable(addrs: seq<(nat, nat)>) returns (r: Result<seq<Byte>, WriteError>)
    ensures r.Ok? <==> Fit(addrs)
    ensures r.Ok? ==> r.value == Rows(addrs)
    ensures r.Err? ==> r.error.AddressTooBig? && r.error.row < |addrs|
                       && Fit(addrs[..r.error.row]) && !Fit(addrs[..r.error.row + 1])
  {
    hide TocRow;
    var t: seq<Byte> := [];
    for i := 0 to |addrs|
      invariant t == Rows(addrs[..i]) && Fit(addrs[..i])
    {
      assert addrs[..i + 1] == addrs[..i] + [addrs[i]];
      if addrs[i].0 >= U32 || addrs[i].1 >= U32 {
        assert !(addrs[..i + 1][i].0 < U32 && addrs[..i + 1][i].1 < U32);
        return Err(AddressTooBig(i));
      }
      RowsSnoc(addrs[..i], addrs[i].0, addrs[i].1);
      t := t + TocRow(addrs[i].0, addrs[i].1);
    }
    assert addrs[..|addrs|] == addrs;
    return Ok(t);
  }

  // ---- one entry more

  /** With `out` written and `addrs` remembered, entries `rest` still to write, the whole comes to this. */
  ghost predicate Underway(es: seq<Source>, rest: seq<Source>, out: seq<Byte>, addrs: seq<(nat, nat)>, start: seq<Byte>,
                           deflateAll: bool, deflate: seq<Byte> -> seq<Byte>) {
    && out + Bodies(rest, deflateAll, deflate) == start + Bodies(es, deflateAll, deflate)
    && Rows(addrs) + Toc(rest, deflateAll, deflate, |out|) == Toc(es, deflateAll, deflate, |start|)
    && (AddressesFit(es, deflateAll, deflate, |start|) <==> Fit(addrs) && AddressesFit(rest, deflateAll, deflate, |out|))
    && |addrs| + |rest| == |es|
    && |start| <= |out|
  }

  lemma OneMore(es: seq<Source>, rest: seq<Source>, out: seq<Byte>, addrs: seq<(nat, nat)>, start: seq<Byte>,
                deflateAll: bool, deflate: seq<Byte> -> seq<Byte>)
    requires rest != [] && Underway(es, rest, out, addrs, start, deflateAll, deflate)
    ensures var h, b := HeaderBlock(rest[0]), BodyBlock(rest[0], deflateAll, deflate);
            Underway(es, rest[1..], out + h + b, addrs + [(|out|, |out + h|)], start, deflateAll, deflate)
  {
    hide BlockText, Stored, TocRow, HeaderBlock, BodyBlock, Bodies, Toc, Rows, Fit, AddressesFit;
    var h, b := HeaderBlock(rest[0]), BodyBlock(rest[0], deflateAll, deflate);
    EntryInFront(rest, |out|, deflateAll, deflate);
    Append(out, h, b, Bodies(rest[1..], deflateAll, deflate));
    RowsSnoc(addrs, |out|, |out + h|);
    TocCons(rest, |out|, deflateAll, deflate);
    Regroup(Rows(addrs), TocRow(|out|, |out + h|), Toc(rest[1..], deflateAll, deflate, |out + h + b|));
    FitSnoc(addrs, |out|, |out + h|);
  }

  lemma Append(a: seq<Byte>, b: seq<Byte>, c: seq<Byte>, d: seq<Byte>)
    ensures a + (b + c + d) == a + b + c + d && |a + b + c| == |a| + |b| + |c|
  {
  }

  lemma EntryInFront(es: seq<Source>, at: nat, deflateAll: bool, deflate: seq<Byte> -> seq<Byte>)
    requires es != []
    ensures var h, b := HeaderBlock(es[0]), BodyBlock(es[0], deflateAll, deflate);
            && Bodies(es, deflateAll, deflate) == h + b + Bodies(es[1..], deflateAll, deflate)
            && (AddressesFit(es, deflateAll, deflate, at)
                <==> at < U32 && at + |h| < U32 && AddressesFit(es[1..], deflateAll, deflate, at + |h| + |b|))
  {
    hide HeaderBlock, BodyBlock;
  }

  lemma FitSnoc(addrs: seq<(nat, nat)>, ha: nat, da: nat)
    ensures Fit(addrs + [(ha, da)]) <==> Fit(addrs) && ha < U32 && da < U32
  {
    var later := addrs + [(ha, da)];
    assert later[|addrs|] == (ha, da);
    assert forall k :: 0 <= k < |addrs| ==> later[k] == addrs[k];
  }

  /** No room for the table itself means no room for the first entry. */
  lemma TableFits(es: seq<Source>, deflateAll: bool, deflate: seq<Byte> -> seq<Byte>)
    requires AddressesFit(es, deflateAll, deflate, FirstEntry(es))
    ensures 12 * |es| < U32
  {
  }

  lemma BlocksAreNotEmpty(data: seq<Byte>)
    ensures |BlockText(data, 512)| > 512
  {
  }

  lemma {:induction false} SmallLayoutFits(es: seq<Source>, deflateAll: bool, deflate: seq<Byte> -> seq<Byte>, at: nat)
    requires at + |Bodies(es, deflateAll, deflate)| <= U32
    ensures AddressesFit(es, deflateAll, deflate, at)
    decreases |es|
  {
    hide BlockText, Bodies, Stored, HeaderData;
    if es != [] {
      BodiesCons(es, deflateAll, deflate);
      BlocksAreNotEmpty(HeaderData(es[0].name));
      BlocksAreNotEmpty(Stored(es[0].body, deflateAll, deflate));
      SmallLayoutFits(es[1..], deflateAll, deflate, at + |HeaderBlock(es[0])| + |BodyBlock(es[0], deflateAll, deflate)|);
    }
  }

  /** Every image of at most 4 GiB can be written. */
  lemma SmallImagesFit(es: seq<Source>, version: nat, deflateAll: bool, deflate: seq<Byte> -> seq<Byte>)
    requires |Image(es, version, deflateAll, deflate)| <= U32
    ensures AddressesFit(es, deflateAll, deflate, FirstEntry(es))
  {
    SameBlockLength(Toc(es, deflateAll, deflate, FirstEntry(es)), Zeros(12 * |es|));
    SmallLayoutFits(es, deflateAll, deflate, FirstEntry(es));
  }

  // ---- the patch

  /**
   * Overwriting header and table inside the placeholder block gives the block that would have been written with
   * the table at hand: no length changes, nothing behind the table moves.
   */
  lemma PatchIsLayout(before: seq<Byte>, toc: seq<Byte>, capacity: nat, after: seq<Byte>)
    requires |toc| < U32 && capacity < U32
    ensures var page := if capacity >= |toc| then capacity else |toc|;
            var at := |before|;
            var out := before + BlockText(Zeros(|toc|), capacity) + after;
            && at + 31 + |toc| <= |out|
            && |HeaderText(|toc|, page, END)| == 31
            && out[..at] + (HeaderText(|toc|, page, END) + toc) + out[at + 31 + |toc|..]
               == before + BlockText(toc, capacity) + after
  {
    hide HeaderText, Fields, Slice;
    var page := if capacity >= |toc| then capacity else |toc|;
    var pad := Zeros(page - |toc|);
    var h := HeaderText(|toc|, page, END);
    HeaderIsRead(|toc|, page, END, 0);
    var out := before + BlockText(Zeros(|toc|), capacity) + after;
    assert out == before + (h + Zeros(|toc|)) + (pad + after);
    PatchSlices(before, h + Zeros(|toc|), h + toc, pad + after);
    assert before + (h + toc) + (pad + after) == before + (h + toc + pad) + after;
  }

  lemma PatchSlices(before: seq<Byte>, x: seq<Byte>, y: seq<Byte>, after: seq<Byte>)
    requires |x| == |y|
    ensures var out := before + x + after;
            out[..|before|] + y + out[|before| + |y|..] == before + y + after
  {
    var out := before + x + after;
    assert out[..|before|] == before;
    assert out[|before| + |y|..] == after;
  }

  // ---- the writer

  /** The trouble reported is there, and it is the first the writer meets. */
  predicate Explains(e: WriteError, es: seq<Source>, version: nat, deflateAll: bool, deflate: seq<Byte> -> seq<Byte>) {
    match e
    case VersionTooBig => version >= U32
    case NotText(k) => k < |es| && !IsText(es[k].name) && forall j :: 0 <= j < k ==> IsText(es[j].name)
    case AddressTooBig(_) => !AddressesFit(es, deflateAll, deflate, FirstEntry(es))
  }

  /** The body as it is stored: deflated unless it already is a container. */
  method Body(body: seq<Byte>, deflateAll: bool, deflate: seq<Byte> -> seq<Byte>) returns (b: seq<Byte>)
    ensures b == Stored(body, deflateAll, deflate)
  {
    b := body;
    if deflateAll || !(Take(body, 4) == W15 || Take(body, 8) == W16) {
      b := deflate(body);
    }
  }

  /**
   * Writes the entries. It fails exactly when the version or an address does not fit 32 bits or a name holds a
   * lone surrogate, and otherwise gives the layout `ReadInvertsWrite` is about.
   */
  method Write15(es: seq<Source>, version: nat, deflateAll: bool, deflate: seq<Byte> -> seq<Byte>)
    returns (r: Result<seq<Byte>, WriteError>)
    ensures r.Ok? <==> version < U32 && (forall k :: 0 <= k < |es| ==> IsText(es[k].name))
                       && AddressesFit(es, deflateAll, deflate, FirstEntry(es))
    ensures r.Ok? ==> r.value == Image(es, version, deflateAll, deflate)
    ensures r.Err? ==> Explains(r.error, es, version, deflateAll, deflate)
  {
    hide BlockText, Stored, TocRow, HeaderText, Bodies, Toc, Rows, IsText, FileHeader, HeaderData, Fit, AddressesFit;
    if version >= U32 {
      return Err(VersionTooBig);
    }
    FileHeaderIsW15(version, []);
    var out := FileHeader(version);
    var tocLen, tocAt := 12 * |es|, |out|;
    out := out + BlockText(Zeros(tocLen), 512);
    ghost var start := out;
    var addrs: seq<(nat, nat)> := [];
    AtStart(es, start, deflateAll, deflate);
    for i := 0 to |es|
      invariant Underway(es, es[i..], out, addrs, start, deflateAll, deflate)
      invariant forall j :: 0 <= j < i ==> IsText(es[j].name)
    {
      if !IsText(es[i].name) {
        return Err(NotText(i));
      }
      var stored := Body(es[i].body, deflateAll, deflate);
      OneMore(es, es[i..], out, addrs, start, deflateAll, deflate);
      var ha := |out|;
      out := out + BlockText(HeaderData(es[i].name), 512);
      var da := |out|;
      out := out + BlockText(stored, 512);
      addrs := addrs + [(ha, da)];
      assert es[i..][0] == es[i] && es[i..][1..] == es[i + 1..];
    }
    AtEnd(es, out, addrs, start, deflateAll, deflate);
    var toc := PackTable(addrs);
    if toc.Err? {
      return Err(toc.error);
    }
    TableFits(es, deflateAll, deflate);
    PatchIsLayout(FileHeader(version), toc.value, 512, Bodies(es, deflateAll, deflate));
    var page := if 512 >= tocLen then 512 else tocLen;
    out := out[..tocAt] + (HeaderText(tocLen, page, END) + toc.value) + out[tocAt + 31 + tocLen..];
    return Ok(out);
  }

  lemma AtStart(es: seq<Source>, start: seq<Byte>, deflateAll: bool, deflate: seq<Byte> -> seq<Byte>)
    ensures Underway(es, es[0..], start, [], start, deflateAll, deflate)
  {
    assert es[0..] == es;
    assert [] + Toc(es, deflateAll, deflate, |start|) == Toc(es, deflateAll, deflate, |start|);
  }

  lemma AtEnd(es: seq<Source>, out: seq<Byte>, addrs: seq<(nat, nat)>, start: seq<Byte>, deflateAll: bool,
              deflate: seq<Byte> -> seq<Byte>)
    requires Underway(es, es[|es|..], out, addrs, start, deflateAll, deflate)
    ensures out == start + Bodies(es, deflateAll, deflate)
    ensures Rows(addrs) == Toc(es, deflateAll, deflate, |start|)
    ensures Fit(addrs) <==> AddressesFit(es, deflateAll, deflate, |start|)
    ensures |Rows(addrs)| == 12 * |es|
  {
    assert es[|es|..] == [];
    assert out + [] == out && Rows(addrs) + [] == Rows(addrs);
  }
}
