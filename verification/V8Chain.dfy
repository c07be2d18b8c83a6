/**
 * Block chains of the V8 container, and the two readers that follow them: `V8.block` (`_onecdec/v8c.py`), which
 * stops as soon as it has enough bytes, and `read_block` (`_onecdec/v8container.py`), which follows to the end.
 */
module V8Chain {
  import opened Prelude
  import opened Numbers

  const END := 0x7FFF_FFFF
  const END64 := 0xFFFF_FFFF_FFFF_FFFF

  datatype Error =
    | BadHeader(at: int)   // the line breaks around the header are missing
    | BadNumber(at: int)   // a field is not a number
    | NotAContainer
    | ShortRead(at: int)

  /** What following a chain for at most `fuel` blocks comes to. */
  datatype Outcome<+T> = Done(value: T) | Raised(error: Error) | OutOfFuel
  {
    predicate IsFailure() { !Done? }
    function PropagateFailure<U>(): Outcome<U>
      requires IsFailure()
    {
      if Raised? then Raised(error) else OutOfFuel
    }
    function Extract(): T
      requires Done?
    {
      value
    }
  }

  /** Values read so far, and what the rest comes to. */
  function Prepend<T>(out: seq<T>, r: Outcome<seq<T>>): Outcome<seq<T>> {
    if r.Done? then Done(out + r.value) else r
  }

  lemma PrependOne<T>(out: seq<T>, e: T, r: Outcome<seq<T>>)
    ensures Prepend(out + [e], r) == Prepend(out, if r.Done? then Done([e] + r.value) else r)
  {
    if r.Done? {
      assert out + [e] + r.value == out + ([e] + r.value);
    }
  }

  /** Where a slice bound points: negative bounds count from the end, all are clipped. */
  function Bound(i: int, n: nat): (k: nat)
    ensures k <= n
  {
    if i >= 0 then (if i <= n then i else n)
    else if i + n >= 0 then i + n
    else 0
  }

  /** `s[a:b]` */
  function Slice<T>(s: seq<T>, a: int, b: int): seq<T> {
    var lo, hi := Bound(a, |s|), Bound(b, |s|);
    if lo <= hi then s[lo..hi] else []
  }

  /** `s[:n]` */
  function Take<T>(s: seq<T>, n: int): seq<T> {
    s[..Bound(n, |s|)]
  }

  // ---- headers

  datatype Head = Head(doc: int, page: int, next: int)

  const CRLF: seq<Byte> := [0x0D, 0x0A]

  /** The three hexadecimal fields of `w` digits in a header. */
  function Fields(h: seq<Byte>, w: nat, at: int): Result<Head, Error> {
    match (ParseHex(Slice(h, 2, 2 + w)), ParseHex(Slice(h, 3 + w, 3 + 2 * w)), ParseHex(Slice(h, 4 + 2 * w, 4 + 3 * w)))
    case (Some(doc), Some(page), Some(next)) => Ok(Head(doc, page, next))
    case _ => Err(BadNumber(at))
  }

  /** The header `V8.block` accepts: it looks at the first line break only. */
  function LooseHead(raw: seq<Byte>, at: int, wide: bool): Result<Head, Error> {
    var w := if wide then 16 else 8;
    var h := Slice(raw, at, at + 3 * w + 7);
    if Slice(h, 0, 2) != CRLF then Err(BadHeader(at)) else Fields(h, w, at)
  }

  /** The header `read_block` accepts: both line breaks are checked. */
  function StrictHead(raw: seq<Byte>, at: int): Result<Head, Error> {
    var h := Slice(raw, at, at + 31);
    if Slice(h, 0, 2) != CRLF || Slice(h, 29, 31) != CRLF then Err(BadHeader(at)) else Fields(h, 8, at)
  }

  /** One block: the document length its header states, its bytes, and the next address. */
  datatype Piece = Piece(doc: int, bytes: seq<Byte>, next: int)

  type Steps = int -> Result<Piece, Error>

  function PieceAt(raw: seq<Byte>, at: int, hl: nat, head: Result<Head, Error>): Result<Piece, Error> {
    match head
    case Err(e) => Err(e)
    case Ok(h) => Ok(Piece(h.doc, Slice(raw, at + hl, at + hl + h.page), h.next))
  }

  function Loose(raw: seq<Byte>, wide: bool): Steps {
    (at: int) => PieceAt(raw, at, if wide then 55 else 31, LooseHead(raw, at, wide))
  }

  function Strict(raw: seq<Byte>): Steps {
    (at: int) => PieceAt(raw, at, 31, StrictHead(raw, at))
  }

  // ---- following a chain

  predicate IsEnd(next: int, wide: bool) {
    next == END || (wide && next == END64)
  }

  /** `V8.block` from a block at `at`, with `out` read so far of a document of `total` bytes. */
  function EarlyStop(step: Steps, wide: bool, at: int, out: seq<Byte>, total: Option<int>, fuel: nat): Outcome<seq<Byte>>
    decreases fuel
  {
    if fuel == 0 then OutOfFuel
    else match step(at)
      case Err(e) => Raised(e)
      case Ok(piece) =>
        var size := if total.Some? then total.value else piece.doc;
        var grown := out + piece.bytes;
        if IsEnd(piece.next, wide) || |grown| >= size then Done(Take(grown, size))
        else EarlyStop(step, wide, piece.next, grown, Some(size), fuel - 1)
  }

  /** `read_block`, from address `at`. */
  function FullChain(step: Steps, at: int, out: seq<Byte>, total: Option<int>, fuel: nat): Outcome<seq<Byte>>
    decreases fuel
  {
    if at == END then Done(if total.Some? then Take(out, total.value) else out)
    else if fuel == 0 then OutOfFuel
    else match step(at)
      case Err(e) => Raised(e)
      case Ok(piece) =>
        var size := if total.Some? then total.value else piece.doc;
        FullChain(step, piece.next, out + piece.bytes, Some(size), fuel - 1)
  }

  function Block(raw: seq<Byte>, wide: bool, at: int, fuel: nat): Outcome<seq<Byte>> {
    EarlyStop(Loose(raw, wide), wide, at, [], None, fuel)
  }

  function ReadBlock(raw: seq<Byte>, at: int, fuel: nat): Outcome<seq<Byte>> {
    FullChain(Strict(raw), at, [], None, fuel)
  }

  // ---- more steps change nothing once an answer is there

  lemma {:induction false} EarlyStopIsStable(step: Steps, wide: bool, at: int, out: seq<Byte>, total: Option<int>,
                                             fuel: nat, more: nat)
    requires fuel <= more && !EarlyStop(step, wide, at, out, total, fuel).OutOfFuel?
    ensures EarlyStop(step, wide, at, out, total, more) == EarlyStop(step, wide, at, out, total, fuel)
    decreases fuel
  {
    if step(at).Ok? {
      var piece := step(at).value;
      var size := if total.Some? then total.value else piece.doc;
      if !(IsEnd(piece.next, wide) || |out + piece.bytes| >= size) {
        EarlyStopIsStable(step, wide, piece.next, out + piece.bytes, Some(size), fuel - 1, more - 1);
      }
    }
  }

  lemma {:induction false} FullChainIsStable(step: Steps, at: int, out: seq<Byte>, total: Option<int>, fuel: nat, more: nat)
    requires fuel <= more && !FullChain(step, at, out, total, fuel).OutOfFuel?
    ensures FullChain(step, at, out, total, more) == FullChain(step, at, out, total, fuel)
    decreases fuel
  {
    if at != END && step(at).Ok? {
      var piece := step(at).value;
      var size := if total.Some? then total.value else piece.doc;
      FullChainIsStable(step, piece.next, out + piece.bytes, Some(size), fuel - 1, more - 1);
    }
  }

  // ---- the two readers agree

  /** All bytes of a chain, from the block at `at` to its end. */
  function Whole(step: Steps, at: int, fuel: nat): Outcome<seq<Byte>>
    decreases fuel
  {
    if at == END then Done([])
    else if fuel == 0 then OutOfFuel
    else match step(at)
      case Err(e) => Raised(e)
      case Ok(piece) =>
        var rest :- Whole(step, piece.next, fuel - 1);
        Done(piece.bytes + rest)
  }

  /** Following to the end cuts all bytes of the chain to the stated length. */
  lemma {:induction false} FullChainIsWhole(step: Steps, at: int, out: seq<Byte>, total: int, fuel: nat)
    ensures FullChain(step, at, out, Some(total), fuel)
         == match Whole(step, at, fuel)
            case Done(w) => Done(Take(out + w, total))
            case Raised(e) => Raised(e)
            case OutOfFuel => OutOfFuel
    decreases fuel
  {
    if at == END {
      assert out + [] == out;
    } else if fuel > 0 && step(at).Ok? {
      var piece := step(at).value;
      FullChainIsWhole(step, piece.next, out + piece.bytes, total, fuel - 1);
      var rest := Whole(step, piece.next, fuel - 1);
      if rest.Done? {
        Regroup(out, piece.bytes, rest.value);
      }
    }
  }

  lemma EnoughIsKept(a: seq<Byte>, b: seq<Byte>, total: nat)
    requires |a| >= total
    ensures Take(a + b, total) == Take(a, total)
  {
  }

  /** Stopping early gives the same, as what is already enough stays the answer however the chain goes on. */
  lemma {:induction false} EarlyStopIsWhole(strict: Steps, loose: Steps, at: int, out: seq<Byte>, total: nat, fuel: nat)
    requires forall a: int :: strict(a).Ok? ==> loose(a) == strict(a)
    requires at != END && Whole(strict, at, fuel).Done?
    ensures EarlyStop(loose, false, at, out, Some(total), fuel) == Done(Take(out + Whole(strict, at, fuel).value, total))
    decreases fuel
  {
    var piece := strict(at).value;
    var rest := Whole(strict, piece.next, fuel - 1).value;
    Regroup(out, piece.bytes, rest);
    if piece.next == END {
      assert out + piece.bytes + [] == out + piece.bytes;
    } else if |out + piece.bytes| < total {
      EarlyStopIsWhole(strict, loose, piece.next, out + piece.bytes, total, fuel - 1);
    } else {
      EnoughIsKept(out + piece.bytes, rest, total);
    }
  }

  lemma StrictIsLoose(raw: seq<Byte>, at: int)
    ensures Strict(raw)(at).Ok? ==> Loose(raw, false)(at) == Strict(raw)(at)
  {
  }

  /** A negative length cuts a text and a longer one alike only when there is nothing more or nothing left. */
  lemma CutAlike(a: seq<Byte>, b: seq<Byte>, n: int)
    requires n < 0
    ensures Take(a, n) == Take(a + b, n) <==> b == [] || |a| + |b| <= -n
  {
    if b == [] {
      assert a + b == a;
    }
    assert |Take(a, n)| == Bound(n, |a|) && |Take(a + b, n)| == Bound(n, |a| + |b|);
  }

  /**
   * On every chain `read_block` follows to its end the early-stopping reader returns the same bytes -- exactly when the
   * length the first header states is not negative, or nothing follows the first block, or nothing would be left.
   */
  lemma ReadersAgree(raw: seq<Byte>, at: int, fuel: nat)
    requires at != END
    ensures ReadBlock(raw, at, fuel).Done? ==>
              && Strict(raw)(at).Ok? && Whole(Strict(raw), at, fuel).Done?
              && var first, whole := Strict(raw)(at).value, Whole(Strict(raw), at, fuel).value;
                 Block(raw, false, at, fuel) == ReadBlock(raw, at, fuel)
                 <==> first.doc >= 0 || |whole| == |first.bytes| || |whole| <= -first.doc
  {
    hide Strict, Loose;
    if ReadBlock(raw, at, fuel).Done? {
      StepsAgree(raw);
      var first := Strict(raw)(at).value;
      FullChainIsWhole(Strict(raw), first.next, [] + first.bytes, first.doc, fuel - 1);
      var rest := Whole(Strict(raw), first.next, fuel - 1).value;
      assert [] + first.bytes == first.bytes;
      if first.doc < 0 {
        CutAlike(first.bytes, rest, first.doc);
      } else if first.next == END {
        assert first.bytes + rest == first.bytes;
      } else if |first.bytes| >= first.doc {
        EnoughIsKept(first.bytes, rest, first.doc);
      } else {
        EarlyStopIsWhole(Strict(raw), Loose(raw, false), first.next, first.bytes, first.doc, fuel - 1);
      }
    }
  }

  lemma StepsAgree(raw: seq<Byte>)
    ensures forall a: int :: Strict(raw)(a).Ok? ==> Loose(raw, false)(a) == Strict(raw)(a)
  {
    forall a: int ensures Strict(raw)(a).Ok? ==> Loose(raw, false)(a) == Strict(raw)(a) {
      StrictIsLoose(raw, a);
    }
  }

  // ---- written blocks

  function Zeros(n: nat): (s: seq<Byte>)
    ensures |s| == n
  {
    seq(n, _ => 0)
  }

  /** Three hexadecimal fields of `w` digits between line breaks. */
  function HeaderOf(doc: nat, page: nat, next: nat, w: nat): seq<Byte> {
    CRLF + Hex(doc, w) + [0x20] + Hex(page, w) + [0x20] + Hex(next, w) + [0x20] + CRLF
  }

  /** `b'\r\n%08x %08x %08x \r\n'` */
  function HeaderText(doc: nat, page: nat, next: nat): seq<Byte> {
    HeaderOf(doc, page, next, 8)
  }

  /** A single-block chain: header, data, zero padding up to `capacity`. */
  function BlockText(data: seq<Byte>, capacity: nat): (b: seq<Byte>)
    ensures |b| > |data|
  {
    var page := if capacity >= |data| then capacity else |data|;
    HeaderText(|data|, page, END) + data + Zeros(page - |data|)
  }

  /** `x` stands in `raw` at address `at`. */
  predicate Stands(raw: seq<Byte>, at: nat, x: seq<Byte>) {
    at + |x| <= |raw| && raw[at..at + |x|] == x
  }

  lemma StandsParts(raw: seq<Byte>, at: nat, x: seq<Byte>, y: seq<Byte>)
    requires Stands(raw, at, x + y)
    ensures Stands(raw, at, x) && Stands(raw, at + |x|, y)
  {
    assert (x + y)[..|x|] == x && (x + y)[|x|..] == y;
    assert raw[at..at + |x|] == raw[at..at + |x + y|][..|x|];
    assert raw[at + |x|..at + |x + y|] == raw[at..at + |x + y|][|x|..];
  }

  /** A number that takes exactly `w` digits and is parsed back. */
  predicate Prints(n: nat, w: nat) {
    |Hex(n, w)| == w && ParseHex(Hex(n, w)) == Some(n)
  }

  lemma FieldsAreRead(doc: nat, page: nat, next: nat, w: nat, at: nat)
    requires Prints(doc, w) && Prints(page, w) && Prints(next, w)
    ensures var h := HeaderOf(doc, page, next, w);
            && |h| == 3 * w + 7
            && Slice(h, 0, 2) == CRLF && Slice(h, 3 * w + 5, 3 * w + 7) == CRLF
            && Fields(h, w, at) == Ok(Head(doc, page, next))
  {
    hide ParseHex, Hex, Slice;
    var h := HeaderOf(doc, page, next, w);
    SliceIs(h, 2, 2 + w);
    SliceIs(h, 3 + w, 3 + 2 * w);
    SliceIs(h, 4 + 2 * w, 4 + 3 * w);
    SliceIs(h, 0, 2);
    SliceIs(h, 3 * w + 5, 3 * w + 7);
    assert h[2..2 + w] == Hex(doc, w) && h[3 + w..3 + 2 * w] == Hex(page, w) && h[4 + 2 * w..4 + 3 * w] == Hex(next, w);
    assert h[0..2] == CRLF && h[3 * w + 5..3 * w + 7] == CRLF;
  }

  lemma HeaderIsRead(doc: nat, page: nat, next: nat, at: nat)
    requires doc < U32 && page < U32 && next < U32
    ensures var h := HeaderText(doc, page, next);
            && |h| == 31
            && Slice(h, 0, 2) == CRLF && Slice(h, 29, 31) == CRLF
            && Fields(h, 8, at) == Ok(Head(doc, page, next))
  {
    Hex8(doc);
    Hex8(page);
    Hex8(next);
    FieldsAreRead(doc, page, next, 8, at);
  }

  lemma SliceIs<T>(s: seq<T>, a: nat, b: nat)
    requires a <= b <= |s|
    ensures Slice(s, a, b) == s[a..b]
  {
  }

  lemma PieceOfHeader(raw: seq<Byte>, at: nat, h: seq<Byte>, head: Head, body: seq<Byte>)
    requires Stands(raw, at, h + body) && |h| == 31 && head.page == |body|
    requires Slice(h, 0, 2) == CRLF && Slice(h, 29, 31) == CRLF && Fields(h, 8, at) == Ok(head)
    ensures Strict(raw)(at) == Ok(Piece(head.doc, body, head.next))
    ensures Loose(raw, false)(at) == Strict(raw)(at)
  {
    hide Fields, Slice;
    StandsParts(raw, at, h, body);
    SliceIs(raw, at, at + 31);
    SliceIs(raw, at + 31, at + 31 + |body|);
    assert StrictHead(raw, at) == Ok(head);
    StrictIsLoose(raw, at);
  }

  lemma PieceIsRead(raw: seq<Byte>, at: nat, data: seq<Byte>, page: nat)
    requires |data| <= page < U32
    requires Stands(raw, at, HeaderText(|data|, page, END) + (data + Zeros(page - |data|)))
    ensures Strict(raw)(at) == Ok(Piece(|data|, data + Zeros(page - |data|), END))
    ensures Loose(raw, false)(at) == Strict(raw)(at)
  {
    HeaderIsRead(|data|, page, END, at);
    PieceOfHeader(raw, at, HeaderText(|data|, page, END), Head(|data|, page, END), data + Zeros(page - |data|));
  }

  lemma OnePieceChain(step: Steps, at: nat, data: seq<Byte>, padding: seq<Byte>, fuel: nat)
    requires step(at) == Ok(Piece(|data|, data + padding, END)) && fuel > 0
    ensures EarlyStop(step, false, at, [], None, fuel) == Done(data)
    ensures at != END ==> FullChain(step, at, [], None, fuel) == Done(data)
  {
    assert [] + (data + padding) == data + padding && Take(data + padding, |data|) == data;
  }

  /** A written block is read back by both readers, wherever it stands. */
  lemma BlockIsRead(raw: seq<Byte>, at: nat, data: seq<Byte>, capacity: nat, fuel: nat)
    requires |data| < U32 && capacity < U32 && fuel > 0 && Stands(raw, at, BlockText(data, capacity))
    ensures Block(raw, false, at, fuel) == Done(data)
    ensures at != END ==> ReadBlock(raw, at, fuel) == Done(data)
  {
    var page := if capacity >= |data| then capacity else |data|;
    assert BlockText(data, capacity) == HeaderText(|data|, page, END) + (data + Zeros(page - |data|));
    PieceIsRead(raw, at, data, page);
    OnePieceChain(Loose(raw, false), at, data, Zeros(page - |data|), fuel);
    OnePieceChain(Strict(raw), at, data, Zeros(page - |data|), fuel);
  }

  // ---- chains of several blocks

  /** Where block `k` of a chain points: to the block after it, the last one to `end`. */
  function NextOf(at: seq<nat>, k: nat, end: nat): nat
    requires k < |at|
  {
    if k + 1 < |at| then at[k + 1] else end
  }

  /** The addresses of a chain: only the last block points to an end mark. */
  predicate IsChain(wide: bool, at: seq<nat>, docs: seq<nat>, parts: seq<seq<Byte>>, end: nat) {
    && |at| == |docs| == |parts| > 0
    && IsEnd(end, wide) && forall k :: 0 < k < |at| ==> !IsEnd(at[k], wide)
  }

  /** Block `k`, its header stating `docs[k]`, holds `parts[k]` and points to the next one. */
  ghost predicate Linked(step: Steps, at: seq<nat>, docs: seq<nat>, parts: seq<seq<Byte>>, end: nat)
    requires |at| == |docs| == |parts|
  {
    forall k :: 0 <= k < |at| ==> step(at[k]) == Ok(Piece(docs[k], parts[k], NextOf(at, k, end)))
  }

  function Flat(parts: seq<seq<Byte>>): seq<Byte> {
    if parts == [] then [] else parts[0] + Flat(parts[1..])
  }

  lemma LinkedTail(step: Steps, wide: bool, at: seq<nat>, docs: seq<nat>, parts: seq<seq<Byte>>, end: nat)
    requires IsChain(wide, at, docs, parts, end) && Linked(step, at, docs, parts, end) && |at| > 1
    ensures IsChain(wide, at[1..], docs[1..], parts[1..], end) && Linked(step, at[1..], docs[1..], parts[1..], end)
  {
    var a, d, p := at[1..], docs[1..], parts[1..];
    forall k | 0 <= k < |a| ensures step(a[k]) == Ok(Piece(d[k], p[k], NextOf(a, k, end))) {
      assert step(at[k + 1]) == Ok(Piece(docs[k + 1], parts[k + 1], NextOf(at, k + 1, end)));
    }
  }

  lemma {:induction false} LinkedIsRead(step: Steps, wide: bool, at: seq<nat>, docs: seq<nat>, parts: seq<seq<Byte>>, end: nat,
                                        out: seq<Byte>, total: Option<int>, fuel: nat)
    requires IsChain(wide, at, docs, parts, end) && Linked(step, at, docs, parts, end)
    requires fuel >= |at| && (total.Some? ==> total.value >= 0)
    ensures EarlyStop(step, wide, at[0], out, total, fuel)
         == Done(Take(out + Flat(parts), if total.Some? then total.value else docs[0]))
    decreases |at|
  {
    var size: int := if total.Some? then total.value else docs[0];
    var grown := out + parts[0];
    assert step(at[0]) == Ok(Piece(docs[0], parts[0], NextOf(at, 0, end)));
    Regroup(out, parts[0], Flat(parts[1..]));
    if |at| == 1 {
      assert parts[1..] == [] && grown + [] == grown;
    } else if |grown| >= size {
      EnoughIsKept(grown, Flat(parts[1..]), size);
    } else {
      LinkedTail(step, wide, at, docs, parts, end);
      LinkedIsRead(step, wide, at[1..], docs[1..], parts[1..], end, grown, Some(size), fuel - 1);
    }
  }

  /** A block of the container's width stands at `at`. */
  predicate BlockStandsAt(raw: seq<Byte>, wide: bool, at: nat, doc: nat, body: seq<Byte>, next: nat) {
    var w := if wide then 16 else 8;
    && Prints(doc, w) && Prints(|body|, w) && Prints(next, w)
    && Stands(raw, at, HeaderOf(doc, |body|, next, w) + body)
  }

  lemma BlockOfHeader(raw: seq<Byte>, wide: bool, at: nat, doc: nat, body: seq<Byte>, next: nat)
    requires BlockStandsAt(raw, wide, at, doc, body, next)
    ensures Loose(raw, wide)(at) == Ok(Piece(doc, body, next))
  {
    hide Fields, Prints, HeaderOf;
    var w := if wide then 16 else 8;
    var h := HeaderOf(doc, |body|, next, w);
    FieldsAreRead(doc, |body|, next, w, at);
    StandsParts(raw, at, h, body);
    SliceIs(raw, at, at + 3 * w + 7);
    SliceIs(raw, at + 3 * w + 7, at + 3 * w + 7 + |body|);
  }

  /**
   * A chain of any number of blocks anywhere in the image, in either width, is read as the bytes of its blocks in the
   * order of the chain, cut to the length the first header states; a chain that ends sooner gives what it has.
   */
  lemma ChainIsRead(raw: seq<Byte>, wide: bool, at: seq<nat>, docs: seq<nat>, parts: seq<seq<Byte>>, end: nat, fuel: nat)
    requires IsChain(wide, at, docs, parts, end) && fuel >= |at|
    requires forall k :: 0 <= k < |at| ==> BlockStandsAt(raw, wide, at[k], docs[k], parts[k], NextOf(at, k, end))
    ensures Block(raw, wide, at[0], fuel) == Done(Take(Flat(parts), docs[0]))
  {
    hide Loose, BlockStandsAt;
    forall k | 0 <= k < |at| ensures Loose(raw, wide)(at[k]) == Ok(Piece(docs[k], parts[k], NextOf(at, k, end))) {
      BlockOfHeader(raw, wide, at[k], docs[k], parts[k], NextOf(at, k, end));
    }
    LinkedIsRead(Loose(raw, wide), wide, at, docs, parts, end, [], None, fuel);
    assert [] + Flat(parts) == Flat(parts);
  }
}
