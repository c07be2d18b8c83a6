/**
 * What the container readers make of any bytes at all: which headers and images they refuse, how far along a chain and
 * down a table they come, and which exception ends it.
 */
module V8Refusals {
  import opened Prelude
  import opened Numbers
  import opened V8Chain
  import opened V8Container
  import R = V8Repack

  // ---- one header

  /** Text that `int(s, 16)` takes. */
  predicate IsNumber(raw: seq<Byte>, lo: nat, hi: nat)
    requires lo <= hi <= |raw|
  {
    ParseHex(raw[lo..hi]).Some?
  }

  /** `V8.block` wants a line break in front and three numbers; what stands between and behind them it does not look at. */
  lemma LooseRefusals(raw: seq<Byte>, at: nat)
    requires at + 31 <= |raw|
    ensures var numbers := IsNumber(raw, at + 2, at + 10) && IsNumber(raw, at + 11, at + 19) && IsNumber(raw, at + 20, at + 28);
            && (Loose(raw, false)(at) == Err(BadHeader(at)) <==> raw[at..at + 2] != [0x0D, 0x0A])
            && (Loose(raw, false)(at) == Err(BadNumber(at)) <==> raw[at..at + 2] == [0x0D, 0x0A] && !numbers)
            && (Loose(raw, false)(at).Ok? <==> raw[at..at + 2] == [0x0D, 0x0A] && numbers)
  {
    hide ParseHex, Slice;
    HeaderParts(raw, at, 31, 8);
  }

  /** The same with fields of sixteen digits. */
  lemma WideRefusals(raw: seq<Byte>, at: nat)
    requires at + 55 <= |raw|
    ensures var numbers := IsNumber(raw, at + 2, at + 18) && IsNumber(raw, at + 19, at + 35) && IsNumber(raw, at + 36, at + 52);
            && (Loose(raw, true)(at) == Err(BadHeader(at)) <==> raw[at..at + 2] != [0x0D, 0x0A])
            && (Loose(raw, true)(at) == Err(BadNumber(at)) <==> raw[at..at + 2] == [0x0D, 0x0A] && !numbers)
            && (Loose(raw, true)(at).Ok? <==> raw[at..at + 2] == [0x0D, 0x0A] && numbers)
  {
    hide ParseHex, Slice;
    HeaderParts(raw, at, 55, 16);
  }

  /** `read_block` wants both line breaks. */
  lemma StrictRefusals(raw: seq<Byte>, at: nat)
    requires at + 31 <= |raw|
    ensures var numbers := IsNumber(raw, at + 2, at + 10) && IsNumber(raw, at + 11, at + 19) && IsNumber(raw, at + 20, at + 28);
            var breaks := raw[at..at + 2] == [0x0D, 0x0A] && raw[at + 29..at + 31] == [0x0D, 0x0A];
            && (Strict(raw)(at) == Err(BadHeader(at)) <==> !breaks)
            && (Strict(raw)(at) == Err(BadNumber(at)) <==> breaks && !numbers)
            && (Strict(raw)(at).Ok? <==> breaks && numbers)
  {
    hide ParseHex, Slice;
    HeaderParts(raw, at, 31, 8);
    SliceWhole(raw, at, 31);
    SliceInside(raw, at, 31, 29, 31);
  }

  lemma HeaderParts(raw: seq<Byte>, at: nat, hl: nat, w: nat)
    requires at + hl <= |raw| && hl == 3 * w + 7
    ensures var h := Slice(raw, at, at + hl);
            && Slice(h, 0, 2) == raw[at..at + 2]
            && Slice(h, 2, 2 + w) == raw[at + 2..at + 2 + w]
            && Slice(h, 3 + w, 3 + 2 * w) == raw[at + 3 + w..at + 3 + 2 * w]
            && Slice(h, 4 + 2 * w, 4 + 3 * w) == raw[at + 4 + 2 * w..at + 4 + 3 * w]
  {
    var h := Slice(raw, at, at + hl);
    assert h == raw[at..at + hl];
    SliceInside(raw, at, hl, 0, 2);
    SliceInside(raw, at, hl, 2, 2 + w);
    SliceInside(raw, at, hl, 3 + w, 3 + 2 * w);
    SliceInside(raw, at, hl, 4 + 2 * w, 4 + 3 * w);
  }

  lemma SliceWhole(raw: seq<Byte>, at: nat, n: nat)
    requires at + n <= |raw|
    ensures Slice(raw, at, at + n) == raw[at..at + n]
  {
  }

  lemma SliceInside(raw: seq<Byte>, at: nat, n: nat, lo: nat, hi: nat)
    requires lo <= hi <= n && at + n <= |raw|
    ensures Slice(raw[at..at + n], lo, hi) == raw[at + lo..at + hi]
  {
    var h := raw[at..at + n];
    assert Bound(lo, |h|) == lo && Bound(hi, |h|) == hi;
    var a, b := h[lo..hi], raw[at + lo..at + hi];
    forall k | 0 <= k < hi - lo ensures a[k] == b[k] {
      assert a[k] == h[lo + k] == raw[at + lo + k];
    }
    assert a == b;
  }

  /** Past the end of the image there is no block for either reader, nor for `read_block` where a header is cut short. */
  lemma NoHeaderPastTheEnd(raw: seq<Byte>, at: nat, wide: bool)
    ensures at + 2 > |raw| ==> Loose(raw, wide)(at) == Err(BadHeader(at))
    ensures at + 31 > |raw| ==> Strict(raw)(at) == Err(BadHeader(at))
  {
    hide Fields, Slice;
    if at + 2 > |raw| {
      var hl := if wide then 55 else 31;
      CutSlice(raw, at, at + hl, at + 2);
      CutSlice(Slice(raw, at, at + hl), 0, 2, 2);
    }
    if at + 31 > |raw| {
      CutSlice(raw, at, at + 31, at + 31);
      CutSlice(Slice(raw, at, at + 31), 29, 31, 31);
    }
  }

  lemma CutSlice(s: seq<Byte>, lo: nat, hi: nat, n: nat)
    requires lo < n <= hi && |s| < n
    ensures |Slice(s, lo, hi)| < n - lo
  {
  }

  // ---- opening

  /** An image is refused exactly when it starts with neither mark and no 64-bit container is found behind a preamble. */
  lemma OpenRefusals(raw: seq<Byte>, primary: bool)
    ensures Open(raw, primary) == Err(NotAContainer) <==> BaseOf(raw, primary) == 0 && !(W15 <= raw) && !(W16 <= raw)
    ensures Open(raw, primary).Ok? && BaseOf(raw, primary) == 0 ==> (Open(raw, primary).value.wide <==> W16 <= raw)
  {
    StartsWith(raw, W16);
    StartsWith(raw, W15);
    assert Slice(raw, 0, |raw|) == raw;
    if primary && Take(raw, 8) != W16 {
      MarkStands(raw, 0, 0x10000);
    }
  }

  lemma StartsWith(raw: seq<Byte>, mark: seq<Byte>)
    ensures Take(raw, |mark|) == mark <==> mark <= raw
  {
  }

  lemma {:induction false} MarkStands(raw: seq<Byte>, i: nat, limit: nat)
    ensures FindMark(raw, i, limit).Some? ==>
              var k := FindMark(raw, i, limit).value;
              i <= k && k + 8 <= |raw| && Take(Slice(raw, k, |raw|), 8) == W16
    decreases |raw| - i
  {
    if i + 8 <= |raw| && i + 8 <= limit && raw[i..i + 8] != W16 {
      MarkStands(raw, i + 1, limit);
    }
  }

  // ---- along a chain

  /** All bytes of some blocks. */
  function Joined(ps: seq<Piece>): seq<Byte> {
    if ps == [] then [] else ps[0].bytes + Joined(ps[1..])
  }

  /** The address behind blocks `ps` that follow each other from `at`. */
  function Behind(at: int, ps: seq<Piece>): int
    decreases |ps|
  {
    if ps == [] then at else Behind(ps[0].next, ps[1..])
  }

  /** `ps` follow each other from `at`; none ends the chain or completes the `size` bytes, `got` of which came before. */
  predicate NotEnough(step: Steps, wide: bool, at: int, got: nat, size: int, ps: seq<Piece>)
    decreases |ps|
  {
    ps != [] ==>
      && step(at) == Ok(ps[0]) && !IsEnd(ps[0].next, wide) && got + |ps[0].bytes| < size
      && NotEnough(step, wide, ps[0].next, got + |ps[0].bytes|, size, ps[1..])
  }

  /** The length that counts: that of the first block. */
  predicate IsSize(step: Steps, at: int, total: Option<int>, size: int) {
    if total.Some? then total.value == size else step(at).Ok? ==> step(at).value.doc == size
  }

  lemma {:induction false} GoesOn(step: Steps, wide: bool, at: int, out: seq<Byte>, total: Option<int>, size: int,
                                  fuel: nat, ps: seq<Piece>)
    requires IsSize(step, at, total, size) && |ps| <= fuel && NotEnough(step, wide, at, |out|, size, ps)
    ensures EarlyStop(step, wide, at, out, total, fuel)
         == EarlyStop(step, wide, Behind(at, ps), out + Joined(ps), if ps == [] then total else Some(size), fuel - |ps|)
    decreases fuel
  {
    if ps == [] {
      assert out + Joined(ps) == out;
    } else {
      GoesOn(step, wide, ps[0].next, out + ps[0].bytes, Some(size), size, fuel - 1, ps[1..]);
      assert out + ps[0].bytes + Joined(ps[1..]) == out + Joined(ps);
    }
  }

  /** Reading goes through some blocks that are not enough, and then stops for one reason or another. */
  lemma {:induction false} Through(step: Steps, wide: bool, at: int, got: nat, total: Option<int>, size: int, fuel: nat)
    returns (ps: seq<Piece>)
    requires IsSize(step, at, total, size)
    ensures |ps| <= fuel && NotEnough(step, wide, at, got, size, ps)
    ensures |ps| == fuel || step(Behind(at, ps)).Err?
         || IsEnd(step(Behind(at, ps)).value.next, wide)
         || got + |Joined(ps)| + |step(Behind(at, ps)).value.bytes| >= size
    decreases fuel
  {
    ps := [];
    if fuel > 0 && step(at).Ok? && !IsEnd(step(at).value.next, wide) && got + |step(at).value.bytes| < size {
      var p := step(at).value;
      var rest := Through(step, wide, p.next, got + |p.bytes|, Some(size), size, fuel - 1);
      ps := [p] + rest;
      assert ps[1..] == rest;
    }
  }

  /** Where reading stops: behind blocks that are not enough, at one that is, or that cannot be read. */
  ghost predicate StopsBehind(step: Steps, wide: bool, at: int, size: int, ps: seq<Piece>, r: Outcome<seq<Byte>>) {
    && NotEnough(step, wide, at, 0, size, ps)
    && match step(Behind(at, ps))
       case Err(e) => r == Raised(e)
       case Ok(p) =>
         && (IsEnd(p.next, wide) || |Joined(ps)| + |p.bytes| >= size)
         && r == Done(Take(Joined(ps) + p.bytes, size))
  }

  /**
   * `V8.block` raises or returns what it does exactly when, after fewer blocks than the bound that are neither last nor
   * enough, there is a block it cannot read, or one that is last or enough. Nothing it read before matters to the exception.
   */
  lemma BlockIff(step: Steps, wide: bool, at: int, size: int, fuel: nat, r: Outcome<seq<Byte>>)
    requires IsSize(step, at, None, size)
    ensures EarlyStop(step, wide, at, [], None, fuel) == r && !r.OutOfFuel?
       <==> exists ps :: |ps| < fuel && StopsBehind(step, wide, at, size, ps, r)
  {
    var answer := EarlyStop(step, wide, at, [], None, fuel);
    var ps := Through(step, wide, at, 0, None, size, fuel);
    GoesOn(step, wide, at, [], None, size, fuel, ps);
    if |ps| < fuel {
      LastTurn(step, wide, at, size, fuel, ps);
      assert StopsBehind(step, wide, at, size, ps, answer);
    }
    forall qs | |qs| < fuel && StopsBehind(step, wide, at, size, qs, r) ensures answer == r {
      GoesOn(step, wide, at, [], None, size, fuel, qs);
      LastTurn(step, wide, at, size, fuel, qs);
    }
  }

  lemma LastTurn(step: Steps, wide: bool, at: int, size: int, fuel: nat, ps: seq<Piece>)
    requires |ps| < fuel && IsSize(step, at, None, size) && NotEnough(step, wide, at, 0, size, ps)
    ensures var next, r := step(Behind(at, ps)),
                           EarlyStop(step, wide, Behind(at, ps), [] + Joined(ps), if ps == [] then None else Some(size), fuel - |ps|);
            && (next.Err? ==> r == Raised(next.error))
            && (next.Ok? && (IsEnd(next.value.next, wide) || |Joined(ps)| + |next.value.bytes| >= size) ==>
                  r == Done(Take(Joined(ps) + next.value.bytes, size)))
  {
    assert [] + Joined(ps) == Joined(ps);
  }

  /** `ps` follow each other from `at`, and the chain has not ended before any of them. */
  predicate Followed(step: Steps, at: int, ps: seq<Piece>)
    decreases |ps|
  {
    ps != [] ==> at != END && step(at) == Ok(ps[0]) && Followed(step, ps[0].next, ps[1..])
  }

  lemma {:induction false} LinksOn(step: Steps, at: int, out: seq<Byte>, total: Option<int>, size: int, fuel: nat, ps: seq<Piece>)
    requires IsSize(step, at, total, size) && |ps| <= fuel && Followed(step, at, ps)
    ensures FullChain(step, at, out, total, fuel)
         == FullChain(step, Behind(at, ps), out + Joined(ps), if ps == [] then total else Some(size), fuel - |ps|)
    decreases fuel
  {
    if ps == [] {
      assert out + Joined(ps) == out;
    } else {
      LinksOn(step, ps[0].next, out + ps[0].bytes, Some(size), size, fuel - 1, ps[1..]);
      assert out + ps[0].bytes + Joined(ps[1..]) == out + Joined(ps);
    }
  }

  lemma {:induction false} AllLinks(step: Steps, at: int, fuel: nat) returns (ps: seq<Piece>)
    ensures |ps| <= fuel && Followed(step, at, ps)
    ensures Behind(at, ps) == END || |ps| == fuel || step(Behind(at, ps)).Err?
    decreases fuel
  {
    ps := [];
    if at != END && fuel > 0 && step(at).Ok? {
      var rest := AllLinks(step, step(at).value.next, fuel - 1);
      ps := [step(at).value] + rest;
      assert ps[1..] == rest;
    }
  }

  /** Where `read_block` stops: behind the last block of the chain, or at one it cannot read. */
  ghost predicate EndsBehind(step: Steps, at: int, size: int, fuel: nat, ps: seq<Piece>, r: Outcome<seq<Byte>>) {
    && Followed(step, at, ps)
    && if Behind(at, ps) == END then r == Done(if ps == [] then [] else Take(Joined(ps), size))
       else |ps| < fuel && step(Behind(at, ps)).Err? && r == Raised(step(Behind(at, ps)).error)
  }

  lemma ChainEnds(step: Steps, at: int, size: int, fuel: nat, ps: seq<Piece>, r: Outcome<seq<Byte>>)
    requires IsSize(step, at, None, size) && |ps| <= fuel && EndsBehind(step, at, size, fuel, ps, r)
    ensures FullChain(step, at, [], None, fuel) == r
  {
    LinksOn(step, at, [], None, size, fuel, ps);
    assert [] + Joined(ps) == Joined(ps);
  }

  /** `read_block` follows every block to the end of the chain, and raises what the first block raises that it cannot read. */
  lemma ReadBlockIff(step: Steps, at: int, size: int, fuel: nat, r: Outcome<seq<Byte>>)
    requires IsSize(step, at, None, size)
    ensures FullChain(step, at, [], None, fuel) == r && !r.OutOfFuel?
       <==> exists ps :: |ps| <= fuel && EndsBehind(step, at, size, fuel, ps, r)
  {
    var answer := FullChain(step, at, [], None, fuel);
    var ps := AllLinks(step, at, fuel);
    LinksOn(step, at, [], None, size, fuel, ps);
    assert [] + Joined(ps) == Joined(ps);
    if !answer.OutOfFuel? {
      assert EndsBehind(step, at, size, fuel, ps, answer);
    }
    forall qs | |qs| <= fuel && EndsBehind(step, at, size, fuel, qs, r) ensures answer == r {
      ChainEnds(step, at, size, fuel, qs, r);
    }
  }

  // ---- down a table of contents

  function RowSize(wide: bool): nat {
    if wide then 24 else 12
  }

  /** Number `n` of the addresses a table gives: header and body of the first element, of the second, and so on. */
  function AddressNo(toc: seq<Byte>, wide: bool, n: nat): nat
    requires n / 2 < |toc| / RowSize(wide)
  {
    if wide then
      var at := 24 * (n / 2) + 8 * (n % 2);
      FromLe(toc[at..at + 8])
    else
      var at := 12 * (n / 2) + 4 * (n % 2);
      FromLe(toc[at..at + 4])
  }

  predicate SameFailure<S, T>(r: Outcome<S>, s: Outcome<T>) {
    match r
    case Done(_) => false
    case Raised(e) => s.Raised? && s.error == e
    case OutOfFuel => s.OutOfFuel?
  }

  /** How many parts in front are done. */
  function DoneInFront<T>(parts: seq<Outcome<T>>): (n: nat)
    ensures n <= |parts| && (n < |parts| ==> !parts[n].Done?)
    ensures forall i :: 0 <= i < n ==> parts[i].Done?
  {
    if parts == [] || !parts[0].Done? then 0 else 1 + DoneInFront(parts[1..])
  }

  /** All values in order, or the failure of the first part that failed. */
  ghost predicate Gathers<T>(parts: seq<Outcome<T>>, r: Outcome<seq<T>>) {
    var n := DoneInFront(parts);
    if n < |parts| then SameFailure(parts[n], r)
    else r.Done? && |r.value| == |parts| && forall i :: 0 <= i < |parts| ==> r.value[i] == parts[i].value
  }

  lemma GathersMore<T>(x: Outcome<T>, parts: seq<Outcome<T>>, rest: Outcome<seq<T>>, r: Outcome<seq<T>>)
    requires Gathers(parts, rest)
    requires if !x.Done? then SameFailure(x, r)
             else if rest.Done? then r.Done? && r.value == [x.value] + rest.value else SameFailure(rest, r)
    ensures Gathers([x] + parts, r)
  {
    var all := [x] + parts;
    assert all[1..] == parts;
    if x.Done? {
      var n := DoneInFront(parts);
      assert DoneInFront(all) == 1 + n;
      assert n < |parts| ==> all[n + 1] == parts[n];
    }
  }

  lemma RowOfTable(toc: seq<Byte>, wide: bool, k: nat)
    requires k < |toc| / RowSize(wide)
    ensures RowSize(wide) * (k + 1) <= |toc|
    ensures var off := RowSize(wide) * k;
            && AddressNo(toc, wide, 2 * k) == (if wide then U64At(toc, off) else U32At(toc, off))
            && AddressNo(toc, wide, 2 * k + 1) == (if wide then U64At(toc, off + 8) else U32At(toc, off + 4))
  {
    assert (2 * k) / 2 == k && (2 * k) % 2 == 0 && (2 * k + 1) / 2 == k && (2 * k + 1) % 2 == 1;
  }

  lemma NoMoreRows(toc: seq<Byte>, wide: bool)
    ensures RowSize(wide) * (|toc| / RowSize(wide)) + RowSize(wide) > |toc|
  {
  }

  /** Element number `k` as `V8` lists it: its name, from the header, and then its body. */
  function EntryNo(v8: V8, toc: seq<Byte>, k: nat, inflate: seq<Byte> -> Option<seq<Byte>>, fuel: nat): Outcome<Entry>
    requires k < |toc| / RowSize(v8.wide)
  {
    var header :- Block(v8.raw, v8.wide, AddressNo(toc, v8.wide, 2 * k), fuel);
    var blob :- Block(v8.raw, v8.wide, AddressNo(toc, v8.wide, 2 * k + 1), fuel);
    Done((NameOf(header), BodyOf(blob, inflate)))
  }

  /** The elements from number `k` on. */
  function EntriesNo(v8: V8, toc: seq<Byte>, k: nat, inflate: seq<Byte> -> Option<seq<Byte>>, fuel: nat): (es: seq<Outcome<Entry>>)
    requires k <= |toc| / RowSize(v8.wide)
    ensures |es| == |toc| / RowSize(v8.wide) - k
  {
    seq(|toc| / RowSize(v8.wide) - k, i requires 0 <= i < |toc| / RowSize(v8.wide) - k => EntryNo(v8, toc, k + i, inflate, fuel))
  }

  lemma NextEntry(v8: V8, toc: seq<Byte>, k: nat, inflate: seq<Byte> -> Option<seq<Byte>>, fuel: nat)
    requires k < |toc| / RowSize(v8.wide)
    ensures EntriesNo(v8, toc, k, inflate, fuel) == [EntryNo(v8, toc, k, inflate, fuel)] + EntriesNo(v8, toc, k + 1, inflate, fuel)
  {
    hide EntryNo, RowSize;
  }

  lemma {:induction false} RowsFrom(v8: V8, toc: seq<Byte>, k: nat, inflate: seq<Byte> -> Option<seq<Byte>>, fuel: nat)
    requires k <= |toc| / RowSize(v8.wide)
    ensures Gathers(EntriesNo(v8, toc, k, inflate, fuel), EntriesFrom(v8, toc, RowSize(v8.wide) * k, inflate, fuel))
    decreases |toc| / RowSize(v8.wide) - k
  {
    hide Block, NameOf, BodyOf, AddressNo, U32At, U64At, Gathers, EntriesNo;
    if k == |toc| / RowSize(v8.wide) {
      NoMoreRows(toc, v8.wide);
      NothingGathered<Entry>();
    } else {
      RowOfTable(toc, v8.wide, k);
      NextEntry(v8, toc, k, inflate, fuel);
      RowsFrom(v8, toc, k + 1, inflate, fuel);
      GathersMore(EntryNo(v8, toc, k, inflate, fuel), EntriesNo(v8, toc, k + 1, inflate, fuel),
                  EntriesFrom(v8, toc, RowSize(v8.wide) * (k + 1), inflate, fuel),
                  EntriesFrom(v8, toc, RowSize(v8.wide) * k, inflate, fuel));
    }
  }

  lemma NothingGathered<T>()
    ensures Gathers<T>([], Done([]))
  {
  }

  /** Every row of the table, and nothing after the last whole row, in order, header before body; or the first failure. */
  lemma ListingIs(v8: V8, toc: seq<Byte>, inflate: seq<Byte> -> Option<seq<Byte>>, fuel: nat)
    ensures Gathers(EntriesNo(v8, toc, 0, inflate, fuel), EntriesFrom(v8, toc, 0, inflate, fuel))
  {
    RowsFrom(v8, toc, 0, inflate, fuel);
  }

  // ---- the same for the repacking tool

  /** Element number `k` as the repacking tool reads it; an address of 0x7fffffff stands for no data. */
  function ElementNo(raw: seq<Byte>, toc: seq<Byte>, k: nat, fuel: nat): Outcome<R.Element>
    requires k < |toc| / 12
  {
    var header :- ReadBlock(raw, AddressNo(toc, false, 2 * k), fuel);
    if AddressNo(toc, false, 2 * k + 1) == 0x7FFF_FFFF then Done(R.Element(header, None))
    else
      var data :- ReadBlock(raw, AddressNo(toc, false, 2 * k + 1), fuel);
      Done(R.Element(header, Some(data)))
  }

  function ElementsNo(raw: seq<Byte>, toc: seq<Byte>, k: nat, fuel: nat): (es: seq<Outcome<R.Element>>)
    requires k <= |toc| / 12
    ensures |es| == |toc| / 12 - k
  {
    seq(|toc| / 12 - k, i requires 0 <= i < |toc| / 12 - k => ElementNo(raw, toc, k + i, fuel))
  }

  lemma NextElement(raw: seq<Byte>, toc: seq<Byte>, k: nat, fuel: nat)
    requires k < |toc| / 12
    ensures ElementsNo(raw, toc, k, fuel) == [ElementNo(raw, toc, k, fuel)] + ElementsNo(raw, toc, k + 1, fuel)
  {
    hide ElementNo;
  }

  lemma {:induction false} ElementsFrom(raw: seq<Byte>, toc: seq<Byte>, k: nat, fuel: nat)
    requires k <= |toc| / 12
    ensures Gathers(ElementsNo(raw, toc, k, fuel), R.ElementsFrom(raw, toc, 12 * k, fuel))
    decreases |toc| / 12 - k
  {
    hide ReadBlock, AddressNo, U32At, U64At, Gathers, ElementsNo;
    if k == |toc| / 12 {
      NothingGathered<R.Element>();
    } else {
      RowOfTable(toc, false, k);
      NextElement(raw, toc, k, fuel);
      ElementsFrom(raw, toc, k + 1, fuel);
      GathersMore(ElementNo(raw, toc, k, fuel), ElementsNo(raw, toc, k + 1, fuel),
                  R.ElementsFrom(raw, toc, 12 * (k + 1), fuel), R.ElementsFrom(raw, toc, 12 * k, fuel));
    }
  }

  /** The elements of a file are those of its table, in order; or there is the first failure. */
  lemma ElementsAre(raw: seq<Byte>, toc: seq<Byte>, fuel: nat)
    ensures Gathers(ElementsNo(raw, toc, 0, fuel), R.ElementsFrom(raw, toc, 0, fuel))
  {
    ElementsFrom(raw, toc, 0, fuel);
  }

  /** A file too short for its header is refused; a table that cannot be read, or an element, ends the reading. */
  lemma FileIs(buf: seq<Byte>, fuel: nat)
    ensures |buf| < 16 ==> R.ReadFile(buf, fuel) == Raised(ShortRead(0))
    ensures |buf| >= 16 && !ReadBlock(buf, 16, fuel).Done? ==> SameFailure(ReadBlock(buf, 16, fuel), R.ReadFile(buf, fuel))
    ensures |buf| >= 16 && ReadBlock(buf, 16, fuel).Done? ==>
              exists es :: Gathers(ElementsNo(buf, ReadBlock(buf, 16, fuel).value, 0, fuel), es) && IsFile(buf, es, R.ReadFile(buf, fuel))
  {
    hide ReadBlock, Gathers, R.ElementsFrom, ElementsNo, U32At;
    if |buf| >= 16 && ReadBlock(buf, 16, fuel).Done? {
      var toc := ReadBlock(buf, 16, fuel).value;
      ElementsAre(buf, toc, fuel);
      MetaIs(buf);
      var es := R.ElementsFrom(buf, toc, 0, fuel);
      assert Gathers(ElementsNo(buf, toc, 0, fuel), es) && IsFile(buf, es, R.ReadFile(buf, fuel));
    }
  }

  /** Page size, version and last word, then the elements. */
  predicate IsFile(buf: seq<Byte>, es: Outcome<seq<R.Element>>, r: Outcome<(R.Meta, seq<R.Element>)>)
    requires |buf| >= 16
  {
    if es.Done? then r == Done((R.Meta(FromLe(buf[4..8]), FromLe(buf[8..12]), FromLe(buf[12..16])), es.value))
    else SameFailure(es, r)
  }

  lemma MetaIs(buf: seq<Byte>)
    requires |buf| >= 16
    ensures U32At(buf, 4) == FromLe(buf[4..8]) && U32At(buf, 8) == FromLe(buf[8..12]) && U32At(buf, 12) == FromLe(buf[12..16])
  {
  }
}
