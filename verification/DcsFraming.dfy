/** Document framing and stored-body comparison of `src/dcs_template_audit.rs`. */
module DcsFraming {
  import opened Prelude
  import opened Numbers

  type Bytes = seq<Byte>

  const U64 := 0x1_0000_0000_0000_0000
  /** Longest slice a 64-bit program can hold. */
  const LONGEST := 0x7FFF_FFFF_FFFF_FFFF

  // ---- the frame

  function Concat(ds: seq<Bytes>): Bytes {
    if ds == [] then [] else ds[0] + Concat(ds[1..])
  }

  /** The lengths of all documents but the last. */
  function Table(ds: seq<Bytes>): Bytes {
    if |ds| <= 1 then [] else Le(|ds[0]|, 8) + Table(ds[1..])
  }

  /** Four bytes of head, the number of documents between first and last, the lengths, the documents. */
  function Frame(head: Bytes, ds: seq<Bytes>): Bytes
    requires |ds| >= 2
  {
    head + (Le(|ds| - 2, 4) + (Table(ds) + Concat(ds)))
  }

  // ---- taking it apart

  function Get(plain: Bytes, from: nat, to: nat): Option<Bytes> {
    if from <= to <= |plain| then Some(plain[from..to]) else None
  }

  function Add64(a: nat, b: nat): nat {
    (a + b) % U64
  }

  /** The documents from number `index` on, the next starting at `offset`; the last one takes the rest. */
  function DocsFrom(plain: Bytes, count: nat, index: nat, offset: nat): Option<seq<Bytes>>
    decreases count + 1 - index
  {
    if index > count then
      match Get(plain, offset, |plain|)
      case None => None
      case Some(d) => Some([d])
    else
      match Get(plain, 8 + 8 * index, 16 + 8 * index)
      case None => None
      case Some(length) =>
        var end := Add64(offset, FromLe(length));
        match Get(plain, offset, end)
        case None => None
        case Some(d) =>
          match DocsFrom(plain, count, index + 1, end)
          case None => None
          case Some(ds) => Some([d] + ds)
  }

  function Split(plain: Bytes): Option<seq<Bytes>> {
    match Get(plain, 4, 8)
    case None => None
    case Some(count) => DocsFrom(plain, FromLe(count), 0, 8 + 8 * (FromLe(count) + 1))
  }

  /** `split_documents`: the loop over the length table. */
  method SplitDocuments(plain: Bytes) returns (r: Option<seq<Bytes>>)
    ensures r == Split(plain)
  {
    var head := Get(plain, 4, 8);
    if head.None? {
      return None;
    }
    var count := FromLe(head.value);
    var offset := 8 + 8 * (count + 1);
    var documents: seq<Bytes> := [];
    ghost var whole := DocsFrom(plain, count, 0, offset);
    Prepended(whole);
    for index := 0 to count + 1
      invariant whole == Prepend(documents, DocsFrom(plain, count, index, offset))
    {
      var length := Get(plain, 8 + 8 * index, 16 + 8 * index);
      if length.None? {
        return None;
      }
      var end := Add64(offset, FromLe(length.value));
      var d := Get(plain, offset, end);
      if d.None? {
        return None;
      }
      PrependOne(documents, d.value, DocsFrom(plain, count, index + 1, end));
      documents := documents + [d.value];
      offset := end;
    }
    var rest := Get(plain, offset, |plain|);
    if rest.None? {
      return None;
    }
    return Some(documents + [rest.value]);
  }

  function Prepend(front: seq<Bytes>, r: Option<seq<Bytes>>): Option<seq<Bytes>> {
    match r case None => None case Some(ds) => Some(front + ds)
  }

  lemma Prepended(r: Option<seq<Bytes>>)
    ensures Prepend([], r) == r
  {
    if r.Some? {
      assert [] + r.value == r.value;
    }
  }

  lemma PrependOne(front: seq<Bytes>, d: Bytes, r: Option<seq<Bytes>>)
    ensures Prepend(front + [d], r) == Prepend(front, match r case None => None case Some(ds) => Some([d] + ds))
  {
    if r.Some? {
      assert front + [d] + r.value == front + ([d] + r.value);
    }
  }

  // ---- splitting inverts framing

  lemma {:induction false} FromLeFits(s: Bytes, k: nat)
    requires |s| <= k
    ensures FromLe(s) < Power(k)
    decreases k
  {
    if s != [] {
      FromLeFits(s[1..], k - 1);
    }
  }

  function Power(k: nat): (p: nat)
    ensures p > 0
  {
    if k == 0 then 1 else 0x100 * Power(k - 1)
  }

  lemma Powers()
    ensures Power(4) == U32 && Power(8) == U64
  {
    assert Power(0) == 1;
    assert Power(1) == 0x100;
    assert Power(2) == 0x1_0000;
    assert Power(3) == 0x100_0000;
    assert Power(4) == 0x1_0000_0000;
    assert Power(5) == 0x100_0000_0000;
    assert Power(6) == 0x1_0000_0000_0000;
    assert Power(7) == 0x100_0000_0000_0000;
  }

  lemma {:induction false} SmallFits(n: nat, k: nat)
    requires n < Power(k)
    ensures BytesFit(n, k)
    decreases k
  {
    if k > 0 {
      SmallFits(n / 0x100, k - 1);
    }
  }

  /** A length fills eight bytes, and eight bytes are a length. */
  lemma LengthIsRead(n: nat, s: Bytes)
    requires n < U64 && |s| == 8
    ensures FromLe(s) < U64
    ensures FromLe(s) == n <==> s == Le(n, 8)
  {
    Powers();
    SmallFits(n, 8);
    LeIsRead(n, 8);
    LeIsWritten(s);
    FromLeFits(s, 8);
  }

  /** A document ends where its length says exactly when that many bytes are left; wrapping round never helps. */
  lemma DocumentIsCut(plain: Bytes, offset: nat, length: nat)
    requires |plain| <= LONGEST && offset <= LONGEST && length < U64
    ensures Get(plain, offset, Add64(offset, length))
         == if offset + length <= |plain| then Some(plain[offset..offset + length]) else None
    ensures offset + length <= |plain| ==> Add64(offset, length) == offset + length
  {
  }

  /** `ds` are the documents from number `index` on: the rest of the table and the rest of the bytes say so. */
  ghost predicate Remain(plain: Bytes, count: nat, index: nat, offset: nat, ds: seq<Bytes>)
    requires index <= count + 1
  {
    && |ds| == count + 2 - index
    && 16 + 8 * count <= |plain| && offset <= |plain|
    && plain[8 + 8 * index..16 + 8 * count] == Table(ds)
    && plain[offset..] == Concat(ds)
  }

  lemma TableCons(d: Bytes, ds: seq<Bytes>)
    requires ds != []
    ensures Table([d] + ds) == Le(|d|, 8) + Table(ds) && Concat([d] + ds) == d + Concat(ds)
  {
    assert ([d] + ds)[1..] == ds;
  }

  lemma LastRemains(plain: Bytes, count: nat, offset: nat, ds: seq<Bytes>)
    requires 16 + 8 * count <= |plain|
    ensures DocsFrom(plain, count, count + 1, offset) == Some(ds) <==> Remain(plain, count, count + 1, offset, ds)
  {
    if |ds| == 1 {
      assert ds == [ds[0]] && ds[1..] == [];
      assert Concat(ds) == ds[0] + [] == ds[0];
    }
    assert plain[16 + 8 * count..16 + 8 * count] == [];
    assert offset <= |plain| ==> plain[offset..|plain|] == plain[offset..];
  }

  /** One document more: what the table and the bytes say of it, and of the rest. */
  lemma OneRemains(plain: Bytes, count: nat, index: nat, offset: nat, ds: seq<Bytes>)
    requires index <= count && 16 + 8 * count <= |plain| && |ds| >= 2
    ensures Remain(plain, count, index, offset, ds) <==>
            && |ds| == count + 2 - index
            && plain[8 + 8 * index..16 + 8 * index] == Le(|ds[0]|, 8)
            && offset + |ds[0]| <= |plain| && plain[offset..offset + |ds[0]|] == ds[0]
            && Remain(plain, count, index + 1, offset + |ds[0]|, ds[1..])
  {
    hide Le, Table, Concat;
    var d, rest := ds[0], ds[1..];
    assert ds == [d] + rest;
    TableCons(d, rest);
    CutAt(plain, 8 + 8 * index, 16 + 8 * index, 16 + 8 * count, Le(|d|, 8), Table(rest));
    if offset + |d| <= |plain| {
      CutAt(plain, offset, offset + |d|, |plain|, d, Concat(rest));
      assert plain[offset..] == plain[offset..|plain|] && plain[offset + |d|..] == plain[offset + |d|..|plain|];
    }
  }

  /** A stretch is the one text after the other exactly when its two parts are. */
  lemma CutAt(plain: Bytes, i: nat, j: nat, k: nat, x: Bytes, y: Bytes)
    requires i <= j <= k <= |plain| && j - i == |x|
    ensures plain[i..k] == x + y <==> plain[i..j] == x && plain[j..k] == y
  {
    assert plain[i..k] == plain[i..j] + plain[j..k];
    TwoParts(plain[i..j], plain[j..k], x, y);
  }

  lemma TwoParts<T>(a: seq<T>, b: seq<T>, c: seq<T>, d: seq<T>)
    requires |a| == |c|
    ensures a + b == c + d <==> a == c && b == d
  {
    if a + b == c + d {
      assert (a + b)[..|a|] == a && (c + d)[..|a|] == c;
      assert (a + b)[|a|..] == b && (c + d)[|a|..] == d;
    }
  }

  lemma {:induction false} DocsRemain(plain: Bytes, count: nat, index: nat, offset: nat, ds: seq<Bytes>)
    requires |plain| <= LONGEST && offset <= LONGEST && index <= count + 1 && 16 + 8 * count <= |plain|
    ensures DocsFrom(plain, count, index, offset) == Some(ds) <==> Remain(plain, count, index, offset, ds)
    decreases count + 1 - index
  {
    hide Remain, FromLe, Le, Add64, DocsFrom;
    if index == count + 1 {
      LastRemains(plain, count, offset, ds);
    } else if |ds| < 2 {
      TooFew(plain, count, index, offset, ds);
    } else {
      var row := plain[8 + 8 * index..16 + 8 * index];
      LengthIsRead(0, row);
      DocsStep(plain, count, index, offset);
      OneRemains(plain, count, index, offset, ds);
      if |ds[0]| <= |plain| {
        LengthIsRead(|ds[0]|, row);
      }
      if offset + FromLe(row) <= |plain| {
        DocsRemain(plain, count, index + 1, offset + FromLe(row), ds[1..]);
        var inner := DocsFrom(plain, count, index + 1, offset + FromLe(row));
        DocsCount(plain, count, index + 1, offset + FromLe(row));
        if inner.Some? {
          FirstAndRest(plain[offset..offset + FromLe(row)], inner.value, ds);
        }
      }
    }
  }

  lemma DocsStep(plain: Bytes, count: nat, index: nat, offset: nat)
    requires |plain| <= LONGEST && offset <= LONGEST && index <= count && 16 + 8 * count <= |plain|
    ensures var length := FromLe(plain[8 + 8 * index..16 + 8 * index]);
            DocsFrom(plain, count, index, offset)
            == if offset + length > |plain| then None
               else match DocsFrom(plain, count, index + 1, offset + length)
                 case None => None
                 case Some(rest) => Some([plain[offset..offset + length]] + rest)
  {
    hide FromLe, Add64;
    var row := plain[8 + 8 * index..16 + 8 * index];
    LengthIsRead(0, row);
    DocumentIsCut(plain, offset, FromLe(row));
  }

  lemma FirstAndRest(d: Bytes, rest: seq<Bytes>, ds: seq<Bytes>)
    requires ds != []
    ensures [d] + rest == ds <==> d == ds[0] && rest == ds[1..]
  {
    if [d] + rest == ds {
      assert ([d] + rest)[1..] == rest;
    }
    assert ds == [ds[0]] + ds[1..];
  }

  lemma {:induction false} DocsCount(plain: Bytes, count: nat, index: nat, offset: nat)
    requires index <= count + 1
    ensures var r := DocsFrom(plain, count, index, offset); r.Some? ==> |r.value| == count + 2 - index
    decreases count + 1 - index
  {
    if index <= count {
      var length := Get(plain, 8 + 8 * index, 16 + 8 * index);
      if length.Some? {
        DocsCount(plain, count, index + 1, Add64(offset, FromLe(length.value)));
      }
    }
  }

  lemma TooFew(plain: Bytes, count: nat, index: nat, offset: nat, ds: seq<Bytes>)
    requires index <= count && |ds| < 2
    ensures DocsFrom(plain, count, index, offset) != Some(ds) && !Remain(plain, count, index, offset, ds)
  {
    DocsCount(plain, count, index, offset);
  }

  lemma CountIsRead(plain: Bytes, n: nat)
    requires |plain| >= 8 && n < U32
    ensures FromLe(plain[4..8]) < U32
    ensures FromLe(plain[4..8]) == n <==> plain[4..8] == Le(n, 4)
  {
    Powers();
    Le4(n);
    LeIsWritten(plain[4..8]);
    FromLeFits(plain[4..8], 4);
  }

  lemma {:induction false} TableLength(ds: seq<Bytes>)
    ensures |Table(ds)| == if |ds| <= 1 then 0 else 8 * (|ds| - 1)
  {
    if |ds| > 1 {
      TableLength(ds[1..]);
    }
  }

  lemma FrameParts(plain: Bytes, ds: seq<Bytes>)
    requires |ds| >= 2 && |plain| >= 8 * |ds|
    ensures plain == Frame(plain[..4], ds)
            <==> plain[4..8] == Le(|ds| - 2, 4) && plain[8..8 * |ds|] == Table(ds) && plain[8 * |ds|..] == Concat(ds)
  {
    hide Le, Table, Concat, Frame;
    TableLength(ds);
    Cut(plain, 8 * |ds|);
    FourParts(plain[..4], plain[4..8], plain[8..8 * |ds|], plain[8 * |ds|..], Le(|ds| - 2, 4), Table(ds), Concat(ds));
    FrameIs(plain[..4], ds);
  }

  lemma FrameIs(head: Bytes, ds: seq<Bytes>)
    requires |ds| >= 2
    ensures Frame(head, ds) == head + (Le(|ds| - 2, 4) + (Table(ds) + Concat(ds)))
  {
    hide Le, Table, Concat;
  }

  lemma Cut(plain: Bytes, n: nat)
    requires 8 <= n <= |plain|
    ensures plain == plain[..4] + (plain[4..8] + (plain[8..n] + plain[n..]))
  {
  }

  lemma FourParts(a: Bytes, b: Bytes, c: Bytes, d: Bytes, x: Bytes, y: Bytes, z: Bytes)
    requires |b| == |x| && |c| == |y|
    ensures a + (b + (c + d)) == a + (x + (y + z)) <==> b == x && c == y && d == z
  {
    TwoParts(a, b + (c + d), a, x + (y + z));
    TwoParts(b, c + d, x, y + z);
    TwoParts(c, d, y, z);
  }

  /**
   * Splitting undoes framing and nothing else: it gives `ds` exactly when the bytes are four bytes of anything and
   * then the count, the lengths and the documents of `ds`, of which there are at least two.
   */
  lemma SplitInvertsFrame(plain: Bytes, ds: seq<Bytes>)
    requires |plain| <= LONGEST
    ensures Split(plain) == Some(ds) <==>
            |plain| >= 4 && 2 <= |ds| < U32 + 2 && plain == Frame(plain[..4], ds)
  {
    hide DocsFrom, FromLe, Le, Table, Concat;
    if |plain| < 8 {
      assert |plain| >= 4 && |ds| >= 2 ==> |Frame(plain[..4], ds)| >= 8;
    } else {
      CountIsRead(plain, 0);
      var count := FromLe(plain[4..8]);
      if |plain| < 16 + 8 * count {
        ShortTable(plain, count, 0, 16 + 8 * count);
        FrameIsLong(plain, count, ds);
      } else {
        DocsRemain(plain, count, 0, 16 + 8 * count, ds);
        if 2 <= |ds| < U32 + 2 {
          CountIsRead(plain, |ds| - 2);
          TableLength(ds);
          if |plain| >= 8 * |ds| {
            FrameParts(plain, ds);
          }
        }
      }
    }
  }

  /** A table cut short is noticed. */
  lemma {:induction false} ShortTable(plain: Bytes, count: nat, index: nat, offset: nat)
    requires |plain| < 16 + 8 * count && index <= count && |plain| <= LONGEST && 16 + 8 * count <= offset
    ensures DocsFrom(plain, count, index, offset).None?
  {
    hide FromLe;
    if index < count {
      var row := Get(plain, 8 + 8 * index, 16 + 8 * index);
      if row.Some? {
        assert Get(plain, offset, Add64(offset, FromLe(row.value))).None?;
      }
    }
  }

  /** A frame names its count and has room for its table. */
  lemma FrameSays(plain: Bytes, ds: seq<Bytes>)
    requires 2 <= |ds| < U32 + 2 && |plain| >= 8 && plain == Frame(plain[..4], ds)
    ensures FromLe(plain[4..8]) == |ds| - 2 && |plain| >= 8 * |ds|
  {
    hide FromLe, Le;
    TableLength(ds);
    CountIsRead(plain, |ds| - 2);
    FrameParts(plain, ds);
  }

  lemma FrameIsLong(plain: Bytes, count: nat, ds: seq<Bytes>)
    requires |plain| >= 8 && count == FromLe(plain[4..8]) && |plain| < 16 + 8 * count
    ensures 2 <= |ds| < U32 + 2 ==> plain != Frame(plain[..4], ds)
  {
    hide FromLe, Frame;
    if 2 <= |ds| < U32 + 2 && plain == Frame(plain[..4], ds) {
      FrameSays(plain, ds);
    }
  }
}
