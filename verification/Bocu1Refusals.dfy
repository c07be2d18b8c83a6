/** Which BOCU-1 input `decode_bocu1` refuses, with which error, and where: by bytes and by what is accepted before them. */
module Bocu1Refusals {
  import opened Prelude
  import opened Bocu1
  import Bocu1Order

  /** How many trail bytes UTN #6 puts behind a lead byte. */
  function TrailCount(b: Byte): nat {
    if 0x50 <= b < 0xD0 then 0
    else if 0x25 <= b < 0xFB then 1
    else if 0x22 <= b < 0xFE then 2
    else 3
  }

  /** All bytes but thirteen control codes and the space can be trail bytes. */
  predicate IsTrail(b: Byte) {
    !(b == 0x00 || 0x07 <= b <= 0x0F || b == 0x1A || b == 0x1B || b == 0x20)
  }

  predicate IsLead(b: Byte) {
    0x20 < b < 0xFF
  }

  lemma LeadCount(b: Byte)
    requires IsLead(b)
    ensures Lead(b).1 == TrailCount(b)
  {
  }

  lemma TrailIs(b: Byte)
    ensures TrailValue(b) >= 0 <==> IsTrail(b)
  {
  }

  /** Good trail bytes from offset `lo` up to `hi`. */
  predicate TrailsGood(s: seq<Byte>, lo: nat, hi: nat)
    requires hi <= |s|
  {
    forall j :: lo <= j < hi ==> IsTrail(s[j])
  }

  /** Behind an accepted text stands a multi-byte lead, and this is wrong with it. */
  predicate Refuses(s: seq<Byte>, k: nat, e: Error)
    requires k < |s|
  {
    var n := TrailCount(s[k]);
    && IsLead(s[k]) && n > 0 && Decode(s[..k]).Ok?
    && match e
       case Truncated(at) => at == k + 1 && |s| - at < n
       case BadTrail(b, at) => k < at <= k + n < |s| && s[at] == b && !IsTrail(b) && TrailsGood(s, k + 1, at)
       case OutOfRange(at) => at == k + 1 + n <= |s| && TrailsGood(s, k + 1, at) && Decode(s[..at]).Err?
  }

  // ---- one code point

  lemma {:induction false} TrailsFail(s: seq<Byte>, cnt: nat, at: nat, acc: int)
    requires cnt <= |s|
    ensures Trails(s, cnt, at, acc).Ok? <==> TrailsGood(s, 0, cnt)
    ensures forall j :: 0 <= j < cnt && !IsTrail(s[j]) && TrailsGood(s, 0, j) ==> Trails(s, cnt, at, acc) == Err(BadTrail(s[j], at + j))
    ensures Trails(s, cnt, at, acc).Err? ==> exists j :: 0 <= j < cnt && !IsTrail(s[j]) && TrailsGood(s, 0, j)
    decreases cnt
  {
    if cnt > 0 {
      TrailIs(s[0]);
      if IsTrail(s[0]) {
        TrailsFail(s[1..], cnt - 1, at + 1, acc * TC + TrailValue(s[0]));
        GoodBehind(s, cnt);
        forall j | 0 <= j < cnt && !IsTrail(s[j]) && TrailsGood(s, 0, j)
          ensures Trails(s, cnt, at, acc) == Err(BadTrail(s[j], at + j)) {
          GoodBehind(s, j);
          assert s[1..][j - 1] == s[j];
        }
        if j :| 0 <= j < cnt - 1 && !IsTrail(s[1..][j]) && TrailsGood(s[1..], 0, j) {
          GoodBehind(s, j + 1);
        }
      } else {
        assert TrailsGood(s, 0, 0);
      }
    }
  }

  lemma GoodBehind(s: seq<Byte>, n: nat)
    requires 0 < n <= |s| && IsTrail(s[0])
    ensures TrailsGood(s, 0, n) <==> TrailsGood(s[1..], 0, n - 1)
  {
    if TrailsGood(s[1..], 0, n - 1) {
      forall j | 0 <= j < n ensures IsTrail(s[j]) {
        if j > 0 { assert IsTrail(s[1..][j - 1]); }
      }
    }
  }

  /** Why a step fails, by its bytes. */
  lemma StepFails(s: seq<Byte>, at: nat, prev: int, e: Error)
    requires s != []
    ensures var n := TrailCount(s[0]);
            Read(s, at, prev) == Fail(e) <==>
              && IsLead(s[0]) && n > 0
              && match e
                 case Truncated(i) => i == at + 1 && |s| - 1 < n
                 case BadTrail(b, i) => at < i <= at + n < at + |s| && s[i - at] == b && !IsTrail(b) && TrailsGood(s, 1, i - at)
                 case OutOfRange(i) => i == at + 1 + n <= at + |s| && TrailsGood(s, 1, 1 + n) && Read(s, at, prev).Fail?
  {
    if IsLead(s[0]) && TrailCount(s[0]) > 0 && |s| > TrailCount(s[0]) {
      var n := TrailCount(s[0]);
      LeadCount(s[0]);
      TrailsFail(s[1..], n, at + 1, 0);
      forall j | 1 <= j <= 1 + n ensures TrailsGood(s, 1, j) <==> TrailsGood(s[1..], 0, j - 1) {
        Shifted(s, j);
      }
    } else if IsLead(s[0]) {
      LeadCount(s[0]);
    }
  }

  lemma Shifted(s: seq<Byte>, j: nat)
    requires 1 <= j <= |s|
    ensures TrailsGood(s, 1, j) <==> TrailsGood(s[1..], 0, j - 1)
  {
    if TrailsGood(s, 1, j) {
      forall i | 0 <= i < j - 1 ensures IsTrail(s[1..][i]) {
        assert IsTrail(s[i + 1]);
      }
    } else {
      var i :| 1 <= i < j && !IsTrail(s[i]);
      assert !IsTrail(s[1..][i - 1]);
    }
  }

  // ---- a text in parts

  /** Where the reference point is after bytes that are accepted. */
  function PrevAfter(s: seq<Byte>, at: nat, prev: int): int
    requires DecodeFrom(s, at, prev).Ok?
    decreases |s|
  {
    if s == [] then prev
    else match Read(s, at, prev)
      case Emit(_, prev', used) => PrevAfter(s[used..], at + used, prev')
      case Reset => PrevAfter(s[1..], at + 1, ASCII_PREV)
  }

  lemma {:induction false} TrailsAreLocal(s: seq<Byte>, more: seq<Byte>, cnt: nat, at: nat, acc: int)
    requires cnt <= |s|
    ensures Trails(s + more, cnt, at, acc) == Trails(s, cnt, at, acc)
    decreases cnt
  {
    if cnt > 0 {
      assert (s + more)[1..] == s[1..] + more;
      TrailsAreLocal(s[1..], more, cnt - 1, at + 1, acc * TC + TrailValue(s[0]));
    }
  }

  /** A step looks at its own bytes only. */
  lemma ReadIsLocal(s: seq<Byte>, more: seq<Byte>, at: nat, prev: int)
    requires s != []
    ensures !(Read(s, at, prev).Fail? && Read(s, at, prev).error.Truncated?) ==> Read(s + more, at, prev) == Read(s, at, prev)
    ensures Read(s + more, at, prev).Emit? && Read(s + more, at, prev).used <= |s| ==> Read(s + more, at, prev) == Read(s, at, prev)
  {
    assert (s + more)[1..] == s[1..] + more;
    if IsLead(s[0]) && |s| > Lead(s[0]).1 {
      TrailsAreLocal(s[1..], more, Lead(s[0]).1, at + 1, 0);
    }
  }

  function Behind(cs: seq<int>, r: Result<seq<int>, Error>): Result<seq<int>, Error> {
    match r
    case Ok(more) => Ok(cs + more)
    case Err(e) => Err(e)
  }

  lemma ConsBehind(c: int, cs: seq<int>, r: Result<seq<int>, Error>)
    ensures Cons(c, Behind(cs, r)) == Behind([c] + cs, r)
  {
    if r.Ok? {
      assert [c] + (cs + r.value) == [c] + cs + r.value;
    }
  }

  lemma FirstOf(s: seq<Byte>, more: seq<Byte>, at: nat, prev: int)
    requires s != [] && DecodeFrom(s, at, prev).Ok?
    ensures Read(s + more, at, prev) == Read(s, at, prev) && !Read(s, at, prev).Fail?
    ensures var used := if Read(s, at, prev).Emit? then Read(s, at, prev).used else 1;
            1 <= used <= |s| && (s + more)[used..] == s[used..] + more
  {
    hide Read;
    ReadIsLocal(s, more, at, prev);
  }

  /** Accepted bytes are read the same way whatever follows them. */
  lemma {:induction false} GoesOn(s: seq<Byte>, more: seq<Byte>, at: nat, prev: int)
    requires DecodeFrom(s, at, prev).Ok?
    ensures DecodeFrom(s + more, at, prev)
         == Behind(DecodeFrom(s, at, prev).value, DecodeFrom(more, at + |s|, PrevAfter(s, at, prev)))
    decreases |s|
  {
    hide Read;
    if s == [] {
      assert s + more == more;
      NothingBefore(DecodeFrom(more, at, prev));
    } else {
      FirstOf(s, more, at, prev);
      match Read(s, at, prev)
      case Reset => GoesOn(s[1..], more, at + 1, ASCII_PREV);
      case Emit(c, prev', used) =>
        GoesOn(s[used..], more, at + used, prev');
        ConsBehind(c, DecodeFrom(s[used..], at + used, prev').value,
                   DecodeFrom(more, at + |s|, PrevAfter(s[used..], at + used, prev')));
    }
  }

  lemma NothingBefore(r: Result<seq<int>, Error>)
    ensures Behind([], r) == r
  {
    if r.Ok? { assert [] + r.value == r.value; }
  }

  /** Where a text is refused everything before is accepted. */
  lemma {:induction false} StuckAt(s: seq<Byte>, at: nat, prev: int) returns (k: nat)
    requires DecodeFrom(s, at, prev).Err?
    ensures k < |s| && DecodeFrom(s[..k], at, prev).Ok?
    ensures Read(s[k..], at + k, PrevAfter(s[..k], at, prev)) == Fail(DecodeFrom(s, at, prev).error)
    decreases |s|
  {
    hide Read;
    match Read(s, at, prev)
    case Fail(_) =>
      k := 0;
      assert s[0..] == s;
    case Reset =>
      k := StuckAt(s[1..], at + 1, ASCII_PREV);
      StuckLater(s, at, prev, 1, k);
      k := 1 + k;
    case Emit(_, prev', used) =>
      k := StuckAt(s[used..], at + used, prev');
      StuckLater(s, at, prev, used, k);
      k := used + k;
  }

  lemma StuckLater(s: seq<Byte>, at: nat, prev: int, used: nat, k: nat)
    requires s != [] && 1 <= used && used + k < |s| && !Read(s, at, prev).Fail?
    requires used == if Read(s, at, prev).Emit? then Read(s, at, prev).used else 1
    ensures Read(s[..used + k], at, prev) == Read(s, at, prev)
    ensures s[..used + k][used..] == s[used..][..k] && s[used..][k..] == s[used + k..]
  {
    hide TrailValue, Lead, Trails, Prev;
    var front := s[..used + k];
    assert s == front + s[used + k..];
    ReadIsLocal(front, s[used + k..], at, prev);
    if Read(s, at, prev).Reset? {
      assert s[0] == B_RESET && front[0] == B_RESET;
    }
  }

  /** The reader refuses a text exactly there and for that reason: the first code point that cannot be read, and what is wrong. */
  lemma RefusedIff(s: seq<Byte>, e: Error)
    ensures Decode(s) == Err(e) <==> exists k :: 0 <= k < |s| && Refuses(s, k, e)
  {
    hide DecodeFrom, PrevAfter, Refuses, Read;
    if Decode(s) == Err(e) {
      var k := StuckAt(s, 0, ASCII_PREV);
      RefusedAt(s, k, e);
    }
    forall k | 0 <= k < |s| && Refuses(s, k, e) ensures Decode(s) == Err(e) {
      AcceptedBefore(s, k, e);
      RefusedAt(s, k, e);
      GoesOn(s[..k], s[k..], 0, ASCII_PREV);
      assert s == s[..k] + s[k..];
      FailsAtOnce(s[k..], k, PrevAfter(s[..k], 0, ASCII_PREV), e);
    }
  }

  lemma AcceptedBefore(s: seq<Byte>, k: nat, e: Error)
    requires k < |s| && Refuses(s, k, e)
    ensures DecodeFrom(s[..k], 0, ASCII_PREV).Ok?
  {
  }

  lemma FailsAtOnce(s: seq<Byte>, at: nat, prev: int, e: Error)
    requires s != [] && Read(s, at, prev) == Fail(e)
    ensures DecodeFrom(s, at, prev) == Err(e)
  {
    hide Read;
  }

  /** Behind accepted bytes the step fails for a reason exactly when the bytes there give it. */
  lemma RefusedAt(s: seq<Byte>, k: nat, e: Error)
    requires k < |s| && DecodeFrom(s[..k], 0, ASCII_PREV).Ok?
    ensures Read(s[k..], k, PrevAfter(s[..k], 0, ASCII_PREV)) == Fail(e) <==> Refuses(s, k, e)
  {
    hide Read, DecodeFrom, PrevAfter;
    var t, prev, n := s[k..], PrevAfter(s[..k], 0, ASCII_PREV), TrailCount(s[k]);
    StepFails(t, k, prev, e);
    forall j | 1 <= j <= |t| ensures TrailsGood(t, 1, j) <==> TrailsGood(s, k + 1, k + j) {
      GoodInside(s, k, j);
    }
    if IsLead(s[k]) && n > 0 && k + 1 + n <= |s| && TrailsGood(t, 1, 1 + n) {
      OneCodePoint(s, k, prev);
    }
  }

  lemma GoodInside(s: seq<Byte>, k: nat, j: nat)
    requires k < |s| && 1 <= j <= |s| - k
    ensures TrailsGood(s[k..], 1, j) <==> TrailsGood(s, k + 1, k + j)
  {
    if TrailsGood(s[k..], 1, j) {
      forall i | k + 1 <= i < k + j ensures IsTrail(s[i]) {
        assert IsTrail(s[k..][i - k]);
      }
    }
  }

  /** A lead with all its trails is read exactly when the text up to there is accepted. */
  lemma OneCodePoint(s: seq<Byte>, k: nat, prev: int)
    requires k < |s| && IsLead(s[k]) && k + 1 + TrailCount(s[k]) <= |s| && TrailsGood(s[k..], 1, 1 + TrailCount(s[k]))
    requires TrailCount(s[k]) > 0
    requires DecodeFrom(s[..k], 0, ASCII_PREV).Ok? && prev == PrevAfter(s[..k], 0, ASCII_PREV)
    ensures Read(s[k..], k, prev).Fail? <==> Decode(s[..k + 1 + TrailCount(s[k])]).Err?
  {
    hide DecodeFrom, PrevAfter, Prev;
    var n := TrailCount(s[k]);
    var one := s[k..k + 1 + n];
    assert s[..k + 1 + n] == s[..k] + one;
    GoesOn(s[..k], one, 0, ASCII_PREV);
    assert s[k..] == one + s[k + 1 + n..];
    ReadIsLocal(one, s[k + 1 + n..], k, prev);
    LeadCount(s[k]);
    ReadsAll(one, k, prev);
  }

  lemma ReadsAll(one: seq<Byte>, at: nat, prev: int)
    requires one != [] && IsLead(one[0]) && |one| == 1 + Lead(one[0]).1
    ensures DecodeFrom(one, at, prev).Err? <==> Read(one, at, prev).Fail?
    ensures !(Read(one, at, prev).Fail? && Read(one, at, prev).error.Truncated?)
  {
    hide Prev, TrailValue;
    TrailErrors(one[1..], Lead(one[0]).1, at + 1, 0);
  }

  lemma {:induction false} TrailErrors(s: seq<Byte>, cnt: nat, at: nat, acc: int)
    requires cnt <= |s|
    ensures Trails(s, cnt, at, acc).Err? ==> Trails(s, cnt, at, acc).error.BadTrail?
    decreases cnt
  {
    if cnt > 0 {
      TrailErrors(s[1..], cnt - 1, at + 1, acc * TC + TrailValue(s[0]));
    }
  }

  // ---- control codes written as differences

  /** Bytes that say nothing are resets. */
  lemma {:induction false} OnlyResets(s: seq<Byte>, at: nat, prev: int)
    requires s != [] && DecodeFrom(s, at, prev) == Ok([])
    ensures PrevAfter(s, at, prev) == ASCII_PREV
    decreases |s|
  {
    hide Read;
    if Read(s, at, prev).Reset? {
      if s[1..] != [] {
        OnlyResets(s[1..], at + 1, ASCII_PREV);
      }
    }
  }

  /** Behind a control code or a difference-coded space, or behind resets, the reference point is back in Basic Latin. */
  lemma {:induction false} BackInBasicLatin(s: seq<Byte>, at: nat, prev: int)
    requires s != [] && PrevOk(prev) && DecodeFrom(s, at, prev).Ok? && s[|s| - 1] != 0x20
    requires var cs := DecodeFrom(s, at, prev).value; cs != [] ==> cs[|cs| - 1] <= 0x20
    ensures PrevAfter(s, at, prev) == ASCII_PREV
    decreases |s|
  {
    hide Read;
    if DecodeFrom(s, at, prev) == Ok([]) {
      OnlyResets(s, at, prev);
    } else {
      match Read(s, at, prev)
      case Reset => BackInBasicLatin(s[1..], at + 1, ASCII_PREV);
      case Emit(c, prev', used) =>
        LastIsLow(s, at, prev);
        if used < |s| {
          assert s[used..][|s[used..]| - 1] == s[|s| - 1];
          var more := DecodeFrom(s[used..], at + used, prev').value;
          assert more != [] ==> ([c] + more)[|more|] == more[|more| - 1];
          BackInBasicLatin(s[used..], at + used, prev');
        } else {
          assert s[used..] == [];
        }
    }
  }

  lemma LastIsLow(s: seq<Byte>, at: nat, prev: int)
    requires s != [] && PrevOk(prev) && Read(s, at, prev).Emit?
    ensures PrevOk(Read(s, at, prev).prev)
    ensures Read(s, at, prev).used == |s| && Read(s, at, prev).c <= 0x20 && s[|s| - 1] != 0x20 ==>
              Read(s, at, prev).prev == ASCII_PREV
  {
    hide Trails, Lead;
    Bocu1Order.ReadYieldsCodePoint(s, at, prev);
  }

  /**
   * Where a text ends in a control code or a space, what follows is read as at the start, however the code was written,
   * unless it is a space written as itself.
   */
  lemma FollowedAnew(s: seq<Byte>, cs: seq<CodePoint>, c: CodePoint, ds: seq<CodePoint>)
    requires Decode(s) == Ok(cs + [c]) && c <= 0x20 && s[|s| - 1] != 0x20
    ensures Decode(s + Encode(ds)) == Ok(cs + [c] + ds)
  {
    hide DecodeFrom, PrevAfter, EncodeFrom;
    NothingIsEmpty(s);
    BackInBasicLatin(s, 0, ASCII_PREV);
    GoesOn(s, Encode(ds), 0, ASCII_PREV);
    AllInverted(ds, |s|, ASCII_PREV);
  }

  lemma NothingIsEmpty(s: seq<Byte>)
    ensures s == [] ==> Decode(s) == Ok([])
  {
  }
}
