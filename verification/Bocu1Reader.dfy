/** `decode_bocu1` as its two loops, proved to compute `Bocu1.Decode`. */
module Bocu1Reader {
  import opened Prelude
  import opened Bocu1
  import opened Bocu1Order

  function Append(out: seq<int>, r: Result<seq<int>, Error>): Result<seq<int>, Error> {
    match r
    case Ok(cs) => Ok(out + cs)
    case Err(e) => Err(e)
  }

  lemma AppendEmit(data: seq<Byte>, i: nat, prev: int, out: seq<int>, c: int, prev': int, j: nat)
    requires i < j <= |data| && Read(data[i..], i, prev) == Emit(c, prev', j - i)
    ensures Append(out, DecodeFrom(data[i..], i, prev)) == Append(out + [c], DecodeFrom(data[j..], j, prev'))
  {
    hide Read;
    assert data[i..][j - i..] == data[j..];
    var rest := DecodeFrom(data[j..], j, prev');
    if rest.Ok? {
      assert out + ([c] + rest.value) == out + [c] + rest.value;
    }
  }

  /** The inner loop: `cnt` trail bytes from offset `i` on, added to `diff` with falling powers of 243. */
  method ReadTrails(data: seq<Byte>, i: nat, diff: int, cnt: nat) returns (r: Result<int, Error>)
    requires i + cnt <= |data| && cnt <= 3
    ensures r == match Trails(data[i..], cnt, i, 0)
                 case Ok(v) => Ok(diff + v)
                 case Err(e) => Err(e)
  {
    var sum, j, k := diff, i, cnt;
    ghost var acc := 0;
    while k > 0
      invariant 0 <= k <= cnt && j == i + cnt - k
      invariant sum == diff + Scaled(acc, k)
      invariant Trails(data[i..], cnt, i, 0) == Trails(data[j..], k, j, acc)
    {
      var t := data[j];
      TrailValueIsTable(t);
      var tv := if t <= 0x20 then TRAIL_CTL[t] else t - (B_MIN - 20);
      if tv < 0 {
        return Err(BadTrail(t, j));
      }
      ScaledStep(acc, tv, k);
      assert data[j..][1..] == data[j + 1..];
      sum := sum + tv * (if k == 3 then TC * TC else if k == 2 then TC else 1);
      acc := acc * TC + tv;
      j, k := j + 1, k - 1;
    }
    return Ok(sum);
  }

  lemma ScaledStep(acc: int, tv: int, k: nat)
    requires 1 <= k <= 3
    ensures Scaled(acc * TC + tv, k - 1) == Scaled(acc, k) + tv * (if k == 3 then TC * TC else if k == 2 then TC else 1)
  {
    ScaledByUpTo3(acc);
    ScaledByUpTo3(acc * TC + tv);
  }

  /** The multi-byte branch: the lead at `i - 1` is already taken; gives the code point and the next offset. */
  method ReadMultiByte(data: seq<Byte>, i: nat, prev: int) returns (r: Result<(int, nat), Error>)
    requires 1 <= i <= |data| && B_MIN <= data[i - 1] < B_RESET && !(S_NEG2 <= data[i - 1] < S_POS2)
    ensures match r
            case Ok((c, j)) => i < j <= |data| && Read(data[i - 1..], i - 1, prev) == Emit(c, Prev(c), j - (i - 1))
            case Err(e) => Read(data[i - 1..], i - 1, prev) == Fail(e)
  {
    var b, diff, cnt := data[i - 1], 0, 0;
    if b >= S_NEG2 {
      if b < S_POS3 { diff, cnt := (b - S_POS2) * TC + R_POS1 + 1, 1; }
      else if b < S_POS4 { diff, cnt := (b - S_POS3) * TC * TC + R_POS2 + 1, 2; }
      else { diff, cnt := R_POS3 + 1, 3; }
    } else {
      if b >= S_NEG3 { diff, cnt := (b - S_NEG2) * TC + R_NEG1, 1; }
      else if b > B_MIN { diff, cnt := (b - S_NEG3) * TC * TC + R_NEG2, 2; }
      else { diff, cnt := -TC * TC * TC + R_NEG3, 3; }
    }
    assert (diff, cnt) == Lead(b) && data[i - 1..][1..] == data[i..];
    if i + cnt > |data| { return Err(Truncated(i)); }
    var total := ReadTrails(data, i, diff, cnt);
    if total.Err? { return Err(total.error); }
    var c := prev + total.value;
    if !(0 <= c <= 0x10FFFF) { return Err(OutOfRange(i + cnt)); }
    return Ok((c, i + cnt));
  }

  method DecodeBocu1(data: seq<Byte>) returns (r: Result<seq<int>, Error>)
    ensures r == Decode(data)
    ensures r.Ok? ==> forall k :: 0 <= k < |r.value| ==> 0 <= r.value[k] <= 0x10FFFF
  {
    var prev, out, i, n := ASCII_PREV, [], 0, |data|;
    StartEmpty(data);
    while i < n
      invariant i <= n
      invariant Decode(data) == Append(out, DecodeFrom(data[i..], i, prev))
      decreases n - i
    {
      ghost var at, p := i, prev;
      var b := data[i];
      i := i + 1;
      var c;
      if b <= 0x20 {
        if b != 0x20 { prev := ASCII_PREV; }
        c := b;
      } else if b == B_RESET {
        prev := ASCII_PREV;
        assert data[at..][1..] == data[i..];
        continue;
      } else {
        if S_NEG2 <= b < S_POS2 {
          c := prev + (b - B_MIDDLE);
        } else {
          var cj := ReadMultiByte(data, i, prev);
          if cj.Err? { return Err(cj.error); }
          c, i := cj.value.0, cj.value.1;
        }
        prev := Prev(c);
      }
      AppendEmit(data, at, p, out, c, prev, i);
      out := out + [c];
    }
    EndEmpty(out);
    if Decode(data).Ok? {
      DecodeYieldsCodePoints(data, 0, ASCII_PREV);
    }
    return Ok(out);
  }

  lemma StartEmpty(data: seq<Byte>)
    ensures Decode(data) == Append([], DecodeFrom(data[0..], 0, ASCII_PREV))
  {
    assert data[0..] == data;
    if Decode(data).Ok? {
      assert [] + Decode(data).value == Decode(data).value;
    }
  }

  lemma EndEmpty(out: seq<int>)
    ensures Append(out, Ok([])) == Ok(out)
  {
    assert out + [] == out;
  }
}
