/**
 * The three hand-written scanners of brace lists: `split_fields` (exact, `make_upgrade_fixtures.py`; trimming,
 * `make_old_root_fixtures.py`) and `fields` (spans, `spike_adapter.py`). All read one language.
 */
module BraceScanners {
  import opened Prelude
  import opened BraceTree
  import opened BraceText

  type Span = (nat, nat)

  /**
   * The reference: quote parity, depth, and the start of the current field. The spans of the fields and the
   * offset past the closing brace; None when the list does not close.
   */
  function Spans(t: string, j: nat, depth: nat, start: nat, inQuotes: bool): Option<(seq<Span>, nat)>
    requires j <= |t|
    decreases |t| - j
  {
    if j == |t| then None
    else if t[j] == '"' then Spans(t, j + 1, depth, start, !inQuotes)
    else if inQuotes then Spans(t, j + 1, depth, start, true)
    else if t[j] == '{' then Spans(t, j + 1, depth + 1, start, false)
    else if t[j] == '}' then
      if depth == 0 then Some(([(start, j)], j + 1)) else Spans(t, j + 1, depth - 1, start, false)
    else if t[j] == ',' && depth == 0 then
      match Spans(t, j + 1, 0, j + 1, false)
      case None => None
      case Some((rest, end)) => Some(([(start, j)] + rest, end))
    else Spans(t, j + 1, depth, start, false)
  }

  predicate Within(spans: seq<Span>, n: nat) {
    forall k :: 0 <= k < |spans| ==> spans[k].0 <= spans[k].1 <= n
  }

  lemma {:induction false} SpansAreWithin(t: string, j: nat, depth: nat, start: nat, inQuotes: bool)
    requires start <= j <= |t| && Spans(t, j, depth, start, inQuotes).Some?
    ensures Within(Spans(t, j, depth, start, inQuotes).value.0, |t|)
    ensures Spans(t, j, depth, start, inQuotes).value.0 != []
    ensures j < Spans(t, j, depth, start, inQuotes).value.1 <= |t|
    decreases |t| - j
  {
    if t[j] == '"' {
      SpansAreWithin(t, j + 1, depth, start, !inQuotes);
    } else if inQuotes {
      SpansAreWithin(t, j + 1, depth, start, true);
    } else if t[j] == '{' {
      SpansAreWithin(t, j + 1, depth + 1, start, false);
    } else if t[j] == '}' {
      if depth > 0 {
        SpansAreWithin(t, j + 1, depth - 1, start, false);
      }
    } else if t[j] == ',' && depth == 0 {
      SpansAreWithin(t, j + 1, 0, j + 1, false);
    } else {
      SpansAreWithin(t, j + 1, depth, start, false);
    }
  }

  /** The texts of spans. */
  function Cut(t: string, spans: seq<Span>): (r: seq<string>)
    requires Within(spans, |t|)
    ensures |r| == |spans|
    ensures forall k :: 0 <= k < |spans| ==> r[k] == t[spans[k].0..spans[k].1]
  {
    seq(|spans|, k requires 0 <= k < |spans| => t[spans[k].0..spans[k].1])
  }

  /** `join` */
  function Join(fields: seq<string>): string {
    "{" + CommaJoin(fields) + "}"
  }

  /** The fields, comma-joined and closed, are the source from `start` to `end`. */
  predicate JoinsTo(t: string, spans: seq<Span>, end: nat, start: nat) {
    Within(spans, |t|) && spans != [] && start < end <= |t| && CommaJoin(Cut(t, spans)) + "}" == t[start..end]
  }

  lemma LastFieldJoins(t: string, start: nat, j: nat)
    requires start <= j < |t| && t[j] == '}'
    ensures JoinsTo(t, [(start, j)], j + 1, start)
  {
    assert Cut(t, [(start, j)]) == [t[start..j]];
  }

  lemma FieldJoins(t: string, start: nat, j: nat, rest: seq<Span>, end: nat)
    requires start <= j < |t| && t[j] == ',' && JoinsTo(t, rest, end, j + 1)
    ensures JoinsTo(t, [(start, j)] + rest, end, start)
  {
    assert Cut(t, [(start, j)] + rest) == [t[start..j]] + Cut(t, rest);
    JoinCons(t[start..j], Cut(t, rest));
    assert t[start..end] == t[start..j] + "," + t[j + 1..end];
  }

  lemma {:induction false} CutJoins(t: string, j: nat, depth: nat, start: nat, inQuotes: bool)
    requires start <= j <= |t| && Spans(t, j, depth, start, inQuotes).Some?
    ensures JoinsTo(t, Spans(t, j, depth, start, inQuotes).value.0, Spans(t, j, depth, start, inQuotes).value.1, start)
    decreases |t| - j
  {
    if t[j] == '"' {
      CutJoins(t, j + 1, depth, start, !inQuotes);
    } else if inQuotes {
      CutJoins(t, j + 1, depth, start, true);
    } else if t[j] == '{' {
      CutJoins(t, j + 1, depth + 1, start, false);
    } else if t[j] == '}' && depth > 0 {
      CutJoins(t, j + 1, depth - 1, start, false);
    } else if t[j] == '}' {
      LastFieldJoins(t, start, j);
    } else if t[j] == ',' && depth == 0 {
      CutJoins(t, j + 1, 0, j + 1, false);
      var (rest, end) := Spans(t, j + 1, 0, j + 1, false).value;
      FieldJoins(t, start, j, rest, end);
    } else {
      CutJoins(t, j + 1, depth, start, false);
    }
  }

  /** The list that opens at `start`: its field spans and the offset past its closing brace. */
  function FieldsOf(t: string, start: nat): Option<(seq<Span>, nat)> {
    if start < |t| then Spans(t, start + 1, 0, start + 1, false) else None
  }

  /** Splitting a list that closes and joining the fields gives its exact source text. */
  lemma JoinInvertsSplit(t: string, start: nat)
    requires start < |t| && t[start] == '{' && FieldsOf(t, start).Some?
    ensures var (spans, end) := FieldsOf(t, start).value;
            Within(spans, |t|) && start < end <= |t| && Join(Cut(t, spans)) == t[start..end]
  {
    CutJoins(t, start + 1, 0, start + 1, false);
    var (spans, end) := FieldsOf(t, start).value;
    assert t[start..end] == "{" + t[start + 1..end];
  }

  // ---- the loops

  datatype ScanError = Unclosed | NotAList

  function Offer(out: seq<Span>, r: Option<(seq<Span>, nat)>): Option<(seq<Span>, nat)> {
    match r
    case None => None
    case Some((spans, end)) => Some((out + spans, end))
  }

  lemma OfferOne(out: seq<Span>, s: Span, r: Option<(seq<Span>, nat)>)
    ensures Offer(out + [s], r)
         == Offer(out, match r case None => None case Some((spans, end)) => Some(([s] + spans, end)))
  {
    if r.Some? {
      assert out + [s] + r.value.0 == out + ([s] + r.value.0);
    }
  }

  lemma OfferNothing(r: Option<(seq<Span>, nat)>)
    ensures Offer([], r) == r
  {
    if r.Some? {
      assert [] + r.value.0 == r.value.0;
    }
  }

  lemma CutSnoc(t: string, spans: seq<Span>, s: Span)
    requires Within(spans, |t|) && s.0 <= s.1 <= |t|
    ensures Within(spans + [s], |t|) && Cut(t, spans + [s]) == Cut(t, spans) + [t[s.0..s.1]]
  {
  }

  /** `split_fields`, exact: the fields as they stand, looking ahead for doubled quotes. */
  method SplitFields(text: string, start: nat) returns (r: Result<(seq<string>, nat), ScanError>)
    ensures match FieldsOf(text, start)
            case None => r == Err(Unclosed)
            case Some((spans, end)) => Within(spans, |text|) && r == Ok((Cut(text, spans), end))
  {
    var fields: seq<string>, depth, cur, i, quoted := [], 0, start + 1, start + 1, false;
    ghost var out: seq<Span> := [];
    OfferNothing(FieldsOf(text, start));
    while i < |text|
      invariant start < cur <= i && (start < |text| ==> i <= |text|) && Within(out, |text|) && fields == Cut(text, out)
      invariant start < |text| ==> FieldsOf(text, start) == Offer(out, Spans(text, i, depth, cur, quoted))
      decreases |text| - i
    {
      var ch := text[i];
      if quoted {
        if ch == '"' {
          if i + 1 < |text| && text[i + 1] == '"' {
            i := i + 1;
          } else {
            quoted := false;
          }
        }
      } else if ch == '"' {
        quoted := true;
      } else if ch == '{' {
        depth := depth + 1;
      } else if ch == '}' {
        if depth == 0 {
          CutSnoc(text, out, (cur, i));
          fields := fields + [text[cur..i]];
          return Ok((fields, i + 1));
        }
        depth := depth - 1;
      } else if ch == ',' && depth == 0 {
        CutSnoc(text, out, (cur, i));
        OfferOne(out, (cur, i), Spans(text, i + 1, 0, i + 1, false));
        fields := fields + [text[cur..i]];
        out := out + [(cur, i)];
        cur := i + 1;
      }
      i := i + 1;
    }
    return Err(Unclosed);
  }

  function Trimmed(fields: seq<string>): (r: seq<string>)
    ensures |r| == |fields|
    ensures forall k :: 0 <= k < |fields| ==> r[k] == Strip(fields[k])
  {
    seq(|fields|, k requires 0 <= k < |fields| => Strip(fields[k]))
  }

  lemma TrimmedSnoc(fields: seq<string>, x: string)
    ensures Trimmed(fields + [x]) == Trimmed(fields) + [Strip(x)]
  {
  }

  /** `split_fields`, trimming: the same scan, each field stripped. */
  method SplitTrimmed(text: string, start: nat) returns (r: Result<(seq<string>, nat), ScanError>)
    ensures match FieldsOf(text, start)
            case None => r == Err(Unclosed)
            case Some((spans, end)) => Within(spans, |text|) && r == Ok((Trimmed(Cut(text, spans)), end))
  {
    var fields: seq<string>, depth, cur, i, quoted := [], 0, start + 1, start + 1, false;
    ghost var out: seq<Span> := [];
    assert Trimmed(Cut(text, out)) == [];
    OfferNothing(FieldsOf(text, start));
    while i < |text|
      invariant start < cur <= i && (start < |text| ==> i <= |text|) && Within(out, |text|) && fields == Trimmed(Cut(text, out))
      invariant start < |text| ==> FieldsOf(text, start) == Offer(out, Spans(text, i, depth, cur, quoted))
      decreases |text| - i
    {
      var ch := text[i];
      if quoted {
        if ch == '"' {
          if i + 1 < |text| && text[i + 1] == '"' {
            i := i + 1;
          } else {
            quoted := false;
          }
        }
      } else if ch == '"' {
        quoted := true;
      } else if ch == '{' {
        depth := depth + 1;
      } else if ch == '}' {
        if depth == 0 {
          CutSnoc(text, out, (cur, i));
          TrimmedSnoc(Cut(text, out), text[cur..i]);
          fields := fields + [Strip(text[cur..i])];
          return Ok((fields, i + 1));
        }
        depth := depth - 1;
      } else if ch == ',' && depth == 0 {
        CutSnoc(text, out, (cur, i));
        TrimmedSnoc(Cut(text, out), text[cur..i]);
        OfferOne(out, (cur, i), Spans(text, i + 1, 0, i + 1, false));
        fields := fields + [Strip(text[cur..i])];
        out := out + [(cur, i)];
        cur := i + 1;
      }
      i := i + 1;
    }
    return Err(Unclosed);
  }

  /** `fields`: the spans, with the opening brace counted into the depth; gives the offset of the closing brace. */
  method FieldSpans(t: string, i: nat) returns (r: Result<(seq<Span>, nat), ScanError>)
    ensures r == Err(NotAList) <==> i >= |t| || t[i] != '{'
    ensures i < |t| && t[i] == '{' ==>
              match FieldsOf(t, i)
              case None => r == Err(Unclosed)
              case Some((spans, end)) => end > 0 && r == Ok((spans, end - 1))
  {
    if i >= |t| || t[i] != '{' {
      return Err(NotAList);
    }
    var depth: nat, start: nat, out: seq<Span>, j: nat, q := 0, i + 1, [], i, false;
    OfferNothing(FieldsOf(t, i));
    while j < |t|
      invariant i <= j <= |t| && (depth == 0 <==> j == i) && (j == i ==> !q)
      invariant j > i ==> start <= j && FieldsOf(t, i) == Offer(out, Spans(t, j, depth - 1, start, q))
      invariant j == i ==> out == [] && start == i + 1
      decreases |t| - j
    {
      var c := t[j];
      if q {
        if c == '"' {
          if j + 1 < |t| && t[j + 1] == '"' {
            j := j + 1;
          } else {
            q := false;
          }
        }
      } else if c == '"' {
        q := true;
      } else if c == '{' {
        depth := depth + 1;
      } else if c == '}' {
        depth := depth - 1;
        if depth == 0 {
          return Ok((out + [(start, j)], j));
        }
      } else if c == ',' && depth == 1 {
        OfferOne(out, (start, j), Spans(t, j + 1, 0, j + 1, false));
        out := out + [(start, j)];
        start := j + 1;
      }
      j := j + 1;
    }
    return Err(Unclosed);
  }
}
