/** Lines of the Agent text of `scripts/issue_claim_bot.py`, as Python's `splitlines` cuts them. */
module AgentLines {
  import opened Prelude

  type Text = seq<CodePoint>

  const LF: CodePoint := 0x0A
  const CR: CodePoint := 0x0D

  predicate IsBreak(c: CodePoint) {
    0x0A <= c <= 0x0D || 0x1C <= c <= 0x1E || c == 0x85 || c == 0x2028 || c == 0x2029
  }

  /** LF, VT, FF, CR, three separators, NEL, and the two separators of Unicode. */
  lemma TenBreaks(c: CodePoint)
    ensures IsBreak(c) <==> c in [0x0A, 0x0B, 0x0C, 0x0D, 0x1C, 0x1D, 0x1E, 0x85, 0x2028, 0x2029]
  {
  }

  predicate NoBreak(s: Text) {
    forall k :: 0 <= k < |s| ==> !IsBreak(s[k])
  }

  /** A line and the break that ends it; only a last line can lack one. */
  datatype Line = Line(text: Text, brk: Text)

  /** Where the first line of `s` ends. */
  function Head(s: Text): (n: nat)
    ensures n <= |s| && NoBreak(s[..n]) && (n < |s| ==> IsBreak(s[n]))
  {
    if s == [] || IsBreak(s[0]) then 0
    else
      var n := 1 + Head(s[1..]);
      assert forall k :: 0 < k < n ==> s[k] == s[1..][k - 1];
      n
  }

  /** CR LF is one break. */
  function BreakLength(s: Text, n: nat): nat
    requires n <= |s|
  {
    if n == |s| then 0
    else if s[n] == CR && n + 1 < |s| && s[n + 1] == LF then 2
    else 1
  }

  /** `s.splitlines(keepends=True)` */
  function Lines(s: Text): seq<Line>
    decreases |s|
  {
    if s == [] then []
    else
      var n := Head(s);
      var m := n + BreakLength(s, n);
      [Line(s[..n], s[n..m])] + Lines(s[m..])
  }

  function Flat(ls: seq<Line>): Text {
    if ls == [] then [] else ls[0].text + ls[0].brk + Flat(ls[1..])
  }

  /** Lines as cutting can produce them, one by one. */
  predicate WellCut(ls: seq<Line>) {
    ls == [] ||
    (&& NoBreak(ls[0].text)
     && (if ls[0].brk == [] then |ls| == 1 && ls[0].text != []
         else ls[0].brk == [CR, LF] || (|ls[0].brk| == 1 && IsBreak(ls[0].brk[0])))
     && WellCut(ls[1..]))
  }

  /** A lone CR met by a lone LF: side by side the two are one break. */
  predicate Meet(a: Line, b: Line) {
    a.brk == [CR] && b == Line([], [LF])
  }

  function Merged(ls: seq<Line>): seq<Line> {
    if ls == [] then []
    else if |ls| > 1 && Meet(ls[0], ls[1]) then [Line(ls[0].text, [CR, LF])] + Merged(ls[2..])
    else [ls[0]] + Merged(ls[1..])
  }

  predicate Apart(ls: seq<Line>) {
    |ls| > 1 ==> !Meet(ls[0], ls[1]) && Apart(ls[1..])
  }

  lemma {:induction false} HeadOf(text: Text, rest: Text)
    requires NoBreak(text) && (rest == [] || IsBreak(rest[0]))
    ensures Head(text + rest) == |text|
  {
    if text == [] {
      assert text + rest == rest;
    } else {
      HeadOf(text[1..], rest);
      assert (text + rest)[1..] == text[1..] + rest;
    }
  }

  lemma FlatCons(ls: seq<Line>)
    requires ls != []
    ensures Flat(ls) == ls[0].text + (ls[0].brk + Flat(ls[1..]))
  {
  }

  /** Cutting off the first line. */
  lemma LinesCons(text: Text, brk: Text, rest: Text)
    requires NoBreak(text) && text + brk != []
    requires (brk == [] && rest == []) || brk == [CR, LF] || (|brk| == 1 && IsBreak(brk[0]))
    requires !(brk == [CR] && rest != [] && rest[0] == LF)
    ensures Lines(text + (brk + rest)) == [Line(text, brk)] + Lines(rest)
  {
    hide Lines, Head, BreakLength;
    var s := text + (brk + rest);
    HeadOf(text, brk + rest);
    BreakOf(text, brk, rest);
    Cuts(text, brk, rest);
    LinesStep(s);
  }

  lemma BreakOf(text: Text, brk: Text, rest: Text)
    requires (brk == [] && rest == []) || brk == [CR, LF] || |brk| == 1
    requires !(brk == [CR] && rest != [] && rest[0] == LF)
    ensures BreakLength(text + (brk + rest), |text|) == |brk|
  {
    var s := text + (brk + rest);
    assert s[|text|..] == brk + rest;
  }

  lemma Cuts(text: Text, brk: Text, rest: Text)
    ensures var s, n := text + (brk + rest), |text|;
            s[..n] == text && s[n..n + |brk|] == brk && s[n + |brk|..] == rest
  {
  }

  lemma LinesStep(s: Text)
    requires s != []
    ensures var n := Head(s);
            var m := n + BreakLength(s, n);
            Lines(s) == [Line(s[..n], s[n..m])] + Lines(s[m..])
  {
  }

  lemma PlainStart(text: Text, rest: Text)
    requires NoBreak(text) && text != []
    ensures !IsBreak((text + rest)[0])
  {
    assert (text + rest)[0] == text[0];
  }

  lemma FirstOfFlat(ls: seq<Line>)
    requires WellCut(ls) && Flat(ls) != [] && Flat(ls)[0] == LF
    ensures ls != [] && ls[0] == Line([], [LF])
  {
    FlatCons(ls);
    if ls[0].text != [] {
      PlainStart(ls[0].text, ls[0].brk + Flat(ls[1..]));
    }
    assert Flat(ls)[0] == ls[0].brk[0];
  }

  /** Cutting a concatenation of lines gives the lines back, except that a lone CR and a lone LF become one break. */
  lemma {:induction false} LinesOfFlat(ls: seq<Line>)
    requires WellCut(ls)
    ensures Lines(Flat(ls)) == Merged(ls)
    decreases |ls|
  {
    hide Lines, Head;
    if ls == [] {
      NoLines();
    } else {
      var rest := ls[1..];
      FlatCons(ls);
      if |ls| > 1 && Meet(ls[0], ls[1]) {
        LinesOfFlat(ls[2..]);
        assert rest[1..] == ls[2..];
        FlatCons(rest);
        assert Flat(rest) == [LF] + Flat(ls[2..]);
        assert [CR] + ([LF] + Flat(ls[2..])) == [CR, LF] + Flat(ls[2..]);
        LinesCons(ls[0].text, [CR, LF], Flat(ls[2..]));
      } else {
        LinesOfFlat(rest);
        if ls[0].brk == [CR] && Flat(rest) != [] && Flat(rest)[0] == LF {
          FirstOfFlat(rest);
        }
        LinesCons(ls[0].text, ls[0].brk, Flat(rest));
      }
    }
  }

  lemma NoLines()
    ensures Lines([]) == []
  {
  }

  /** The first line of a text, what follows it, and the shape of its break. */
  lemma FirstLine(s: Text) returns (line: Line, rest: Text)
    requires s != []
    ensures Lines(s) == [line] + Lines(rest) && s == line.text + line.brk + rest && |rest| < |s|
    ensures NoBreak(line.text)
    ensures if line.brk == [] then rest == [] && line.text != []
            else line.brk == [CR, LF] || (|line.brk| == 1 && IsBreak(line.brk[0]))
  {
    var n := Head(s);
    var m := n + BreakLength(s, n);
    line, rest := Line(s[..n], s[n..m]), s[m..];
    assert s == s[..n] + s[n..m] + s[m..];
  }

  lemma {:induction false} LinesAreWellCut(s: Text)
    ensures WellCut(Lines(s)) && Flat(Lines(s)) == s
    decreases |s|
  {
    hide Lines;
    NoLines();
    if s != [] {
      var line, rest := FirstLine(s);
      LinesAreWellCut(rest);
      assert ([line] + Lines(rest))[1..] == Lines(rest);
    }
  }

  lemma FlatNone()
    ensures Flat([]) == []
  {
  }

  lemma {:induction false} MergedIsFlat(ls: seq<Line>)
    ensures Flat(Merged(ls)) == Flat(ls)
    decreases |ls|
  {
    hide Flat;
    FlatNone();
    if ls != [] {
      FlatCons(ls);
      FlatCons(Merged(ls));
      if |ls| > 1 && Meet(ls[0], ls[1]) {
        MergedIsFlat(ls[2..]);
        assert Merged(ls)[1..] == Merged(ls[2..]);
        assert ls[1..][1..] == ls[2..];
        FlatCons(ls[1..]);
        MeetIsFlat(Flat(ls[2..]));
      } else {
        MergedIsFlat(ls[1..]);
        assert Merged(ls)[1..] == Merged(ls[1..]);
      }
    }
  }

  lemma MeetIsFlat(rest: Text)
    ensures [CR] + ([] + ([LF] + rest)) == [CR, LF] + rest
  {
  }

  lemma {:induction false} MergedIsSame(ls: seq<Line>)
    ensures Merged(ls) == ls <==> Apart(ls)
    ensures |Merged(ls)| <= |ls|
    decreases |ls|
  {
    if ls != [] {
      if |ls| > 1 && Meet(ls[0], ls[1]) {
        MergedIsSame(ls[2..]);
      } else {
        MergedIsSame(ls[1..]);
        assert ls == [ls[0]] + ls[1..];
        assert Merged(ls)[1..] == Merged(ls[1..]);
      }
    }
  }
}
