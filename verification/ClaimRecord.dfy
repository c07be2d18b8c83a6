/** The bot's line in the Agent field of `scripts/issue_claim_bot.py`: reading it, and writing it beside the others. */
module ClaimRecord {
  import opened Prelude
  import opened AgentLines
  import Utf16

  datatype Status = Backlog | Ready | InProgress | InReview | Other(name: Text)

  datatype Record = Record(actor: Text, owner: Option<Text>, request: int, status: Status, pr: Option<int>)

  /** Why a command is turned away here; the last is an exception the bot does not catch. */
  datatype Trouble = SeveralRecords | BrokenRecord | AgentFull | LoneSurrogate

  /** "Claim bot: " */
  function Prefix(): (p: Text)
    ensures |p| == 11 && NoBreak(p) && forall k :: 0 <= k < 11 ==> p[k] == "Claim bot: "[k] as int
  {
    [0x43, 0x6C, 0x61, 0x69, 0x6D, 0x20, 0x62, 0x6F, 0x74, 0x3A, 0x20]
  }

  // ---- what a record may hold

  predicate IsAlnum(c: CodePoint) {
    0x30 <= c <= 0x39 || 0x41 <= c <= 0x5A || 0x61 <= c <= 0x7A
  }

  /** A GitHub login: up to 39 letters, digits and inner hyphens. */
  predicate IsLogin(t: Text) {
    && 1 <= |t| <= 39
    && IsAlnum(t[0]) && IsAlnum(t[|t| - 1])
    && forall k :: 0 <= k < |t| ==> IsAlnum(t[k]) || t[k] == 0x2D
  }

  predicate IsRecord(r: Record) {
    && IsLogin(r.actor)
    && (r.owner.Some? ==> IsLogin(r.owner.value))
    && r.request > 0
    && (r.pr.Some? ==> r.pr.value > 0)
    && (r.status.Ready? || r.status.InProgress? || r.status.InReview?)
  }

  /** JSON text of a record, and what parsing a text with the five expected keys and types gives. */
  datatype Json = Json(dump: Record -> Text, load: Text -> Option<Record>)

  /** Printing is ASCII on one line, and parsing undoes it. */
  ghost predicate Faithful(json: Json) {
    forall r: Record :: IsRecord(r) ==>
      && NoBreak(json.dump(r))
      && IsAscii(json.dump(r))
      && json.load(json.dump(r)) == Some(r)
  }

  predicate IsAscii(t: Text) {
    forall k :: 0 <= k < |t| ==> t[k] < 0x80
  }

  // ---- the bot's line and the others

  predicate IsOwn(line: Line) {
    Prefix() <= line.text
  }

  /** What the bot's lines say, in order. */
  function Own(ls: seq<Line>): seq<Text> {
    if ls == [] then []
    else (if IsOwn(ls[0]) then [ls[0].text[|Prefix()|..]] else []) + Own(ls[1..])
  }

  /** The lines of everybody else. */
  function Kept(ls: seq<Line>): seq<Line> {
    if ls == [] then []
    else (if IsOwn(ls[0]) then [] else [ls[0]]) + Kept(ls[1..])
  }

  function OwnedRecord(agent: Text, json: Json): Result<Option<Record>, Trouble> {
    var own := Own(Lines(agent));
    if |own| > 1 then Err(SeveralRecords)
    else if own == [] then Ok(None)
    else match json.load(own[0])
      case Some(r) => if IsRecord(r) then Ok(Some(r)) else Err(BrokenRecord)
      case None => Err(BrokenRecord)
  }

  lemma {:induction false} OwnCounts(ls: seq<Line>)
    ensures Own(ls) == [] <==> forall k :: 0 <= k < |ls| ==> !IsOwn(ls[k])
    ensures |Own(ls)| > 1 <==> exists i, k :: 0 <= i < k < |ls| && IsOwn(ls[i]) && IsOwn(ls[k])
  {
    hide IsOwn;
    if ls != [] {
      OwnCounts(ls[1..]);
      assert forall k :: 1 <= k < |ls| ==> ls[k] == ls[1..][k - 1];
      if i, k :| 0 <= i < k < |ls[1..]| && IsOwn(ls[1..][i]) && IsOwn(ls[1..][k]) {
        assert IsOwn(ls[i + 1]) && IsOwn(ls[k + 1]);
      }
      if i, k :| 0 <= i < k < |ls| && IsOwn(ls[i]) && IsOwn(ls[k]) {
        assert i > 0 ==> IsOwn(ls[1..][i - 1]) && IsOwn(ls[1..][k - 1]);
        assert IsOwn(ls[1..][k - 1]);
      }
      if IsOwn(ls[0]) {
        if k :| 0 <= k < |ls[1..]| && IsOwn(ls[1..][k]) {
          assert IsOwn(ls[k + 1]);
        }
      }
    }
  }

  /** The field is refused for several records exactly when two of its lines are the bot's. */
  lemma SeveralIff(agent: Text, json: Json)
    ensures OwnedRecord(agent, json) == Err(SeveralRecords) <==>
              exists i, k :: 0 <= i < k < |Lines(agent)| && IsOwn(Lines(agent)[i]) && IsOwn(Lines(agent)[k])
    ensures OwnedRecord(agent, json) == Ok(None) <==> forall k :: 0 <= k < |Lines(agent)| ==> !IsOwn(Lines(agent)[k])
  {
    var ls := Lines(agent);
    OwnCounts(ls);
  }

  lemma {:induction false} OwnIs(ls: seq<Line>, i: nat)
    requires i < |ls| && IsOwn(ls[i]) && forall k :: 0 <= k < |ls| && k != i ==> !IsOwn(ls[k])
    ensures Own(ls) == [ls[i].text[11..]]
  {
    if i > 0 {
      OwnIs(ls[1..], i - 1);
    } else {
      OwnCounts(ls[1..]);
    }
  }

  /** One line of the field is the bot's and says this record, with a login, status and numbers that can be. */
  ghost predicate Says(agent: Text, r: Record, json: Json) {
    && IsRecord(r)
    && exists i :: 0 <= i < |Lines(agent)| && IsOwn(Lines(agent)[i]) && json.load(Lines(agent)[i].text[11..]) == Some(r)
                   && forall k :: 0 <= k < |Lines(agent)| && k != i ==> !IsOwn(Lines(agent)[k])
  }

  /** A record is read exactly where the field says it; a field with one line of the bot's that says none is refused. */
  lemma RecordIff(agent: Text, r: Record, json: Json)
    ensures OwnedRecord(agent, json) == Ok(Some(r)) <==> Says(agent, r, json)
    ensures OwnedRecord(agent, json).Err? ==> OwnedRecord(agent, json).error in {SeveralRecords, BrokenRecord}
  {
    var ls := Lines(agent);
    OwnCounts(ls);
    if |Own(ls)| == 1 {
      var i :| 0 <= i < |ls| && IsOwn(ls[i]);
      OwnIs(ls, i);
    }
    if Says(agent, r, json) {
      var i :| 0 <= i < |ls| && IsOwn(ls[i]) && json.load(ls[i].text[11..]) == Some(r)
               && forall k :: 0 <= k < |ls| && k != i ==> !IsOwn(ls[k]);
      OwnIs(ls, i);
    }
  }

  /** Everything in the field that is not the bot's. */
  function Foreign(agent: Text): Text {
    Flat(Kept(Lines(agent)))
  }

  /** Text that another line can follow. */
  function Closed(other: Text): Text {
    if other != [] && other[|other| - 1] != LF && other[|other| - 1] != CR then other + [LF] else other
  }

  function WithLine(agent: Text, r: Record, json: Json): Text {
    Closed(Foreign(agent)) + (Prefix() + json.dump(r))
  }

  predicate IsUnicode(t: Text) {
    forall k :: 0 <= k < |t| ==> Utf16.IsScalar(t[k])
  }

  const ROOM := 1024

  predicate HasRoom(agent: Text, r: Record, json: Json) {
    |Utf16.UnitsOf(WithLine(agent, r, json))| <= ROOM
  }

  function WithRecord(agent: Text, r: Record, json: Json): Result<Text, Trouble> {
    match OwnedRecord(agent, json)
    case Err(e) => Err(e)
    case Ok(_) =>
      if !IsUnicode(WithLine(agent, r, json)) then Err(LoneSurrogate)
      else if !HasRoom(agent, r, json) then Err(AgentFull)
      else Ok(WithLine(agent, r, json))
  }

  // ---- the lines of the new text

  /** The kept lines, the last of them made to end in LF or CR. */
  function Shut(ls: seq<Line>): seq<Line> {
    if ls == [] then []
    else if |ls| > 1 then [ls[0]] + Shut(ls[1..])
    else if ls[0].brk == [] then [Line(ls[0].text, [LF])]
    else if Exotic(ls[0]) then [ls[0], Line([], [LF])]
    else ls
  }

  /** Ends in a line break other than LF and CR. */
  predicate Exotic(line: Line) {
    line.brk != [] && line.brk[|line.brk| - 1] != LF && line.brk[|line.brk| - 1] != CR
  }

  lemma {:induction false} KeptIsWellCut(ls: seq<Line>)
    requires WellCut(ls)
    ensures WellCut(Kept(ls)) && Own(Kept(ls)) == [] && |Kept(ls)| <= |ls|
    decreases |ls|
  {
    hide Prefix;
    if ls != [] {
      KeptIsWellCut(ls[1..]);
      assert Kept(ls) == Kept(ls[1..]) || (Kept(ls)[0] == ls[0] && Kept(ls)[1..] == Kept(ls[1..]));
    }
  }

  lemma RegroupLine(t: Text, k: Text, x: Text, y: Text)
    ensures t + (k + (x + y)) == t + (k + x) + y
  {
  }

  lemma {:induction false} FlatConcat(a: seq<Line>, b: seq<Line>)
    ensures Flat(a + b) == Flat(a) + Flat(b)
  {
    hide Flat;
    FlatNone();
    if a == [] {
      assert a + b == b;
    } else {
      FlatConcat(a[1..], b);
      FlatCons(a + b);
      FlatCons(a);
      assert (a + b)[1..] == a[1..] + b;
      RegroupLine(a[0].text, a[0].brk, Flat(a[1..]), Flat(b));
    }
  }

  lemma FlatOne(line: Line)
    ensures Flat([line]) == line.text + line.brk
  {
    assert [line][1..] == [];
  }

  lemma {:induction false} ShutIsClosed(ls: seq<Line>)
    requires WellCut(ls)
    ensures Flat(Shut(ls)) == Closed(Flat(ls))
    ensures ls != [] ==> Flat(ls) != []
    decreases |ls|
  {
    if |ls| > 1 {
      ShutIsClosed(ls[1..]);
      assert Flat(ls) == ls[0].text + ls[0].brk + Flat(ls[1..]);
      assert Flat(ls)[|Flat(ls)| - 1] == Flat(ls[1..])[|Flat(ls[1..])| - 1];
      assert Shut(ls)[1..] == Shut(ls[1..]);
    } else if |ls| == 1 {
      ShutOneIsClosed(ls[0]);
      assert ls == [ls[0]];
    }
  }

  lemma ShutOneIsClosed(line: Line)
    requires WellCut([line])
    ensures Flat(Shut([line])) == Closed(Flat([line])) && Flat([line]) != []
  {
    var f := Flat([line]);
    FlatOne(line);
    if line.brk == [] {
      FlatOne(Line(line.text, [LF]));
      assert f[|f| - 1] == line.text[|line.text| - 1];
    } else {
      assert f[|f| - 1] == line.brk[|line.brk| - 1];
      if Exotic(line) {
        FlatOne(Line([], [LF]));
        FlatConcat([line], [Line([], [LF])]);
        assert [line] + [Line([], [LF])] == [line, Line([], [LF])];
      }
    }
  }

  lemma {:induction false} ShutWithLine(ls: seq<Line>, own: Text)
    requires WellCut(ls) && Own(ls) == [] && NoBreak(own) && own != []
    ensures WellCut(Shut(ls) + [Line(own, [])])
    ensures Own(Shut(ls)) == []
    decreases |ls|
  {
    hide Prefix;
    var all := Shut(ls) + [Line(own, [])];
    if |ls| > 1 {
      ShutWithLine(ls[1..], own);
      assert all[1..] == Shut(ls[1..]) + [Line(own, [])];
      assert Shut(ls)[1..] == Shut(ls[1..]);
    } else {
      assert WellCut([Line(own, [])]) && WellCut([Line([], [LF]), Line(own, [])]);
      if |ls| == 1 {
        ShutOneWithLine(ls[0], own);
        assert ls == [ls[0]];
      }
    }
  }

  lemma WellCutCons(line: Line, rest: seq<Line>)
    requires NoBreak(line.text) && WellCut(rest)
    requires line.brk == [CR, LF] || (|line.brk| == 1 && IsBreak(line.brk[0]))
    ensures WellCut([line] + rest)
  {
    assert ([line] + rest)[1..] == rest;
  }

  lemma ShutOneWithLine(line: Line, own: Text)
    requires WellCut([line]) && Own([line]) == [] && NoBreak(own) && own != []
    ensures WellCut(Shut([line]) + [Line(own, [])]) && Own(Shut([line])) == []
  {
    hide Prefix;
    var all := Shut([line]) + [Line(own, [])];
    var bot := [Line(own, [])];
    assert WellCut(bot) by {
      assert bot[1..] == [];
    }
    if Exotic(line) {
      assert all == [line] + ([Line([], [LF])] + bot);
      assert Shut([line]) == [line] + [Line([], [LF])];
      OwnConcat([line], [Line([], [LF])]);
      WellCutCons(Line([], [LF]), bot);
      WellCutCons(line, [Line([], [LF])] + bot);
    } else {
      assert all == [Shut([line])[0]] + bot;
      WellCutCons(Shut([line])[0], bot);
    }
  }

  lemma {:induction false} MergedSnoc(ls: seq<Line>, last: Line)
    requires last != Line([], [LF])
    ensures Merged(ls + [last]) == Merged(ls) + [last]
    decreases |ls|
  {
    var all := ls + [last];
    if ls == [] {
      assert all[1..] == [];
    } else if |ls| > 1 && Meet(ls[0], ls[1]) {
      MergedSnoc(ls[2..], last);
      assert all[2..] == ls[2..] + [last];
    } else {
      MergedSnoc(ls[1..], last);
      assert all[1..] == ls[1..] + [last];
    }
  }

  /** How the new text is cut: the others' lines, a lone CR and a lone LF that now touch made one, and the bot's line. */
  lemma NewLines(agent: Text, r: Record, json: Json)
    requires Faithful(json) && IsRecord(r)
    ensures var kept := Kept(Lines(agent));
            && Lines(WithLine(agent, r, json)) == Merged(Shut(kept)) + [Line(Prefix() + json.dump(r), [])]
            && WellCut(kept) && Own(kept) == [] && Own(Shut(kept)) == []
  {
    hide Prefix, Lines, Merged, Shut, Kept, Own, Flat, WellCut, IsRecord;
    var kept := Kept(Lines(agent));
    var own := Prefix() + json.dump(r);
    assert NoBreak(json.dump(r));
    LinesAreWellCut(agent);
    KeptIsWellCut(Lines(agent));
    ShutWithLine(kept, own);
    ShutIsClosed(kept);
    FlatConcat(Shut(kept), [Line(own, [])]);
    FlatOne(Line(own, []));
    assert own + [] == own;
    LinesOfFlat(Shut(kept) + [Line(own, [])]);
    MergedSnoc(Shut(kept), Line(own, []));
  }

  // ---- what the bot reads back

  lemma PartsCons(line: Line, rest: seq<Line>)
    ensures Own([line] + rest) == Own([line]) + Own(rest) && Kept([line] + rest) == Kept([line]) + Kept(rest)
  {
    hide IsOwn;
    assert ([line] + rest)[1..] == rest && [line][1..] == [];
  }

  lemma {:induction false} OwnConcat(a: seq<Line>, b: seq<Line>)
    ensures Own(a + b) == Own(a) + Own(b) && Kept(a + b) == Kept(a) + Kept(b)
  {
    hide IsOwn;
    if a == [] {
      assert a + b == b;
    } else {
      OwnConcat(a[1..], b);
      assert a + b == [a[0]] + (a[1..] + b) && a == [a[0]] + a[1..];
      PartsCons(a[0], a[1..] + b);
      PartsCons(a[0], a[1..]);
      Regroup(Own([a[0]]), Own(a[1..]), Own(b));
      Regroup(Kept([a[0]]), Kept(a[1..]), Kept(b));
    }
  }

  lemma {:induction false} MergedOwnsNothing(ls: seq<Line>)
    requires Own(ls) == []
    ensures Own(Merged(ls)) == [] && Kept(Merged(ls)) == Merged(ls)
    decreases |ls|
  {
    hide Prefix;
    if ls != [] {
      if |ls| > 1 && Meet(ls[0], ls[1]) {
        MergedOwnsNothing(ls[2..]);
        assert ls[1..][1..] == ls[2..];
        assert Own(ls[1..]) == [];
        assert Merged(ls)[1..] == Merged(ls[2..]);
      } else {
        MergedOwnsNothing(ls[1..]);
        assert Merged(ls)[1..] == Merged(ls[1..]);
      }
    }
  }

  lemma LineOfBot(d: Text)
    ensures Own([Line(Prefix() + d, [])]) == [d] && Kept([Line(Prefix() + d, [])]) == []
  {
    hide Prefix;
    var ls := [Line(Prefix() + d, [])];
    assert ls[1..] == [];
    assert Prefix() <= Prefix() + d && (Prefix() + d)[|Prefix()|..] == d;
  }

  /** The new text holds one line of the bot's, and the others' lines are `Merged(Shut(...))` of the old ones. */
  lemma NewParts(agent: Text, r: Record, json: Json)
    requires Faithful(json) && IsRecord(r)
    ensures var ls := Lines(WithLine(agent, r, json));
            Own(ls) == [json.dump(r)] && Kept(ls) == Merged(Shut(Kept(Lines(agent))))
  {
    hide Prefix, Lines, Merged, Shut, Kept, Own, IsRecord;
    var others := Shut(Kept(Lines(agent)));
    NewLines(agent, r, json);
    MergedOwnsNothing(others);
    OwnConcat(Merged(others), [Line(Prefix() + json.dump(r), [])]);
    LineOfBot(json.dump(r));
    assert [] + [json.dump(r)] == [json.dump(r)];
    assert Merged(others) + [] == Merged(others);
  }

  /** The record written is the record read. */
  lemma RecordIsReadBack(agent: Text, r: Record, json: Json)
    requires Faithful(json) && IsRecord(r)
    ensures OwnedRecord(WithLine(agent, r, json), json) == Ok(Some(r))
  {
    hide Lines, Own, Kept, IsRecord;
    NewParts(agent, r, json);
    assert json.load(json.dump(r)) == Some(r);
  }

  /** Other people's text survives a command character for character; at most a line break is added at its end. */
  lemma ForeignTextIsKept(agent: Text, r: Record, json: Json)
    requires Faithful(json) && IsRecord(r)
    ensures Foreign(WithLine(agent, r, json)) == Closed(Foreign(agent))
  {
    hide Prefix, Lines, Merged, Shut, Kept, Own, Flat, WellCut, IsRecord;
    NewLines(agent, r, json);
    NewParts(agent, r, json);
    MergedIsFlat(Shut(Kept(Lines(agent))));
    ShutIsClosed(Kept(Lines(agent)));
  }

  /** So a later record simply replaces an earlier one. */
  lemma LastRecordWins(agent: Text, first: Record, second: Record, json: Json)
    requires Faithful(json) && IsRecord(first) && IsRecord(second)
    requires OwnedRecord(agent, json).Ok?
    ensures WithRecord(WithLine(agent, first, json), second, json) == WithRecord(agent, second, json)
  {
    hide Lines, Kept, Own, Foreign, OwnedRecord;
    ForeignTextIsKept(agent, first, json);
    RecordIsReadBack(agent, first, json);
    ClosedTwice(Foreign(agent));
  }

  lemma ClosedTwice(other: Text)
    ensures Closed(Closed(other)) == Closed(other)
  {
  }

  // ---- line by line

  /** The last line gets a break when it has none. */
  function Ended(ls: seq<Line>): seq<Line> {
    if ls == [] then []
    else if |ls| > 1 then [ls[0]] + Ended(ls[1..])
    else if ls[0].brk == [] then [Line(ls[0].text, [LF])]
    else ls
  }

  predicate EndsExotic(ls: seq<Line>) {
    ls != [] && Exotic(ls[|ls| - 1])
  }

  lemma {:induction false} ShutIsEnded(ls: seq<Line>)
    requires WellCut(ls)
    ensures !EndsExotic(ls) ==> Shut(ls) == Ended(ls)
    ensures EndsExotic(ls) ==> |Shut(ls)| == |ls| + 1 && |Flat(Shut(ls))| > |Flat(Ended(ls))|
    ensures Apart(Ended(ls)) <==> Apart(ls)
    decreases |ls|
  {
    if |ls| > 1 {
      ShutIsEnded(ls[1..]);
      assert Shut(ls)[1..] == Shut(ls[1..]) && Ended(ls)[1..] == Ended(ls[1..]);
      assert |ls| == 2 ==> ls[1..] == [ls[1]];
    } else if |ls| == 1 {
      assert ls == [ls[0]];
      if Exotic(ls[0]) {
        FlatConcat([ls[0]], [Line([], [LF])]);
        assert [ls[0]] + [Line([], [LF])] == [ls[0], Line([], [LF])];
        FlatOne(Line([], [LF]));
      }
    }
  }

  /**
   * The lines of the others, breaks included, are unchanged -- except for a break added to a last line that has none
   * -- exactly when the bot's line did not keep a lone CR and a lone LF apart and the text does not end in one of
   * Python's rarer line breaks.
   */
  lemma LinesAreKeptIff(agent: Text, r: Record, json: Json)
    requires Faithful(json) && IsRecord(r)
    ensures var kept := Kept(Lines(agent));
            Kept(Lines(WithLine(agent, r, json))) == Ended(kept) <==> Apart(kept) && !EndsExotic(kept)
  {
    hide Prefix, Lines, Merged, Shut, Ended, Kept, Own, Flat, WellCut, IsRecord, Apart;
    var kept := Kept(Lines(agent));
    NewLines(agent, r, json);
    NewParts(agent, r, json);
    ShutIsEnded(kept);
    MergedIsSame(Shut(kept));
    MergedIsFlat(Shut(kept));
    MergedIsApart(Shut(kept));
  }

  /** Merging leaves nothing to merge. */
  lemma {:induction false} MergedIsApart(ls: seq<Line>)
    ensures Apart(Merged(ls))
    ensures ls != [] ==>
              && Merged(ls) != [] && Merged(ls)[0].text == ls[0].text
              && (Merged(ls)[0] == ls[0] || Merged(ls)[0].brk == [CR, LF])
    decreases |ls|
  {
    if ls != [] {
      if |ls| > 1 && Meet(ls[0], ls[1]) {
        MergedIsApart(ls[2..]);
        assert Merged(ls)[1..] == Merged(ls[2..]);
      } else {
        MergedIsApart(ls[1..]);
        assert Merged(ls)[1..] == Merged(ls[1..]);
      }
    }
  }

  /** A field holding one LINE SEPARATOR: after a command there is an empty line of nobody's that was not there before. */
  lemma RareBreakAddsALine(r: Record, json: Json)
    requires Faithful(json) && IsRecord(r)
    ensures var agent := [0x2028];
            Kept(Lines(WithLine(agent, r, json))) != Ended(Kept(Lines(agent)))
  {
    hide Prefix;
    var agent: Text := [0x2028];
    LinesCons([], [0x2028], []);
    assert [] + ([0x2028] + []) == agent;
    assert Lines(agent) == [Line([], [0x2028])];
    LinesAreKeptIff(agent, r, json);
  }
}
