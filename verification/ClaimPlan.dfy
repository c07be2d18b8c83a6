/**
 * What a command of `scripts/issue_claim_bot.py` decides to do from the first snapshot it sees, and what the board
 * goes through while it does it.
 */
module ClaimPlan {
  import opened Prelude
  import opened AgentLines
  import opened ClaimRecord
  import Utf16

  /** A snapshot. `ids` stands for the project, item, field and option identifiers, which are compared too. */
  datatype Board = Board(ids: nat, open: bool, locked: bool, assignees: set<Text>, status: Status, agent: Text)

  datatype Action = Claim | Unclaim | Review(pr: int)

  /** A command comment; `action` is absent when its text is none of the three commands. */
  datatype Request = Request(comment: int, actor: Text, action: Option<Action>)

  /** What `authorize` and `command` make sure of. */
  predicate IsRequest(req: Request) {
    && IsLogin(req.actor)
    && req.comment > 0
    && (req.action.Some? && req.action.value.Review? ==> req.action.value.pr > 0)
  }

  function Lower(c: CodePoint): CodePoint {
    if 0x41 <= c <= 0x5A then c + 0x20 else c
  }

  /** `casefold` of a login, which is ASCII. */
  function Fold(t: Text): Text {
    if t == [] then [] else [Lower(t[0])] + Fold(t[1..])
  }

  /** One letter of Basic Latin in either case, or the same character. */
  predicate SameLetter(a: CodePoint, b: CodePoint) {
    a == b || (0x41 <= a <= 0x5A && b == a + 0x20) || (0x41 <= b <= 0x5A && a == b + 0x20)
  }

  /** Logins fold to the same text exactly when they differ in the case of letters at most. */
  lemma {:induction false} FoldIgnoresCase(s: Text, t: Text)
    ensures Fold(s) == Fold(t) <==> |s| == |t| && forall k :: 0 <= k < |s| ==> SameLetter(s[k], t[k])
  {
    if s != [] && t != [] {
      FoldIgnoresCase(s[1..], t[1..]);
      assert Fold(s) == [Lower(s[0])] + Fold(s[1..]) && Fold(t) == [Lower(t[0])] + Fold(t[1..]);
      assert Fold(s)[1..] == Fold(s[1..]) && Fold(t)[1..] == Fold(t[1..]);
      assert Lower(s[0]) == Lower(t[0]) <==> SameLetter(s[0], t[0]);
      assert forall k :: 1 <= k < |s| ==> s[k] == s[1..][k - 1];
      assert forall k :: 1 <= k < |t| ==> t[k] == t[1..][k - 1];
    }
  }

  // ---- board writes

  datatype Write = Add(login: Text) | Remove(login: Text) | SetStatus(status: Status) | SetAgent(agent: Text)

  function Apply(b: Board, w: Write): Board {
    match w
    case Add(login) => b.(assignees := b.assignees + {Fold(login)})
    case Remove(login) => b.(assignees := b.assignees - {Fold(login)})
    case SetStatus(status) => b.(status := status)
    case SetAgent(agent) => b.(agent := agent)
  }

  function ApplyAll(b: Board, ws: seq<Write>): Board {
    if ws == [] then b else Apply(ApplyAll(b, ws[..|ws| - 1]), ws[|ws| - 1])
  }

  // ---- the decision

  datatype Reason =
    | NotACommand | NotOpen | Outdated | SeveralAssignees | Taken | UnderReview | WrongStatus | NotYours | BadPull
    | Field(trouble: Trouble)

  datatype Verdict =
    | No(reason: Reason)
    | Free                                        // nothing to release
    | Yes(owner: Option<Text>, status: Status)    // the owner to record and the status to reach

  predicate Names(record: Option<Record>, actor: Text) {
    record.Some? && record.value.owner.Some? && Fold(record.value.owner.value) == actor
  }

  function Admit(b: Board, req: Request, json: Json): Verdict {
    if req.action.None? then No(NotACommand)
    else if !b.open || b.locked then No(NotOpen)
    else
      match OwnedRecord(b.agent, json)
      case Err(trouble) => No(Field(trouble))
      case Ok(record) =>
        var actor := Fold(req.actor);
        if record.Some? && req.comment <= record.value.request then No(Outdated)
        else if |b.assignees| > 1 then No(SeveralAssignees)
        else match req.action.value
          case Claim =>
            if b.assignees != {} && b.assignees != {actor} then No(Taken)
            else if b.status.InReview? then No(UnderReview)
            else if !(b.status.Backlog? || b.status.Ready? || (b.assignees != {} && b.status.InProgress?)) then No(WrongStatus)
            else Yes(Some(req.actor), InProgress)
          case Unclaim =>
            if b.assignees == {} && b.status.Ready? && !Names(record, actor) then Free
            else if b.assignees != {actor} && !(b.assignees == {} && Names(record, actor)) then No(NotYours)
            else if !(b.status.Ready? || b.status.InProgress? || b.status.InReview?) then No(WrongStatus)
            else Yes(None, Ready)
          case Review(_) =>
            if b.assignees != {actor} || !(b.status.InProgress? || b.status.InReview?) then No(NotYours)
            else Yes(Some(req.actor), InReview)
  }

  function RecordOf(req: Request, owner: Option<Text>, status: Status): Record
    requires req.action.Some?
  {
    Record(req.actor, owner, req.comment, status, if req.action.value.Review? then Some(req.action.value.pr) else None)
  }

  /** The writes that take `b` to the goal, in the order they are issued. */
  function WritesFor(b: Board, req: Request, status: Status, text: Text): seq<Write>
    requires req.action.Some?
  {
    (if req.action.value.Claim? && b.assignees == {} then [Add(req.actor)]
     else if req.action.value.Unclaim? && b.assignees != {} then [Remove(req.actor)]
     else [])
    + (if b.status != status then [SetStatus(status)] else [])
    + (if b.agent != text then [SetAgent(text)] else [])
  }

  function Goal(b: Board, req: Request, status: Status, text: Text): Board
    requires req.action.Some?
  {
    var assignees := if req.action.value.Claim? then {Fold(req.actor)} else if req.action.value.Unclaim? then {} else b.assignees;
    b.(assignees := assignees, status := status, agent := text)
  }

  datatype Plan = Stop(reason: Reason) | AlreadyFree | Go(writes: seq<Write>, goal: Board)

  /** The whole decision; `pullIsGood` is what the pull request check said, for a review. */
  function PlanOf(b: Board, req: Request, pullIsGood: bool, json: Json): Plan {
    match Admit(b, req, json)
    case No(reason) => Stop(reason)
    case Free => AlreadyFree
    case Yes(owner, status) =>
      if req.action.value.Review? && !pullIsGood then Stop(BadPull)
      else match WithRecord(b.agent, RecordOf(req, owner, status), json)
        case Err(trouble) => Stop(Field(trouble))
        case Ok(text) => Go(WritesFor(b, req, status, text), Goal(b, req, status, text))
  }

  // ---- which issues a command is accepted on, by what is on the board

  /** An open issue whose record, if there is one, is readable and older than the command. */
  predicate Listens(b: Board, req: Request, json: Json) {
    && b.open && !b.locked
    && OwnedRecord(b.agent, json).Ok?
    && (OwnedRecord(b.agent, json).value.Some? ==> OwnedRecord(b.agent, json).value.value.request < req.comment)
  }

  /** The Agent text with the command's own record is Unicode and has at most 1024 UTF-16 units. */
  predicate Fits(b: Board, r: Record, json: Json) {
    IsUnicode(WithLine(b.agent, r, json)) && |Utf16.UnitsOf(WithLine(b.agent, r, json))| <= 1024
  }

  predicate NamedInRecord(b: Board, actor: Text, json: Json) {
    OwnedRecord(b.agent, json).Ok? && Names(OwnedRecord(b.agent, json).value, actor)
  }

  /** Free and waiting, or the requester's own and not yet under review. */
  predicate MayClaim(b: Board, req: Request, json: Json)
    requires req.action.Some?
  {
    && Listens(b, req, json) && Fits(b, RecordOf(req, Some(req.actor), InProgress), json)
    && (|| (b.assignees == {} && b.status in {Backlog, Ready})
        || (b.assignees == {Fold(req.actor)} && b.status in {Backlog, Ready, InProgress}))
  }

  /** The requester's own, or nobody's with a record that still names the requester, and taken up or ready. */
  predicate MayRelease(b: Board, req: Request, json: Json)
    requires req.action.Some?
  {
    && Listens(b, req, json) && Fits(b, RecordOf(req, None, Ready), json)
    && (b.assignees == {Fold(req.actor)} || (b.assignees == {} && NamedInRecord(b, Fold(req.actor), json)))
    && b.status in {Ready, InProgress, InReview}
  }

  /** The requester's own, taken up or under review already. */
  predicate MayAskReview(b: Board, req: Request, json: Json)
    requires req.action.Some?
  {
    && Listens(b, req, json) && Fits(b, RecordOf(req, Some(req.actor), InReview), json)
    && b.assignees == {Fold(req.actor)} && b.status in {InProgress, InReview}
  }

  predicate MayGo(b: Board, req: Request, pullIsGood: bool, json: Json) {
    match req.action
    case None => false
    case Some(Claim) => MayClaim(b, req, json)
    case Some(Unclaim) => MayRelease(b, req, json)
    case Some(Review(_)) => MayAskReview(b, req, json) && pullIsGood
  }

  /** Where a command leads: the requester or nobody assigned, its status, and its record beside the others' text. */
  function LeadsTo(b: Board, req: Request, json: Json): Board
    requires req.action.Some?
  {
    match req.action.value
    case Claim =>
      b.(assignees := {Fold(req.actor)}, status := InProgress,
         agent := WithLine(b.agent, RecordOf(req, Some(req.actor), InProgress), json))
    case Unclaim =>
      b.(assignees := {}, status := Ready, agent := WithLine(b.agent, RecordOf(req, None, Ready), json))
    case Review(_) =>
      b.(assignees := {Fold(req.actor)}, status := InReview,
         agent := WithLine(b.agent, RecordOf(req, Some(req.actor), InReview), json))
  }

  /** A command goes exactly on the issues it is for, and its goal is what it is for. */
  lemma GoesIff(b: Board, req: Request, pullIsGood: bool, json: Json)
    ensures PlanOf(b, req, pullIsGood, json).Go? <==> MayGo(b, req, pullIsGood, json)
    ensures PlanOf(b, req, pullIsGood, json).Go? ==> PlanOf(b, req, pullIsGood, json).goal == LeadsTo(b, req, json)
  {
    hide OwnedRecord, WithLine, IsUnicode, Utf16.UnitsOf, WritesFor;
    assert b.assignees == {} ==> |b.assignees| == 0;
    assert b.assignees == {Fold(req.actor)} ==> |b.assignees| == 1;
  }

  /** A release of an issue nobody is assigned to, that is Ready, and whose record does not name the requester. */
  predicate NothingToRelease(b: Board, req: Request, json: Json) {
    && req.action == Some(Unclaim) && Listens(b, req, json)
    && b.assignees == {} && b.status.Ready? && !NamedInRecord(b, Fold(req.actor), json)
  }

  /** A release finds nothing to do exactly there. */
  lemma AlreadyFreeIff(b: Board, req: Request, pullIsGood: bool, json: Json)
    ensures PlanOf(b, req, pullIsGood, json).AlreadyFree? <==> NothingToRelease(b, req, json)
  {
    hide OwnedRecord, WithRecord, WritesFor;
    assert b.assignees == {} ==> |b.assignees| == 0;
  }

  // ---- what a refusal names

  predicate SomeoneElse(b: Board, actor: Text) {
    exists x :: x in b.assignees && x != actor
  }

  /** The record a command would leave, whatever else is wrong with it. */
  function NewRecord(req: Request): Record
    requires req.action.Some?
  {
    match req.action.value
    case Claim => RecordOf(req, Some(req.actor), InProgress)
    case Unclaim => RecordOf(req, None, Ready)
    case Review(_) => RecordOf(req, Some(req.actor), InReview)
  }

  /** This is wrong with a command, by what is on the board. */
  predicate IsWrong(reason: Reason, b: Board, req: Request, pullIsGood: bool, json: Json) {
    var actor, claim, release, review :=
      Fold(req.actor), req.action == Some(Claim), req.action == Some(Unclaim), req.action.Some? && req.action.value.Review?;
    match reason
    case NotACommand => req.action.None?
    case NotOpen => !b.open || b.locked
    case Field(SeveralRecords) => OwnedRecord(b.agent, json) == Err(SeveralRecords)
    case Field(BrokenRecord) => OwnedRecord(b.agent, json) == Err(BrokenRecord)
    case Outdated =>
      OwnedRecord(b.agent, json).Ok? && OwnedRecord(b.agent, json).value.Some?
      && OwnedRecord(b.agent, json).value.value.request >= req.comment
    case SeveralAssignees => exists x, y :: x in b.assignees && y in b.assignees && x != y
    case Taken => claim && SomeoneElse(b, actor)
    case NotYours =>
      || (release && (SomeoneElse(b, actor) || (b.assignees == {} && !b.status.Ready? && !NamedInRecord(b, actor, json))))
      || (review && (b.assignees != {actor} || b.status !in {InProgress, InReview}))
    case UnderReview => claim && b.status.InReview?
    case WrongStatus =>
      || (claim && b.status !in {Backlog, Ready} && (b.assignees == {} || !b.status.InProgress?))
      || (release && b.status !in {Ready, InProgress, InReview})
    case BadPull => review && !pullIsGood
    case Field(LoneSurrogate) => req.action.Some? && !IsUnicode(WithLine(b.agent, NewRecord(req), json))
    case Field(AgentFull) => req.action.Some? && |Utf16.UnitsOf(WithLine(b.agent, NewRecord(req), json))| > 1024
  }

  /** What is looked at first. */
  function Precedence(reason: Reason): nat {
    match reason
    case NotACommand => 0
    case NotOpen => 1
    case Field(SeveralRecords) => 2
    case Field(BrokenRecord) => 3
    case Outdated => 4
    case SeveralAssignees => 5
    case Taken => 6
    case NotYours => 7
    case UnderReview => 8
    case WrongStatus => 9
    case BadPull => 10
    case Field(LoneSurrogate) => 11
    case Field(AgentFull) => 12
  }

  ghost predicate IsFirstWrong(reason: Reason, b: Board, req: Request, pullIsGood: bool, json: Json) {
    && IsWrong(reason, b, req, pullIsGood, json)
    && forall other :: Precedence(other) < Precedence(reason) ==> !IsWrong(other, b, req, pullIsGood, json)
  }

  lemma Crowd(people: set<Text>)
    ensures |people| > 1 <==> exists x, y :: x in people && y in people && x != y
  {
    if people != {} {
      var x :| x in people;
      assert |people - {x}| == |people| - 1;
      if |people| > 1 {
        var y :| y in people - {x};
        assert x in people && y in people && x != y;
      }
      if x, y :| x in people && y in people && x != y {
        assert {x, y} <= people;
        SubsetIsSmaller({x, y}, people);
      }
    }
  }

  lemma SubsetIsSmaller(a: set<Text>, b: set<Text>)
    requires a <= b
    ensures |a| <= |b|
  {
    assert b == a + (b - a);
  }

  lemma OnlyOne(people: set<Text>, actor: Text)
    requires |people| <= 1
    ensures (exists x :: x in people && x != actor) <==> people != {} && people != {actor}
  {
    if people != {} {
      var x :| x in people;
      assert |people - {x}| == |people| - 1;
      assert people == {x};
    }
  }

  lemma StopIsWrong(b: Board, req: Request, pullIsGood: bool, json: Json)
    requires PlanOf(b, req, pullIsGood, json).Stop?
    ensures IsFirstWrong(PlanOf(b, req, pullIsGood, json).reason, b, req, pullIsGood, json)
  {
    hide OwnedRecord, WithLine, IsUnicode, Utf16.UnitsOf, WritesFor;
    TroubleOfReading(b, json);
    Crowd(b.assignees);
    if |b.assignees| <= 1 {
      OnlyOne(b.assignees, Fold(req.actor));
    }
  }

  lemma TroubleOfReading(b: Board, json: Json)
    ensures OwnedRecord(b.agent, json).Err? ==> OwnedRecord(b.agent, json).error in {SeveralRecords, BrokenRecord}
  {
  }

  lemma GoodIsNotWrong(b: Board, req: Request, pullIsGood: bool, json: Json, reason: Reason)
    requires PlanOf(b, req, pullIsGood, json).Go?
    ensures !IsWrong(reason, b, req, pullIsGood, json)
  {
    hide OwnedRecord, WithLine, IsUnicode, Utf16.UnitsOf, WritesFor;
    Crowd(b.assignees);
    OnlyOne(b.assignees, Fold(req.actor));
  }

  /** A refusal names the first thing that is wrong, in the order in which things are looked at. */
  lemma RefusalNamesFirst(b: Board, req: Request, pullIsGood: bool, json: Json, reason: Reason)
    ensures PlanOf(b, req, pullIsGood, json) == Stop(reason)
       <==> IsFirstWrong(reason, b, req, pullIsGood, json) && !NothingToRelease(b, req, json)
  {
    hide IsWrong, PlanOf, NothingToRelease;
    var plan := PlanOf(b, req, pullIsGood, json);
    AlreadyFreeIff(b, req, pullIsGood, json);
    if plan.Stop? {
      StopIsWrong(b, req, pullIsGood, json);
    } else if plan.Go? {
      GoodIsNotWrong(b, req, pullIsGood, json, reason);
    }
  }

  // ---- the writes reach the goal

  lemma RecordOfIsRecord(b: Board, req: Request, json: Json)
    requires IsRequest(req) && Admit(b, req, json).Yes?
    ensures IsRecord(RecordOf(req, Admit(b, req, json).owner, Admit(b, req, json).status))
  {
  }

  lemma GoParts(b: Board, req: Request, good: bool, json: Json)
    requires PlanOf(b, req, good, json).Go?
    ensures req.action.Some? && Admit(b, req, json).Yes? && OwnedRecord(b.agent, json).Ok?
    ensures var v := Admit(b, req, json);
            PlanOf(b, req, good, json).goal.agent == WithLine(b.agent, RecordOf(req, v.owner, v.status), json)
  {
    hide OwnedRecord, WithLine, HasRoom, IsUnicode, WritesFor;
  }

  /** A command writes a record of its own, so the Agent text always changes. */
  lemma AgentChanges(b: Board, req: Request, json: Json)
    requires Faithful(json) && IsRequest(req) && Admit(b, req, json).Yes?
    ensures var v := Admit(b, req, json);
            && WithLine(b.agent, RecordOf(req, v.owner, v.status), json) != b.agent
            && OwnedRecord(WithLine(b.agent, RecordOf(req, v.owner, v.status), json), json)
               == Ok(Some(RecordOf(req, v.owner, v.status)))
  {
    hide OwnedRecord, WithLine;
    var v := Admit(b, req, json);
    RecordOfIsRecord(b, req, json);
    RecordIsReadBack(b.agent, RecordOf(req, v.owner, v.status), json);
  }

  /**
   * `c` is a state on the way from `b` to `goal`: assignment first, then status, then the Agent text.
   */
  predicate OnTheWay(b: Board, c: Board, goal: Board) {
    && c.ids == b.ids && c.open == b.open && c.locked == b.locked
    && (c == b
        || (c.assignees == goal.assignees && c.agent == b.agent && (c.status == b.status || c.status == goal.status))
        || c == goal)
  }

  /** After any prefix of the writes the board is on the way; after all of them, and only then, at the goal. */
  lemma PrefixesAreOnTheWay(b: Board, req: Request, pullIsGood: bool, json: Json, k: nat)
    requires Faithful(json) && IsRequest(req) && PlanOf(b, req, pullIsGood, json).Go?
    requires k <= |PlanOf(b, req, pullIsGood, json).writes|
    ensures var plan := PlanOf(b, req, pullIsGood, json);
            var c := ApplyAll(b, plan.writes[..k]);
            && OnTheWay(b, c, plan.goal)
            && (c == plan.goal <==> k == |plan.writes|)
            && (c == b <==> k == 0)
            && (c.agent == plan.goal.agent <==> k == |plan.writes|)
  {
    hide OwnedRecord, WithLine, HasRoom, IsUnicode, ApplyAll, OnTheWay;
    var plan := PlanOf(b, req, pullIsGood, json);
    var v := Admit(b, req, json);
    AgentChanges(b, req, json);
    AssigneesChange(b, req, pullIsGood, json);
    assert plan.writes == ThreeWrites(b, People(b, req), v.status, plan.goal.agent);
    ThreeAreOnTheWay(b, People(b, req), v.status, plan.goal.agent, k);
  }

  /** The change of assignees a command asks for. */
  function People(b: Board, req: Request): Option<Write>
    requires req.action.Some?
  {
    if req.action.value.Claim? && b.assignees == {} then Some(Add(req.actor))
    else if req.action.value.Unclaim? && b.assignees != {} then Some(Remove(req.actor))
    else None
  }

  /** Every write of a command changes the board it is made on; assignees are changed first and only by and for the requester. */
  lemma WriteChanges(b: Board, req: Request, pullIsGood: bool, json: Json, k: nat)
    requires Faithful(json) && IsRequest(req) && PlanOf(b, req, pullIsGood, json).Go?
    requires k < |PlanOf(b, req, pullIsGood, json).writes|
    ensures var ws := PlanOf(b, req, pullIsGood, json).writes;
            && Apply(ApplyAll(b, ws[..k]), ws[k]) != ApplyAll(b, ws[..k])
            && (ws[k].Add? ==> k == 0 && ws[k].login == req.actor && b.assignees == {})
            && (ws[k].Remove? ==> k == 0 && ws[k].login == req.actor && b.assignees == {Fold(req.actor)})
  {
    hide OwnedRecord, WithLine, HasRoom, IsUnicode, ApplyAll, Apply;
    var plan := PlanOf(b, req, pullIsGood, json);
    var v := Admit(b, req, json);
    AgentChanges(b, req, json);
    AssigneesChange(b, req, pullIsGood, json);
    assert plan.writes == ThreeWrites(b, People(b, req), v.status, plan.goal.agent);
    NoIdleWrite(b, People(b, req), v.status, plan.goal.agent, k);
  }

  function ThreeWrites(b: Board, people: Option<Write>, status: Status, text: Text): seq<Write> {
    (if people.Some? then [people.value] else []) + (if b.status != status then [SetStatus(status)] else []) + [SetAgent(text)]
  }

  function Assigned(b: Board, people: Option<Write>): Board {
    if people.Some? then Apply(b, people.value) else b
  }

  /** Adding to nobody, or removing the only assignee, is what the goal asks for. */
  lemma AssigneesChange(b: Board, req: Request, pullIsGood: bool, json: Json)
    requires PlanOf(b, req, pullIsGood, json).Go?
    ensures var goal := PlanOf(b, req, pullIsGood, json).goal;
            && (req.action.value.Claim? && b.assignees == {} ==>
                Apply(b, Add(req.actor)) == b.(assignees := goal.assignees) != b)
            && (req.action.value.Unclaim? && b.assignees != {} ==>
                Apply(b, Remove(req.actor)) == b.(assignees := goal.assignees) != b)
            && (req.action.value.Claim? && b.assignees != {} ==> goal.assignees == b.assignees)
            && (req.action.value.Unclaim? && b.assignees == {} ==> goal.assignees == b.assignees)
  {
    hide OwnedRecord, WithRecord, Admit;
    AdmittedAssignees(b, req, json);
    JoinAndLeave(Fold(req.actor));
  }

  /** A claim is admitted on a free issue or the requester's own; so is a release. */
  lemma AdmittedAssignees(b: Board, req: Request, json: Json)
    requires Admit(b, req, json).Yes?
    ensures req.action.Some?
    ensures !req.action.value.Review? ==> b.assignees == {} || b.assignees == {Fold(req.actor)}
  {
    hide OwnedRecord;
  }

  lemma JoinAndLeave(a: Text)
    ensures {} + {a} == {a} != {} && {a} - {a} == {}
  {
    assert a in {a};
  }

  lemma ThreeAreOnTheWay(b: Board, people: Option<Write>, status: Status, text: Text, k: nat)
    requires text != b.agent
    requires people.Some? ==> Apply(b, people.value) == b.(assignees := Apply(b, people.value).assignees) != b
    requires k <= |ThreeWrites(b, people, status, text)|
    ensures var ws := ThreeWrites(b, people, status, text);
            var c, goal := ApplyAll(b, ws[..k]), Assigned(b, people).(status := status, agent := text);
            && OnTheWay(b, c, goal)
            && (c == goal <==> k == |ws|) && (c == b <==> k == 0) && (c.agent == goal.agent <==> k == |ws|)
  {
    hide ApplyAll, Apply, OnTheWay;
    var ws := ThreeWrites(b, people, status, text);
    var there := Assigned(b, people);
    var before := if people.Some? then [people.value] else [];
    var middle := if b.status != status then [SetStatus(status)] else [];
    assert ws == before + middle + [SetAgent(text)];
    PrefixStates(b, ws, k);
    FieldWrite(there, status, text);
    FieldWrite(there.(status := status), status, text);
    var c := ApplyAll(b, ws[..k]);
    var n := |before| + |middle|;
    if k == n + 1 {
      assert c == there.(status := status, agent := text);
    } else if k == 0 {
      assert c == b;
    } else {
      assert c == if people.Some? && k == 1 then there else there.(status := status);
    }
    WaysOn(b, there, c, status, text);
  }

  lemma AgentIsOld(b: Board, c: Board, goal: Board)
    requires OnTheWay(b, c, goal) && c.agent != goal.agent
    ensures c.agent == b.agent
  {
  }

  /** No write of the three is idle, and an assignment comes first. */
  lemma NoIdleWrite(b: Board, people: Option<Write>, status: Status, text: Text, k: nat)
    requires text != b.agent
    requires people.Some? ==> Apply(b, people.value) == b.(assignees := Apply(b, people.value).assignees) != b
    requires people.Some? ==> people.value.Add? || people.value.Remove?
    requires k < |ThreeWrites(b, people, status, text)|
    ensures var ws := ThreeWrites(b, people, status, text);
            && Apply(ApplyAll(b, ws[..k]), ws[k]) != ApplyAll(b, ws[..k])
            && (ws[k].Add? || ws[k].Remove? ==> k == 0 && people == Some(ws[0]))
  {
    hide ApplyAll, Apply, OnTheWay;
    var ws := ThreeWrites(b, people, status, text);
    var before := if people.Some? then [people.value] else [];
    var middle := if b.status != status then [SetStatus(status)] else [];
    assert ws == before + middle + [SetAgent(text)];
    var c := ApplyAll(b, ws[..k]);
    FieldWrite(c, status, text);
    if k == |before| + |middle| {
      assert ws[k] == SetAgent(text);
      ThreeAreOnTheWay(b, people, status, text, k);
      AgentIsOld(b, c, Assigned(b, people).(status := status, agent := text));
    } else if k == |before| {
      assert ws[k] == SetStatus(status);
      PrefixStates(b, ws, k);
      assert c == Assigned(b, people);
    } else {
      assert ws[k] == people.value;
      PrefixStates(b, ws, k);
    }
  }

  /** The states between `b` and the goal, told apart by what has changed already. */
  lemma WaysOn(b: Board, there: Board, c: Board, status: Status, text: Text)
    requires text != b.agent && there == b.(assignees := there.assignees)
    requires c == b || c == there || c == there.(status := status) || c == there.(status := status, agent := text)
    ensures OnTheWay(b, c, there.(status := status, agent := text))
    ensures c.agent == text <==> c == there.(status := status, agent := text)
  {
  }

  lemma FieldWrite(b: Board, status: Status, text: Text)
    ensures Apply(b, SetStatus(status)) == b.(status := status) && Apply(b, SetAgent(text)) == b.(agent := text)
  {
  }

  lemma PrefixStates(b: Board, ws: seq<Write>, k: nat)
    requires k <= |ws| <= 3
    ensures ApplyAll(b, ws[..k]) == if k == 0 then b else if k == 1 then Apply(b, ws[0])
                                    else if k == 2 then Apply(Apply(b, ws[0]), ws[1])
                                    else Apply(Apply(Apply(b, ws[0]), ws[1]), ws[2])
  {
    hide Apply;
    if k > 0 {
      assert ws[..k][..k - 1] == ws[..k - 1];
      PrefixStates(b, ws, k - 1);
    }
  }
}
