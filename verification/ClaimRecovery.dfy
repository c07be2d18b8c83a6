/**
 * What a newer command finds after an interrupted one, and what holds over whole histories of commands of
 * `scripts/issue_claim_bot.py`.
 */
module ClaimRecovery {
  import opened Prelude
  import opened AgentLines
  import opened ClaimRecord
  import opened ClaimPlan

  /** The board after the first `k` writes of a command. */
  function Interrupted(b: Board, plan: Plan, k: nat): Board
    requires plan.Go? && k <= |plan.writes|
  {
    ApplyAll(b, plan.writes[..k])
  }

  /** `second` comes later and from the same login. */
  predicate Follows(first: Request, second: Request) {
    && IsRequest(first) && IsRequest(second)
    && first.comment < second.comment && Fold(first.actor) == Fold(second.actor)
  }

  /** The record and the room a newer command finds, wherever the first one stopped. */
  lemma FieldOnTheWay(b: Board, first: Request, good: bool, json: Json, k: nat, r: Record)
    requires Faithful(json) && IsRequest(first) && PlanOf(b, first, good, json).Go? && IsRecord(r)
    requires k <= |PlanOf(b, first, good, json).writes|
    ensures var plan := PlanOf(b, first, good, json);
            var v := Admit(b, first, json);
            var c := Interrupted(b, plan, k);
            && OnTheWay(b, c, plan.goal)
            && OwnedRecord(c.agent, json)
               == (if k == |plan.writes| then Ok(Some(RecordOf(first, v.owner, v.status))) else OwnedRecord(b.agent, json))
            && WithRecord(c.agent, r, json) == WithRecord(b.agent, r, json)
  {
    hide OwnedRecord, WithLine, HasRoom, IsUnicode, Admit, WritesFor, OnTheWay, ApplyAll;
    GoParts(b, first, good, json);
    var plan := PlanOf(b, first, good, json);
    var v := Admit(b, first, json);
    PrefixesAreOnTheWay(b, first, good, json, k);
    var c := Interrupted(b, plan, k);
    if k == |plan.writes| {
      AgentChanges(b, first, json);
      RecordOfIsRecord(b, first, json);
      LastRecordWins(b.agent, RecordOf(first, v.owner, v.status), r, json);
    } else {
      AgentIsOld(b, c, plan.goal);
    }
  }

  lemma OldRecordIsOlder(b: Board, req: Request, json: Json)
    requires !Admit(b, req, json).No?
    ensures OwnedRecord(b.agent, json).Ok?
    ensures var record := OwnedRecord(b.agent, json).value; record.Some? ==> record.value.request < req.comment
  {
  }

  // ---- a claim

  /**
   * However far a claim got, a newer claim by the same login is accepted exactly when its record fits the Agent
   * field, and then it reaches the state the first one was after.
   */
  lemma ClaimRecovers(b: Board, first: Request, second: Request, json: Json, k: nat)
    requires Faithful(json) && Follows(first, second)
    requires first.action == Some(Claim) && second.action == Some(Claim)
    requires PlanOf(b, first, true, json).Go? && k <= |PlanOf(b, first, true, json).writes|
    ensures var text := WithRecord(b.agent, RecordOf(second, Some(second.actor), InProgress), json);
            var again := PlanOf(Interrupted(b, PlanOf(b, first, true, json), k), second, true, json);
            && (again.Go? <==> text.Ok?)
            && (again.Go? ==>
                again.goal == b.(assignees := {Fold(second.actor)}, status := InProgress, agent := text.value))
  {
    hide OwnedRecord, WithRecord, ApplyAll, OnTheWay, Interrupted;
    var plan := PlanOf(b, first, true, json);
    var c := Interrupted(b, plan, k);
    var r := RecordOf(second, Some(second.actor), InProgress);
    FieldOnTheWay(b, first, true, json, k, r);
    OldRecordIsOlder(b, first, json);
    ClaimStates(b, first, json, c);
    assert Admit(c, second, json) == Yes(Some(second.actor), InProgress);
  }

  /** The states a claim passes through are all states a claim may start from. */
  lemma ClaimStates(b: Board, first: Request, json: Json, c: Board)
    requires first.action == Some(Claim) && PlanOf(b, first, true, json).Go?
    requires OnTheWay(b, c, PlanOf(b, first, true, json).goal)
    ensures c.ids == b.ids && c.open && !c.locked && |c.assignees| <= 1
    ensures c.assignees == {} || c.assignees == {Fold(first.actor)}
    ensures c.status.Backlog? || c.status.Ready? || (c.assignees != {} && c.status.InProgress?)
  {
    hide OwnedRecord, WithRecord, WritesFor;
  }

  /** A claim that assigned but got no further can be released, except from Backlog. */
  lemma PartialClaimIsReleased(b: Board, first: Request, second: Request, json: Json, k: nat)
    requires Faithful(json) && Follows(first, second)
    requires first.action == Some(Claim) && second.action == Some(Unclaim)
    requires PlanOf(b, first, true, json).Go? && 0 < k <= |PlanOf(b, first, true, json).writes|
    ensures var text := WithRecord(b.agent, RecordOf(second, None, Ready), json);
            var c := Interrupted(b, PlanOf(b, first, true, json), k);
            var release := PlanOf(c, second, true, json);
            && (release.Go? <==> text.Ok? && !c.status.Backlog?)
            && (release.Go? ==> release.goal == b.(assignees := {}, status := Ready, agent := text.value))
  {
    hide OwnedRecord, WithRecord, ApplyAll, OnTheWay, Interrupted;
    var plan := PlanOf(b, first, true, json);
    var c := Interrupted(b, plan, k);
    FieldOnTheWay(b, first, true, json, k, RecordOf(second, None, Ready));
    OldRecordIsOlder(b, first, json);
    ClaimStates(b, first, json, c);
    AssignedFirst(b, first, json, k);
  }

  lemma AssignedFirst(b: Board, first: Request, json: Json, k: nat)
    requires Faithful(json) && IsRequest(first) && first.action == Some(Claim)
    requires PlanOf(b, first, true, json).Go? && 0 < k <= |PlanOf(b, first, true, json).writes|
    ensures Interrupted(b, PlanOf(b, first, true, json), k).assignees == {Fold(first.actor)}
  {
    hide OwnedRecord, WithRecord, ApplyAll, WritesFor;
    PrefixesAreOnTheWay(b, first, true, json, k);
  }

  // ---- a release

  /** A release leads to nobody assigned and Ready, or finds that already so. */
  predicate Releases(plan: Plan) {
    plan.AlreadyFree? || (plan.Go? && plan.goal.assignees == {} && plan.goal.status.Ready?)
  }

  predicate RecordNames(agent: Text, actor: Text, json: Json) {
    OwnedRecord(agent, json).Ok? && Names(OwnedRecord(agent, json).value, actor)
  }

  /** The states a release passes through. */
  lemma ReleaseStates(b: Board, first: Request, json: Json, k: nat)
    requires Faithful(json) && IsRequest(first) && first.action == Some(Unclaim)
    requires PlanOf(b, first, true, json).Go? && k <= |PlanOf(b, first, true, json).writes|
    ensures var plan := PlanOf(b, first, true, json);
            var c := Interrupted(b, plan, k);
            && c.open && !c.locked
            && (k == 0 ==> c == b)
            && (k > 0 ==> c.assignees == {} || c == b)
            && (k == 0 <==> c == b)
            && (b.assignees == {} || b.assignees == {Fold(first.actor)})
            && (b.assignees == {} ==> RecordNames(b.agent, Fold(first.actor), json))
            && (k == |plan.writes| ==> c.status.Ready?)
            && (c.status.Ready? || c.status.InProgress? || c.status.InReview?)
  {
    hide OwnedRecord, WithRecord, ApplyAll, WritesFor;
    PrefixesAreOnTheWay(b, first, true, json, k);
  }

  /**
   * However far a release got, a newer one by the same login frees the issue exactly when nothing of the first is left
   * to do, or the first one had not begun or found a record naming that login, and the newer record fits.
   */
  lemma UnclaimRecoversIff(b: Board, first: Request, second: Request, json: Json, k: nat)
    requires Faithful(json) && Follows(first, second)
    requires first.action == Some(Unclaim) && second.action == Some(Unclaim)
    requires PlanOf(b, first, true, json).Go? && k <= |PlanOf(b, first, true, json).writes|
    ensures var plan := PlanOf(b, first, true, json);
            var c := Interrupted(b, plan, k);
            Releases(PlanOf(c, second, true, json))
            <==> || (c.assignees == {} && c.status.Ready? && (k == |plan.writes| || !RecordNames(b.agent, Fold(first.actor), json)))
                 || ((k == 0 || RecordNames(b.agent, Fold(first.actor), json))
                     && WithRecord(b.agent, RecordOf(second, None, Ready), json).Ok?)
  {
    hide OwnedRecord, WithRecord, ApplyAll, OnTheWay, Interrupted;
    var plan := PlanOf(b, first, true, json);
    var c := Interrupted(b, plan, k);
    FieldOnTheWay(b, first, true, json, k, RecordOf(second, None, Ready));
    OldRecordIsOlder(b, first, json);
    ReleaseStates(b, first, json, k);
    assert c.assignees == {} ==> |c.assignees| == 0;
    assert c.assignees == {Fold(first.actor)} ==> |c.assignees| == 1;
  }

  /**
   * A release by somebody whom no record names -- an issue assigned by hand -- that stops after taking the assignee
   * off leaves a state in which every command of everybody is refused, unless the record names that person.
   */
  lemma UnrecordedReleaseIsStuck(b: Board, first: Request, req: Request, good: bool, json: Json)
    requires Faithful(json) && IsRequest(first) && IsRequest(req) && first.action == Some(Unclaim)
    requires PlanOf(b, first, true, json).Go? && b.assignees != {} && !b.status.Ready?
    requires !RecordNames(b.agent, Fold(req.actor), json)
    ensures |PlanOf(b, first, true, json).writes| == 3
    ensures PlanOf(Interrupted(b, PlanOf(b, first, true, json), 1), req, good, json).Stop?
  {
    hide OwnedRecord, WithRecord, Interrupted;
    var plan := PlanOf(b, first, true, json);
    ThreeReleaseWrites(b, first, json);
    ReleaseStates(b, first, json, 1);
    var c := Interrupted(b, plan, 1);
    FirstRemoves(b, plan);
    assert c == b.(assignees := c.assignees);
    assert c.assignees == {};
  }

  lemma ThreeReleaseWrites(b: Board, first: Request, json: Json)
    requires Faithful(json) && IsRequest(first) && first.action == Some(Unclaim)
    requires PlanOf(b, first, true, json).Go? && b.assignees != {} && !b.status.Ready?
    ensures |PlanOf(b, first, true, json).writes| == 3 && PlanOf(b, first, true, json).writes[0].Remove?
  {
    hide OwnedRecord, WithLine, HasRoom, IsUnicode;
    AgentChanges(b, first, json);
  }

  lemma FirstRemoves(b: Board, plan: Plan)
    requires plan.Go? && |plan.writes| == 3 && plan.writes[0].Remove?
    ensures var c := Interrupted(b, plan, 1); c == b.(assignees := c.assignees)
  {
    assert plan.writes[..1] == [plan.writes[0]] && [plan.writes[0]][..0] == [];
    assert ApplyAll(b, [plan.writes[0]]) == Apply(b, plan.writes[0]);
  }

  // ---- a review

  /** However far a review request got, a newer one with a good pull request is accepted exactly when its record fits. */
  lemma ReviewRecovers(b: Board, first: Request, second: Request, json: Json, k: nat)
    requires Faithful(json) && Follows(first, second)
    requires first.action.Some? && first.action.value.Review? && second.action.Some? && second.action.value.Review?
    requires PlanOf(b, first, true, json).Go? && k <= |PlanOf(b, first, true, json).writes|
    ensures var text := WithRecord(b.agent, RecordOf(second, Some(second.actor), InReview), json);
            var again := PlanOf(Interrupted(b, PlanOf(b, first, true, json), k), second, true, json);
            && (again.Go? <==> text.Ok?)
            && (again.Go? ==> again.goal == b.(status := InReview, agent := text.value))
  {
    hide OwnedRecord, WithRecord, ApplyAll, OnTheWay, Interrupted;
    var c := Interrupted(b, PlanOf(b, first, true, json), k);
    FieldOnTheWay(b, first, true, json, k, RecordOf(second, Some(second.actor), InReview));
    OldRecordIsOlder(b, first, json);
    ReviewStates(b, first, json, c);
  }

  lemma ReviewStates(b: Board, first: Request, json: Json, c: Board)
    requires first.action.Some? && first.action.value.Review? && PlanOf(b, first, true, json).Go?
    requires OnTheWay(b, c, PlanOf(b, first, true, json).goal)
    ensures c.ids == b.ids && c.open && !c.locked && c.assignees == b.assignees == {Fold(first.actor)}
    ensures c.status.InProgress? || c.status.InReview?
  {
    hide OwnedRecord, WithRecord, WritesFor;
  }

  // ---- whole histories

  /** A command, of which the first `upto` writes happen, or a maintainer's edit. */
  datatype Event = Command(req: Request, good: bool, upto: nat) | Edit(to: Board)

  /** The board after an event, and the comment whose record it wrote, if any. */
  function Step(b: Board, e: Event, json: Json): (Board, seq<int>) {
    match e
    case Edit(to) => (to, [])
    case Command(req, good, upto) =>
      match PlanOf(b, req, good, json)
      case Go(ws, goal) => if upto < |ws| then (ApplyAll(b, ws[..upto]), []) else (ApplyAll(b, ws), [req.comment])
      case _ => (b, [])
  }

  function History(b: Board, es: seq<Event>, json: Json): (Board, seq<int>)
    decreases |es|
  {
    if es == [] then (b, [])
    else
      var (c, w) := Step(b, es[0], json);
      var (d, v) := History(c, es[1..], json);
      (d, w + v)
  }

  /** Maintainers may change anything but the bot's own line. */
  predicate Admissible(b: Board, es: seq<Event>, json: Json)
    decreases |es|
  {
    es == [] ||
    (&& (es[0].Command? ==> IsRequest(es[0].req))
     && (es[0].Edit? ==> OwnedRecord(es[0].to.agent, json) == OwnedRecord(b.agent, json))
     && Admissible(Step(b, es[0], json).0, es[1..], json))
  }

  /** The recorded request, 0 when there is none. */
  function LastId(agent: Text, json: Json): int {
    match OwnedRecord(agent, json)
    case Ok(Some(r)) => r.request
    case _ => 0
  }

  predicate Increasing(ids: seq<int>, above: int) {
    ids == [] || (ids[0] > above && Increasing(ids[1..], ids[0]))
  }

  function LastOf(ids: seq<int>, otherwise: int): int {
    if ids == [] then otherwise else ids[|ids| - 1]
  }

  lemma IdAfterStep(b: Board, e: Event, json: Json)
    requires Faithful(json) && Admissible(b, [e], json)
    ensures var (c, w) := Step(b, e, json);
            && Increasing(w, LastId(b.agent, json))
            && LastId(c.agent, json) == LastOf(w, LastId(b.agent, json))
            && |w| <= 1
  {
    hide OwnedRecord, WithRecord, ApplyAll, Admit, WritesFor, PlanOf;
    if e.Command? {
      var plan := PlanOf(b, e.req, e.good, json);
      if plan.Go? {
        var k := if e.upto < |plan.writes| then e.upto else |plan.writes|;
        GoParts(b, e.req, e.good, json);
        RecordOfIsRecord(b, e.req, json);
        FieldOnTheWay(b, e.req, e.good, json, k, RecordOf(e.req, Admit(b, e.req, json).owner, Admit(b, e.req, json).status));
        assert plan.writes[..|plan.writes|] == plan.writes;
        OldRecordIsOlder(b, e.req, json);
      }
    }
  }

  /**
   * Over any history of commands, complete or interrupted, with maintainers editing in between, the request ids
   * that get recorded strictly increase, from the one recorded at the start to the one recorded at the end.
   */
  lemma {:induction false} RecordedIdsIncrease(b: Board, es: seq<Event>, json: Json)
    requires Faithful(json) && Admissible(b, es, json)
    ensures var (d, ids) := History(b, es, json);
            Increasing(ids, LastId(b.agent, json)) && LastId(d.agent, json) == LastOf(ids, LastId(b.agent, json))
    decreases |es|
  {
    hide Step, LastId, OwnedRecord;
    if es != [] {
      FirstIsAdmissible(b, es, json);
      IdAfterStep(b, es[0], json);
      var (c, w) := Step(b, es[0], json);
      RecordedIdsIncrease(c, es[1..], json);
      var (d, v) := History(c, es[1..], json);
      assert w == [] ==> w + v == v;
      assert w != [] ==> (w + v)[0] == w[0] && (w + v)[1..] == v;
    }
  }

  lemma FirstIsAdmissible(b: Board, es: seq<Event>, json: Json)
    requires es != [] && Admissible(b, es, json)
    ensures Admissible(b, [es[0]], json) && Admissible(Step(b, es[0], json).0, es[1..], json)
  {
    hide Step, OwnedRecord;
    assert [es[0]][1..] == [];
  }

  /** So whatever happened before, a comment as old as the newest recorded one, or older, is refused. */
  lemma OldCommandsAreRefused(b: Board, es: seq<Event>, json: Json, req: Request, good: bool)
    requires Faithful(json) && Admissible(b, es, json) && IsRequest(req)
    requires req.comment <= LastOf(History(b, es, json).1, LastId(b.agent, json))
    ensures PlanOf(History(b, es, json).0, req, good, json).Stop?
  {
    hide OwnedRecord, WithRecord, History;
    RecordedIdsIncrease(b, es, json);
  }

  predicate NoEdits(es: seq<Event>) {
    forall k :: 0 <= k < |es| ==> es[k].Command? && IsRequest(es[k].req)
  }

  lemma ForeignAfterStep(b: Board, e: Event, json: Json)
    requires Faithful(json) && NoEdits([e])
    ensures var (c, w) := Step(b, e, json);
            Foreign(c.agent) == if w == [] then Foreign(b.agent) else Closed(Foreign(b.agent))
  {
    hide OwnedRecord, WithRecord, ApplyAll, Admit, WritesFor, PlanOf, Foreign, OnTheWay;
    assert [e][0] == e;
    var plan := PlanOf(b, e.req, e.good, json);
    if plan.Go? {
      var k := if e.upto < |plan.writes| then e.upto else |plan.writes|;
      GoParts(b, e.req, e.good, json);
      RecordOfIsRecord(b, e.req, json);
      PrefixesAreOnTheWay(b, e.req, e.good, json, k);
      assert plan.writes[..|plan.writes|] == plan.writes;
      var r := RecordOf(e.req, Admit(b, e.req, json).owner, Admit(b, e.req, json).status);
      ForeignTextIsKept(b.agent, r, json);
      if k < |plan.writes| {
        AgentIsOld(b, ApplyAll(b, plan.writes[..k]), plan.goal);
      }
    }
  }

  /** Over any history of commands the text of the others stays as it was, but for one line break at its end. */
  lemma {:induction false} ForeignTextIsKeptForever(b: Board, es: seq<Event>, json: Json)
    requires Faithful(json) && NoEdits(es)
    ensures var (d, ids) := History(b, es, json);
            Foreign(d.agent) == if ids == [] then Foreign(b.agent) else Closed(Foreign(b.agent))
    decreases |es|
  {
    hide Step, Foreign, Closed;
    if es != [] {
      ForeignAfterStep(b, es[0], json);
      var (c, w) := Step(b, es[0], json);
      assert forall k :: 0 <= k < |es| - 1 ==> es[1..][k] == es[k + 1];
      ForeignTextIsKeptForever(c, es[1..], json);
      ClosedTwice(Foreign(b.agent));
    }
  }

  // ---- the life of an issue

  /** The board a command that goes through leaves. */
  function After(b: Board, req: Request, json: Json): Board {
    var plan := PlanOf(b, req, true, json);
    if plan.Go? then plan.goal else b
  }

  /**
   * Claiming a free issue in Backlog or Ready, asking for review and releasing it: each step is accepted when its record
   * fits, and at the end the issue is as free as it was, Ready, with one line of the bot's beside the text of the others.
   */
  lemma WholeCycle(b: Board, claim: Request, review: Request, release: Request, json: Json)
    requires Faithful(json) && Follows(claim, review) && Follows(review, release)
    requires claim.action == Some(Claim) && review.action.Some? && review.action.value.Review? && release.action == Some(Unclaim)
    requires b.assignees == {} && (b.status.Backlog? || b.status.Ready?) && Listens(b, claim, json)
    requires WithRecord(b.agent, RecordOf(claim, Some(claim.actor), InProgress), json).Ok?
    requires WithRecord(b.agent, RecordOf(review, Some(review.actor), InReview), json).Ok?
    requires WithRecord(b.agent, RecordOf(release, None, Ready), json).Ok?
    ensures var taken := After(b, claim, json);
            var reviewed := After(taken, review, json);
            && PlanOf(b, claim, true, json).Go?
            && taken.assignees == {Fold(claim.actor)} && taken.status.InProgress?
            && PlanOf(taken, review, true, json).Go?
            && reviewed.assignees == {Fold(claim.actor)} && reviewed.status.InReview?
            && PlanOf(reviewed, release, true, json).Go?
            && After(reviewed, release, json)
               == b.(status := Ready, agent := WithLine(b.agent, RecordOf(release, None, Ready), json))
  {
    hide OwnedRecord, WithLine, HasRoom, IsUnicode, WritesFor, Admit, IsLogin;
    var first, second, third := RecordOf(claim, Some(claim.actor), InProgress),
                                RecordOf(review, Some(review.actor), InReview),
                                RecordOf(release, None, Ready);
    GoesIff(b, claim, true, json);
    assert PlanOf(b, claim, true, json).Go? by { RoomIsFit(b, first, json); }
    GoParts(b, claim, true, json);
    ClaimGoal(b, claim, json);
    var taken := After(b, claim, json);
    Replaces(b, taken, claim, first, second, json);
    Replaces(b, taken, claim, first, third, json);
    ReviewGoal(taken, review, first, json);
    var reviewed := After(taken, review, json);
    Replaces(taken, reviewed, review, second, third, json);
    ReleaseGoal(reviewed, release, second, json);
    assert {Fold(claim.actor)} == {Fold(review.actor)};
  }

  lemma RoomIsFit(b: Board, r: Record, json: Json)
    requires WithRecord(b.agent, r, json).Ok?
    ensures Fits(b, r, json)
  {
    hide OwnedRecord, WithLine;
  }

  /** Writing one record and then another is writing the other. */
  lemma Replaces(b: Board, c: Board, req: Request, first: Record, second: Record, json: Json)
    requires Faithful(json) && IsRecord(first) && IsRecord(second)
    requires OwnedRecord(b.agent, json).Ok? && c.agent == WithLine(b.agent, first, json)
    ensures OwnedRecord(c.agent, json) == Ok(Some(first))
    ensures WithRecord(c.agent, second, json) == WithRecord(b.agent, second, json)
  {
    hide OwnedRecord, WithLine, WithRecord;
    RecordIsReadBack(b.agent, first, json);
    LastRecordWins(b.agent, first, second, json);
  }

  lemma ClaimGoal(b: Board, claim: Request, json: Json)
    requires claim.action == Some(Claim) && PlanOf(b, claim, true, json).Go?
    ensures b.open && !b.locked
    ensures After(b, claim, json) == b.(assignees := {Fold(claim.actor)}, status := InProgress,
                                        agent := WithLine(b.agent, RecordOf(claim, Some(claim.actor), InProgress), json))
  {
    hide OwnedRecord, WithLine, HasRoom, IsUnicode, WritesFor;
  }

  lemma ReviewGoal(b: Board, review: Request, r: Record, json: Json)
    requires review.action.Some? && review.action.value.Review?
    requires b.open && !b.locked && b.assignees == {Fold(review.actor)} && b.status.InProgress?
    requires OwnedRecord(b.agent, json) == Ok(Some(r)) && r.request < review.comment
    requires WithRecord(b.agent, RecordOf(review, Some(review.actor), InReview), json).Ok?
    ensures PlanOf(b, review, true, json).Go?
    ensures After(b, review, json) == b.(status := InReview,
                                         agent := WithLine(b.agent, RecordOf(review, Some(review.actor), InReview), json))
  {
    hide OwnedRecord, WithLine, HasRoom, IsUnicode, WritesFor;
    assert |{Fold(review.actor)}| == 1;
  }

  lemma ReleaseGoal(b: Board, release: Request, r: Record, json: Json)
    requires release.action == Some(Unclaim)
    requires b.open && !b.locked && b.assignees == {Fold(release.actor)} && b.status.InReview?
    requires OwnedRecord(b.agent, json) == Ok(Some(r)) && r.request < release.comment
    requires WithRecord(b.agent, RecordOf(release, None, Ready), json).Ok?
    ensures PlanOf(b, release, true, json).Go?
    ensures After(b, release, json) == b.(assignees := {}, status := Ready,
                                          agent := WithLine(b.agent, RecordOf(release, None, Ready), json))
  {
    hide OwnedRecord, WithLine, HasRoom, IsUnicode, WritesFor;
    assert |{Fold(release.actor)}| == 1;
  }
}
