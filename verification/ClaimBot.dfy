/** The controller of `scripts/issue_claim_bot.py`: guarded writes, the undo of a lost race, and the run around them. */
module ClaimBot {
  import opened Prelude
  import opened AgentLines
  import opened ClaimRecord
  import opened ClaimPlan
  import opened ClaimWorld

  /** The first `k` writes of a command as they are issued, each right after reading the state it builds on. */
  function Trace(comment: int, b: Board, ws: seq<Write>, k: nat): seq<Event>
    requires k <= |ws|
  {
    if k == 0 then [] else Trace(comment, b, ws, k - 1) + [Wrote(comment, ApplyAll(b, ws[..k - 1]), ws[k - 1])]
  }

  /**
   * A race the bot lost: it added its requester to `before` and found somebody else assigned as well, with status and
   * Agent text as they were.
   */
  predicate LostRace(before: Board, actor: Text, found: Board) {
    && actor in found.assignees && found.assignees != {actor}
    && found.status == before.status && found.agent == before.agent
  }

  /** What one guarded write may have issued when it does not succeed. */
  ghost predicate Attempted(req: Request, state: Board, w: Write, issued: seq<Event>) {
    || issued == []
    || issued == [Wrote(req.comment, state, w)]
    || (w.Add? && exists found: Board ::
          (LostRace(state, Fold(req.actor), found)
           && issued == [Wrote(req.comment, state, w), Wrote(req.comment, found, Remove(req.actor))]))
  }

  /** Two boards differ at most in what `w` writes. */
  predicate SameBut(w: Write, a: Board, b: Board) {
    match w
    case Add(login) => a == b.(assignees := a.assignees) && a.assignees + {Fold(login)} == b.assignees + {Fold(login)}
    case Remove(login) => a == b.(assignees := a.assignees) && a.assignees - {Fold(login)} == b.assignees - {Fold(login)}
    case SetStatus(_) => a == b.(status := a.status)
    case SetAgent(_) => a == b.(agent := a.agent)
  }

  /** A write hides exactly such differences. */
  lemma WriteHides(w: Write, a: Board, b: Board)
    ensures Apply(a, w) == Apply(b, w) <==> SameBut(w, a, b)
  {
  }

  /** Taking the requester off again restores the board exactly when somebody else had not assigned the requester. */
  lemma UndoRestoresIff(b: Board, login: Text)
    ensures Apply(Apply(b, Add(login)), Remove(login)) == b <==> Fold(login) !in b.assignees
  {
    var undone := Apply(Apply(b, Add(login)), Remove(login));
    assert Fold(login) !in undone.assignees;
    if Fold(login) !in b.assignees {
      assert b.assignees + {Fold(login)} - {Fold(login)} == b.assignees;
    }
  }

  /** Taking the requester off again, once the lost race is read a second time. */
  method Undo(api: World, req: Request, actual: Board) returns (stop: Stop)
    modifies api`clock, api`board, api`seen, api`log
    ensures api.log == old(api.log) || api.log == old(api.log) + [Wrote(req.comment, actual, Remove(req.actor))]
    ensures api.Quiet() && old(api.board) != actual ==> api.board == old(api.board) && api.log == old(api.log)
    ensures api.CalmFrom(old(api.clock)) && old(api.board) == actual ==> api.board == Apply(actual, Remove(req.actor))
  {
    var again := api.Snapshot();
    if again.Err? {
      return again.error;
    }
    if again.value == actual {
      var undo := api.Issue(req.comment, Remove(req.actor));
      if undo.Some? {
        return undo.value;
      }
      var after := api.Snapshot();
      if after.Err? {
        return after.error;
      }
      if after.value != actual.(assignees := actual.assignees - {Fold(req.actor)}) {
        return ApiFailure;
      }
    }
    return Refusal;
  }

  /** The board after one write and its reading back, when nobody edits from then on: a lost race is undone. */
  function Settled(req: Request, state: Board, w: Write, there: Board): Board {
    var found := Apply(there, w);
    if w.Add? && LostRace(state, Fold(req.actor), found) then Apply(found, Remove(req.actor)) else found
  }

  /**
   * The race in which the undo takes off what the bot did not add: others are assigned on a free issue, with the
   * requester among them or not. Both are lost, look alike to the bot and end alike.
   */
  lemma UndoIsBlind(req: Request, state: Board, others: set<Text>)
    requires state.assignees == {} && others != {} && Fold(req.actor) !in others
    ensures var w := Add(req.actor);
            var alone := state.(assignees := others);
            var joined := state.(assignees := others + {Fold(req.actor)});
            && Apply(alone, w) == Apply(joined, w) && LostRace(state, Fold(req.actor), Apply(joined, w))
            && Settled(req, state, w, alone) == alone == Settled(req, state, w, joined) != joined
  {
    var alone, joined := state.(assignees := others), state.(assignees := others + {Fold(req.actor)});
    UndoRestoresIff(alone, req.actor);
    UndoRestoresIff(joined, req.actor);
  }

  /**
   * One write, made only on the state last confirmed and confirmed by reading back; after a lost race the bot takes
   * its own requester off again, and nobody else.
   *
   * The guard is no lock: when others edit between guard and write and then leave the board alone, the write succeeds
   * exactly when their edits touched nothing but what it writes, and those edits are gone. A lost race is undone to
   * the board the others had made exactly when the requester was not among their assignees.
   */
  method Change(api: World, req: Request, state: Board, w: Write) returns (r: Result<Board, Stop>)
    requires w.Add? ==> w.login == req.actor && state.assignees == {}
    requires Apply(state, w) != state
    modifies api`clock, api`board, api`seen, api`log
    ensures r.Ok? ==> r.value == Apply(state, w) == api.seen && api.log == old(api.log) + [Wrote(req.comment, state, w)]
    ensures r.Err? ==> |old(api.log)| <= |api.log| && api.log[..|old(api.log)|] == old(api.log)
                       && Attempted(req, state, w, api.log[|old(api.log)|..])
    ensures api.Quiet() ==>
              && (api.board == old(api.board) || (old(api.board) == state && api.board == Apply(state, w)))
              && (r.Ok? ==> api.board == Apply(state, w))
              && |api.log| <= |old(api.log)| + 1
    ensures api.Calm() && old(api.board) == state ==> r.Ok?
    ensures var n := old(api.clock);
            var there := api.edits(n + 1, state);
            api.edits(n, old(api.board)) == state && api.faults(n).Fine? && api.faults(n + 1).Fine? && api.CalmFrom(n + 2) ==>
              && (r.Ok? <==> SameBut(w, there, state))
              && api.board == Settled(req, state, w, there)
              && (w.Add? && LostRace(state, Fold(req.actor), Apply(there, w)) ==>
                    (api.board == there <==> Fold(req.actor) !in there.assignees))
  {
    hide World.CalmFrom, SameBut;
    ghost var before := api.log;
    var actor := Fold(req.actor);
    var guard := api.Snapshot();
    if guard.Err? {
      return Err(guard.error);
    }
    if guard.value != state {
      return Err(Refusal);
    }
    ghost var there := api.edits(api.clock, state);
    WriteHides(w, there, state);
    UndoRestoresIff(there, req.actor);
    var issue := api.Issue(req.comment, w);
    assert api.log[|before|..] == [Wrote(req.comment, state, w)];
    if issue.Some? {
      return Err(issue.value);
    }
    api.CalmStays(api.clock, api.clock);
    var actual := api.Snapshot();
    if actual.Err? {
      return Err(actual.error);
    }
    if actual.value != Apply(state, w) {
      if w.Add? && LostRace(state, actor, actual.value) {
        ghost var log := api.log;
        api.CalmStays(api.clock - 1, api.clock);
        var stop := Undo(api, req, actual.value);
        assert log + [Wrote(req.comment, actual.value, Remove(req.actor))]
            == before + [Wrote(req.comment, state, w), Wrote(req.comment, actual.value, Remove(req.actor))];
        return Err(stop);
      }
      return Err(Refusal);
    }
    return Ok(actual.value);
  }

  // ---- a command

  datatype Done = Reached | WasFree

  /** The first `k` writes of the plan, or the first write and its undo, which is an assignment that lost a race. */
  ghost predicate IssuedBy(req: Request, first: Board, ws: seq<Write>, k: nat, issued: seq<Event>) {
    k <= |ws| &&
    (|| issued == Trace(req.comment, first, ws, k)
     || (k == 1 && ws[0].Add? && exists found: Board ::
           (LostRace(first, Fold(req.actor), found)
            && issued == [Wrote(req.comment, first, ws[0]), Wrote(req.comment, found, Remove(req.actor))])))
  }

  /** The part of the log written since it was `before`. */
  ghost function Since(before: seq<Event>, log: seq<Event>): seq<Event>
    requires before <= log
  {
    log[|before|..]
  }

  lemma SinceMore(before: seq<Event>, log: seq<Event>, more: seq<Event>)
    requires before <= log
    ensures before <= log + more && Since(before, log + more) == Since(before, log) + more
  {
  }

  /** `k` writes of the plan are confirmed: the log since `before` shows just them, and `state` is where they lead. */
  ghost predicate Going(before: seq<Event>, log: seq<Event>, req: Request, first: Board, ws: seq<Write>, k: nat, state: Board) {
    && before <= log && k <= |ws|
    && Since(before, log) == Trace(req.comment, first, ws, k)
    && state == ApplyAll(first, ws[..k])
  }

  lemma GoingOn(before: seq<Event>, log: seq<Event>, req: Request, first: Board, ws: seq<Write>, k: nat, state: Board)
    requires Going(before, log, req, first, ws, k, state) && k < |ws|
    ensures Going(before, log + [Wrote(req.comment, state, ws[k])], req, first, ws, k + 1, Apply(state, ws[k]))
  {
    hide Apply;
    SinceMore(before, log, [Wrote(req.comment, state, ws[k])]);
    assert ws[..k + 1][..k] == ws[..k];
  }

  /** What a failed write leaves in the log. */
  lemma GoingWrong(before: seq<Event>, log: seq<Event>, req: Request, first: Board, ws: seq<Write>, k: nat, state: Board,
                   more: seq<Event>)
    returns (n: nat)
    requires Going(before, log, req, first, ws, k, state) && k < |ws| && Attempted(req, state, ws[k], more)
    requires ws[k].Add? ==> k == 0
    ensures before <= log + more && k <= n <= k + 1 && IssuedBy(req, first, ws, n, Since(before, log + more))
  {
    hide Apply, LostRace;
    SinceMore(before, log, more);
    n := if more == [] then k else k + 1;
    if more == [] {
      assert Trace(req.comment, first, ws, k) + [] == Trace(req.comment, first, ws, k);
    } else if more == [Wrote(req.comment, state, ws[k])] {
      GoingOn(before, log, req, first, ws, k, state);
    } else {
      assert ws[..0] == [];
      assert Trace(req.comment, first, ws, 0) + more == more;
    }
  }

  /** The plan's next write, made with `Change`. */
  method Next(api: World, req: Request, state: Board, w: Write, ghost before: seq<Event>, ghost first: Board, ghost k: nat)
    returns (r: Result<Board, Stop>, ghost n: nat, ghost made: nat)
    requires IsRequest(req) && Faithful(api.json) && PlanOf(first, req, true, api.json).Go?
    requires var ws := PlanOf(first, req, true, api.json).writes;
             k < |ws| && w == ws[k] && Going(before, api.log, req, first, ws, k, state)
    requires api.Quiet() ==> api.board == state
    modifies api`clock, api`board, api`seen, api`log
    ensures var ws := PlanOf(first, req, true, api.json).writes;
            && (r.Ok? ==> Going(before, api.log, req, first, ws, k + 1, r.value) && api.seen == r.value == Apply(state, w))
            && (r.Err? ==> before <= api.log && IssuedBy(req, first, ws, n, Since(before, api.log)))
            && k <= made <= k + 1
            && (api.Quiet() ==> api.board == ApplyAll(first, ws[..made]))
            && (api.Quiet() && r.Ok? ==> api.board == r.value)
            && (api.Calm() ==> r.Ok?)
  {
    hide LostRace, Trace, PlanOf, Apply, ApplyAll;
    ghost var ws := PlanOf(first, req, true, api.json).writes;
    ghost var log := api.log;
    WriteChanges(first, req, true, api.json, k);
    StartState(first, ws);
    GoingOn(before, log, req, first, ws, k, state);
    r := Change(api, req, state, w);
    n := 0;
    made := if api.board == state then k else k + 1;
    if r.Err? {
      assert api.log == log + api.log[|log|..];
      n := GoingWrong(before, log, req, first, ws, k, state, api.log[|log|..]);
    }
  }

  lemma StartState(b: Board, ws: seq<Write>)
    ensures ApplyAll(b, ws[..0]) == b
  {
  }

  /** The turn of each write: assignees, then status, then Agent text. */
  lemma Turns(b: Board, req: Request, good: bool, json: Json)
    requires PlanOf(b, req, good, json).Go?
    ensures req.action.Some?
    ensures var plan := PlanOf(b, req, good, json);
            var v := Admit(b, req, json);
            var people := People(b, req);
            var i := if people.Some? then 1 else 0;
            var j := if b.status != v.status then i + 1 else i;
            && (people.Some? ==> i <= |plan.writes| && plan.writes[0] == people.value)
            && (b.status != v.status ==> i < |plan.writes| && plan.writes[i] == SetStatus(v.status))
            && (b.agent != plan.goal.agent ==> j < |plan.writes| && plan.writes[j] == SetAgent(plan.goal.agent))
            && |plan.writes| == if b.agent != plan.goal.agent then j + 1 else j
  {
    hide OwnedRecord, WithRecord;
  }

  /**
   * The writes of a command that was admitted on `start`, in order, each on the state confirmed last, and then the
   * second look at the pull request and at the board.
   */
  method CarryOut(api: World, req: Request, start: Board, status: Status, text: Text)
    returns (r: Result<Done, Stop>, ghost n: nat, ghost made: nat)
    requires IsRequest(req) && Faithful(api.json) && PlanOf(start, req, true, api.json).Go?
    requires status == Admit(start, req, api.json).status && text == PlanOf(start, req, true, api.json).goal.agent
    requires api.Quiet() ==> api.board == start
    modifies api`clock, api`board, api`seen, api`log
    ensures var plan := PlanOf(start, req, true, api.json);
            && old(api.log) <= api.log
            && IssuedBy(req, start, plan.writes, n, Since(old(api.log), api.log))
            && (r.Ok? ==>
                && r.value.Reached? && n == |plan.writes| && api.seen == plan.goal
                && Since(old(api.log), api.log) == Trace(req.comment, start, plan.writes, n))
            && made <= |plan.writes|
            && (api.Quiet() ==> api.board == ApplyAll(start, plan.writes[..made]))
            && (api.Quiet() && r.Ok? ==> api.board == plan.goal)
            && (api.Calm() ==> r.Ok?)
  {
    hide PlanOf, ApplyAll, Trace, LostRace, Admit, Going, IssuedBy, Apply;
    ghost var plan := PlanOf(start, req, true, api.json);
    ghost var before := api.log;
    n, made := 0, 0;
    Turns(start, req, true, api.json);
    Begin(before, req, start, plan.writes);
    var step := Result.Ok(start);
    ghost var k := 0;
    if req.action.value.Claim? && start.assignees == {} {
      FieldsKept(start, Add(req.actor));
      step, n, made := Next(api, req, start, Add(req.actor), before, start, k);
      k := 1;
    } else if req.action.value.Unclaim? && start.assignees != {} {
      FieldsKept(start, Remove(req.actor));
      step, n, made := Next(api, req, start, Remove(req.actor), before, start, k);
      k := 1;
    }
    if step.Err? {
      r := Err(step.error);
      return;
    }
    var state := step.value;
    if state.status != status {
      FieldsKept(state, SetStatus(status));
      step, n, made := Next(api, req, state, SetStatus(status), before, start, k);
      if step.Err? {
        r := Err(step.error);
        return;
      }
      state, k := step.value, k + 1;
    }
    if state.agent != text {
      step, n, made := Next(api, req, state, SetAgent(text), before, start, k);
      if step.Err? {
        r := Err(step.error);
        return;
      }
      state, k := step.value, k + 1;
    }
    n, made := k, k;
    AllWritten(before, api.log, req, start, api.json, k, state);
    r := Confirm(api, req, state);
  }

  lemma FieldsKept(b: Board, w: Write)
    ensures !w.SetStatus? ==> Apply(b, w).status == b.status
    ensures !w.SetAgent? ==> Apply(b, w).agent == b.agent
  {
  }

  lemma AllWritten(before: seq<Event>, log: seq<Event>, req: Request, start: Board, json: Json, k: nat, state: Board)
    requires Faithful(json) && IsRequest(req) && PlanOf(start, req, true, json).Go?
    requires var ws := PlanOf(start, req, true, json).writes; k == |ws| && Going(before, log, req, start, ws, k, state)
    ensures var plan := PlanOf(start, req, true, json);
            && before <= log
            && Since(before, log) == Trace(req.comment, start, plan.writes, k)
            && IssuedBy(req, start, plan.writes, k, Since(before, log))
            && ApplyAll(start, plan.writes[..k]) == state == plan.goal
  {
    hide PlanOf, ApplyAll, Trace, LostRace;
    AtGoal(start, req, true, json);
    var plan := PlanOf(start, req, true, json);
    assert plan.writes[..|plan.writes|] == plan.writes;
  }

  /** The last look at the pull request and at the board. */
  method Confirm(api: World, req: Request, state: Board) returns (r: Result<Done, Stop>)
    requires req.action.Some?
    modifies api`clock, api`board, api`seen
    ensures r.Ok? ==> r.value.Reached? && api.seen == state
    ensures api.Quiet() ==> api.board == old(api.board)
    ensures api.Calm() && api.board == state ==> r.Ok?
  {
    if req.action.value.Review? {
      var pull := api.Pull();
      if pull.Some? {
        return Err(pull.value);
      }
    }
    var last := api.Snapshot();
    if last.Err? {
      return Err(last.error);
    }
    if last.value != state {
      return Err(Refusal);
    }
    return Ok(Reached);
  }

  lemma Begin(before: seq<Event>, req: Request, first: Board, ws: seq<Write>)
    ensures Going(before, before, req, first, ws, 0, first) && ApplyAll(first, ws[..0]) == first
  {
    StartState(first, ws);
  }

  lemma AtGoal(b: Board, req: Request, good: bool, json: Json)
    requires Faithful(json) && IsRequest(req) && PlanOf(b, req, good, json).Go?
    ensures ApplyAll(b, PlanOf(b, req, good, json).writes) == PlanOf(b, req, good, json).goal
  {
    hide PlanOf;
    var plan := PlanOf(b, req, good, json);
    PrefixesAreOnTheWay(b, req, good, json, |plan.writes|);
    assert plan.writes[..|plan.writes|] == plan.writes;
  }

  /** A lone surrogate in the Agent text is an exception nothing catches; every other reason is a refusal. */
  function StopFor(reason: Reason): ClaimWorld.Stop {
    if reason == Field(LoneSurrogate) then Crash else Refusal
  }

  lemma NoIsRefusal(b: Board, req: Request, json: Json)
    ensures Admit(b, req, json).No? ==> StopFor(Admit(b, req, json).reason).Refusal?
  {
  }

  /**
   * A command. Whatever others do and whichever calls fail: the bot issues the plan it made from the first snapshot,
   * write by write, each right after reading the very state it builds on, plus at most the undo of a lost race; it
   * reports success only when the last snapshot it read is the goal. Undisturbed, it succeeds exactly on the issues the
   * command is for, and leaves them as the command is meant to.
   */
  method Perform(api: World, req: Request)
    returns (r: Result<Done, Stop>, ghost first: Board, ghost n: nat, ghost made: nat)
    requires IsRequest(req) && Faithful(api.json)
    modifies api`clock, api`board, api`seen, api`log
    ensures var plan := PlanOf(first, req, true, api.json);
            && old(api.log) <= api.log
            && (Since(old(api.log), api.log) != [] ==>
                plan.Go? && IssuedBy(req, first, plan.writes, n, Since(old(api.log), api.log)))
            && (r == Ok(Reached) ==>
                && plan.Go?
                && Since(old(api.log), api.log) == Trace(req.comment, first, plan.writes, |plan.writes|)
                && api.seen == plan.goal)
            && (r == Ok(WasFree) ==> plan.AlreadyFree? && api.log == old(api.log) && api.seen == first)
    ensures api.Quiet() ==>
              var plan := PlanOf(old(api.board), req, true, api.json);
              if plan.Go?
              then made <= |plan.writes| && api.board == ApplyAll(old(api.board), plan.writes[..made])
                   && (r.Ok? ==> r.value.Reached? && api.board == plan.goal)
              else api.board == old(api.board)
    ensures api.Calm() ==>
              match PlanOf(old(api.board), req, true, api.json)
              case Go(_, goal) => r == Ok(Reached) && api.board == goal
              case AlreadyFree => r == Ok(WasFree)
              case Stop(reason) => r == Err(StopFor(reason))
    ensures api.Calm() ==>
              && (r == Ok(Reached) <==> MayGo(old(api.board), req, true, api.json))
              && (r == Ok(Reached) ==> api.board == LeadsTo(old(api.board), req, api.json))
  {
    hide OwnedRecord, WithLine, HasRoom, IsUnicode, ApplyAll, Apply, Trace, IssuedBy;
    ghost var before := api.log;
    GoesIff(api.board, req, true, api.json);
    first, n, made := api.board, 0, 0;
    StartState(api.board, []);
    if req.action.None? {
      r := Err(Refusal);
      return;
    }
    var snapshot := api.Snapshot();
    if snapshot.Err? {
      r := Err(snapshot.error);
      return;
    }
    var state := snapshot.value;
    first := state;
    var verdict := Admit(state, req, api.json);
    if verdict.No? {
      NoIsRefusal(state, req, api.json);
      r := Err(Refusal);
      return;
    }
    if verdict.Free? {
      r := Ok(WasFree);
      return;
    }
    if req.action.value.Review? {
      var pull := api.Pull();
      if pull.Some? {
        r := Err(pull.value);
        return;
      }
    }
    var text := WithRecord(state.agent, RecordOf(req, verdict.owner, verdict.status), api.json);
    if text.Err? {
      r := Err(if text.error.LoneSurrogate? then Crash else Refusal);
      return;
    }
    r, n, made := CarryOut(api, req, state, verdict.status, text.value);
  }

  // ---- what was issued

  /** A board write within bounds: only the requester comes or goes, fields go to their goals, the others' text stays. */
  ghost predicate InBounds(req: Request, goal: Board, e: Event) {
    e.Wrote? && e.comment == req.comment &&
    match e.write
    case Add(login) => login == req.actor && e.seen.assignees == {}
    case Remove(login) => login == req.actor && Fold(req.actor) in e.seen.assignees
    case SetStatus(status) => status == goal.status
    case SetAgent(agent) => agent == goal.agent && Foreign(agent) == Closed(Foreign(e.seen.agent))
  }

  ghost predicate AllInBounds(req: Request, goal: Board, issued: seq<Event>) {
    forall i :: 0 <= i < |issued| ==> InBounds(req, goal, issued[i])
  }

  lemma WriteInBounds(req: Request, first: Board, json: Json, k: nat)
    requires Faithful(json) && IsRequest(req) && PlanOf(first, req, true, json).Go?
    requires k < |PlanOf(first, req, true, json).writes|
    ensures var plan := PlanOf(first, req, true, json);
            InBounds(req, plan.goal, Wrote(req.comment, ApplyAll(first, plan.writes[..k]), plan.writes[k]))
  {
    hide OwnedRecord, WithLine, HasRoom, IsUnicode, ApplyAll, Foreign, Admit;
    var plan := PlanOf(first, req, true, json);
    var v := Admit(first, req, json);
    GoParts(first, req, true, json);
    PrefixesAreOnTheWay(first, req, true, json, k);
    WriteChanges(first, req, true, json, k);
    StartState(first, plan.writes);
    RecordOfIsRecord(first, req, json);
    ForeignTextIsKept(first.agent, RecordOf(req, v.owner, v.status), json);
    assert Fold(req.actor) in {Fold(req.actor)};
  }

  lemma {:induction false} TraceInBounds(req: Request, first: Board, json: Json, k: nat)
    requires Faithful(json) && IsRequest(req) && PlanOf(first, req, true, json).Go?
    requires k <= |PlanOf(first, req, true, json).writes|
    ensures var plan := PlanOf(first, req, true, json);
            AllInBounds(req, plan.goal, Trace(req.comment, first, plan.writes, k))
  {
    hide InBounds, PlanOf, ApplyAll;
    if k > 0 {
      TraceInBounds(req, first, json, k - 1);
      WriteInBounds(req, first, json, k - 1);
    }
  }

  /** Whatever a command issues, lost race or not, is within bounds. */
  lemma IssuedIsInBounds(req: Request, first: Board, json: Json, n: nat, issued: seq<Event>)
    requires Faithful(json) && IsRequest(req) && PlanOf(first, req, true, json).Go?
    requires IssuedBy(req, first, PlanOf(first, req, true, json).writes, n, issued)
    ensures AllInBounds(req, PlanOf(first, req, true, json).goal, issued)
  {
    hide PlanOf, ApplyAll, Foreign;
    TraceInBounds(req, first, json, n);
    if n == 1 {
      WriteInBounds(req, first, json, 0);
      StartState(first, PlanOf(first, req, true, json).writes);
    }
  }

  // ---- a run

  datatype End = Duplicate | Ended(outcome: Outcome) | Raised(stop: Stop)

  function Matching(receipts: seq<Receipt>, comment: int): (m: seq<Receipt>)
    ensures m == [] <==> !Known(receipts, comment)
    ensures forall r :: r in m <==> r in receipts && r.request == comment
    ensures Single(receipts) ==> |m| <= 1
  {
    if receipts == [] then []
    else
      var m := Matching(receipts[1..], comment);
      assert Known(receipts, comment) <==> receipts[0].request == comment || Known(receipts[1..], comment) by {
        KnownCons(receipts, comment);
      }
      assert receipts == [receipts[0]] + receipts[1..];
      assert Single(receipts) ==> Single(receipts[1..]);
      assert Single(receipts) && receipts[0].request == comment ==> !Known(receipts[1..], comment) by {
        SingleHead(receipts);
      }
      (if receipts[0].request == comment then [receipts[0]] else []) + m
  }

  lemma SingleHead(receipts: seq<Receipt>)
    requires receipts != []
    ensures Single(receipts) ==> !Known(receipts[1..], receipts[0].request)
  {
  }

  lemma KnownCons(receipts: seq<Receipt>, comment: int)
    requires receipts != []
    ensures Known(receipts, comment) <==> receipts[0].request == comment || Known(receipts[1..], comment)
  {
    if Known(receipts, comment) && receipts[0].request != comment {
      var k :| 0 <= k < |receipts| && receipts[k].request == comment;
      assert receipts[1..][k - 1].request == comment;
    }
    if Known(receipts[1..], comment) {
      var k :| 0 <= k < |receipts[1..]| && receipts[1..][k].request == comment;
      assert receipts[k + 1].request == comment;
    }
  }

  predicate AllOlder(receipts: seq<Receipt>, comment: int) {
    forall k :: 0 <= k < |receipts| ==> receipts[k].request < comment
  }

  /** What stands behind a success: the last board read is the goal, or one with nothing to release. */
  ghost predicate Achieved(req: Request, first: Board, plan: Plan, issued: seq<Event>, seen: Board) {
    || (plan.AlreadyFree? && issued == [] && seen == first)
    || (plan.Go? && issued == Trace(req.comment, first, plan.writes, |plan.writes|) && seen == plan.goal)
  }

  /** How a new command ends when nobody edits and nothing fails. */
  function Undisturbed(confirmed: bool, receipts: seq<Receipt>, req: Request, plan: Plan): End {
    if !confirmed then Ended(Failed)
    else if !AllOlder(receipts, req.comment) then Ended(WasRefused)
    else match plan
      case Stop(reason) => if StopFor(reason).Crash? then Raised(Crash) else Ended(WasRefused)
      case _ => Ended(Succeeded)
  }

  /** The part of a run whose exceptions become receipts. */
  method Attempt(api: World, req: Request, receipts: seq<Receipt>)
    returns (r: Result<Done, Stop>, ghost first: Board, ghost n: nat, ghost issued: seq<Event>)
    requires IsRequest(req) && Faithful(api.json) && !Known(receipts, req.comment)
    modifies api`clock, api`board, api`seen, api`log
    ensures var plan := PlanOf(first, req, true, api.json);
            && api.log == old(api.log) + issued
            && (issued != [] ==>
                && api.confirmed && AllOlder(receipts, req.comment)
                && plan.Go? && IssuedBy(req, first, plan.writes, n, issued))
            && (r.Ok? ==> Achieved(req, first, plan, issued, api.seen))
    ensures r.Ok? ==> api.confirmed && AllOlder(receipts, req.comment)
    ensures api.Calm() ==>
              if !api.confirmed then r == Err(ApiFailure)
              else if !AllOlder(receipts, req.comment) then r == Err(Refusal)
              else match PlanOf(old(api.board), req, true, api.json)
                   case Stop(reason) => r == Err(StopFor(reason))
                   case _ => r.Ok?
  {
    hide PlanOf, IssuedBy, Trace;
    first, n, issued := api.board, 0, [];
    if !api.confirmed {
      r := Err(ApiFailure);
    } else if exists k :: 0 <= k < |receipts| && receipts[k].request > req.comment {
      r := Err(Refusal);
    } else {
      OthersAreOlder(receipts, req.comment);
      ghost var before := api.log;
      ghost var made;
      r, first, n, made := Perform(api, req);
      issued := Since(before, api.log);
      assert api.log == before + issued;
      if r.Ok? {
        match r.value
        case Reached => assert r == Ok(Reached);
        case WasFree => assert r == Ok(WasFree) && issued == [];
      }
    }
  }

  lemma OthersAreOlder(receipts: seq<Receipt>, comment: int)
    requires !Known(receipts, comment) && !exists k :: 0 <= k < |receipts| && receipts[k].request > comment
    ensures AllOlder(receipts, comment)
  {
  }

  lemma IssuedIsSound(receipts: seq<Receipt>, log: seq<Event>, r: Receipt, req: Request, first: Board, json: Json, n: nat,
                      issued: seq<Event>)
    requires Sound(receipts, log) && r.request == req.comment && !Known(receipts, r.request)
    requires Faithful(json) && IsRequest(req)
    requires issued != [] ==> AllOlder(receipts, req.comment) && PlanOf(first, req, true, json).Go?
                              && IssuedBy(req, first, PlanOf(first, req, true, json).writes, n, issued)
    ensures Sound(receipts + [r], log + [Posted(req.comment, Pending)] + issued)
  {
    hide PlanOf, IssuedBy;
    var later, more := receipts + [r], log + [Posted(req.comment, Pending)];
    PostIsSound(receipts, log, r);
    if issued == [] {
      assert more + issued == more;
    } else {
      IssuedIsInBounds(req, first, json, n, issued);
      forall i | 0 <= i < |issued| ensures issued[i].Wrote? && issued[i].comment == req.comment {
        assert InBounds(req, PlanOf(first, req, true, json).goal, issued[i]);
      }
      forall i | 0 <= i < |more| && more[i].Wrote? ensures more[i].comment <= req.comment {
        assert Known(receipts, log[i].comment);
      }
      assert more[|log|] == Posted(req.comment, Pending);
      WritesAreSound(later, more, req.comment, issued);
    }
  }

  /** A command that already has a receipt: the same one again, or a mismatch. */
  method Repeated(receipts: seq<Receipt>, req: Request, digest: Text) returns (end: Option<End>)
    ensures end.None? <==> !Known(receipts, req.comment)
    ensures end.Some? ==> !end.value.Ended?
    ensures Single(receipts) ==>
              forall k :: 0 <= k < |receipts| && receipts[k].request == req.comment ==>
                end == Some(if receipts[k].digest == digest then Duplicate else Raised(Refusal))
  {
    hide Known, Single;
    var existing := Matching(receipts, req.comment);
    assert forall k :: 0 <= k < |receipts| && receipts[k].request == req.comment ==> receipts[k] in existing;
    if existing == [] {
      return None;
    }
    if |existing| != 1 || existing[0].digest != digest {
      return Some(Raised(Refusal));
    }
    return Some(Duplicate);
  }

  lemma SoundIsSingle(receipts: seq<Receipt>, log: seq<Event>)
    requires Sound(receipts, log)
    ensures Single(receipts)
  {
  }

  /** What a run leaves once its receipt is stored: that receipt, and in the log the receipt, the writes and the final outcome. */
  ghost predicate Left(comment: int, digest: Text, receiptsBefore: seq<Receipt>, logBefore: seq<Event>,
                       receipts: seq<Receipt>, log: seq<Event>, issued: seq<Event>, outcome: Outcome, end: End) {
    && receipts == receiptsBefore + [Receipt(comment, digest, outcome)]
    && log == logBefore + [Posted(comment, Pending)] + issued + (if outcome.Pending? then [] else [Posted(comment, outcome)])
    && end != Duplicate
    && (end.Ended? ==> end.outcome == outcome && !outcome.Pending?)
  }

  lemma PendingIsLeft(comment: int, digest: Text, receipts: seq<Receipt>, log: seq<Event>, end: End)
    requires end.Raised?
    ensures Left(comment, digest, receipts, log, receipts + [Receipt(comment, digest, Pending)],
                 log + [Posted(comment, Pending)], [], Pending, end)
  {
    assert log + [Posted(comment, Pending)] + [] + [] == log + [Posted(comment, Pending)];
  }

  /** What the receipt says of how the command ended; an exception nothing catches leaves it pending. */
  function EndFor(r: Result<Done, Stop>): End {
    match r
    case Ok(_) => Ended(Succeeded)
    case Err(Refusal) => Ended(WasRefused)
    case Err(ApiFailure) => Ended(Failed)
    case Err(Crash) => Raised(Crash)
  }

  /** The end of a run: the outcome replaces the pending one. */
  method Conclude(api: World, comment: int, digest: Text, id: nat, r: Result<Done, Stop>,
                  ghost known: seq<Receipt>, ghost log: seq<Event>, ghost issued: seq<Event>)
    returns (end: End)
    requires api.Valid() && id == |known| && api.receipts == known + [Receipt(comment, digest, Pending)]
    requires api.log == log + [Posted(comment, Pending)] + issued
    modifies api`clock, api`board, api`receipts, api`log
    ensures api.Valid()
    ensures exists outcome :: Left(comment, digest, known, log, api.receipts, api.log, issued, outcome, end)
    ensures end == EndFor(r) || (end.Raised? && !end.stop.Crash?)
    ensures api.Calm() ==> end == EndFor(r)
  {
    hide Sound;
    if r == Err(Crash) {
      end := Raised(Crash);
      assert api.log == log + [Posted(comment, Pending)] + issued + [];
      assert Left(comment, digest, known, log, api.receipts, api.log, issued, Pending, end);
      return;
    }
    var outcome := if r.Ok? then Succeeded else if r.error.Refusal? then WasRefused else Failed;
    PatchIsSound(api.receipts, api.log, id, outcome);
    var patch := api.Patch(id, outcome);
    end := if patch.Some? then Raised(patch.value) else Ended(outcome);
    ghost var left := if api.receipts == known + [Receipt(comment, digest, Pending)] then Pending else outcome;
    assert api.log == log + [Posted(comment, Pending)] + issued + (if left.Pending? then [] else [Posted(comment, left)]);
    assert Left(comment, digest, known, log, api.receipts, api.log, issued, left, end);
  }

  /**
   * One run. A command that already has a receipt writes nothing; a new one gets its receipt first, and writes to the
   * board only in single-writer mode and when no newer command is registered. What it wrote is the part of its plan
   * `Perform` describes, and the receipt says success only after the goal was read back.
   */
  method Run(api: World, req: Request, digest: Text)
    returns (end: End, ghost first: Board, ghost n: nat, ghost issued: seq<Event>)
    requires api.Valid() && IsRequest(req) && Faithful(api.json)
    modifies api
    ensures api.Valid()
    ensures Known(old(api.receipts), req.comment) ==>
              api.receipts == old(api.receipts) && api.log == old(api.log) && issued == [] && !end.Ended?
    ensures !Known(old(api.receipts), req.comment) ==>
              || (api.receipts == old(api.receipts) && api.log == old(api.log) && issued == [] && end.Raised?)
              || exists outcome ::
                   Left(req.comment, digest, old(api.receipts), old(api.log), api.receipts, api.log, issued, outcome, end)
    ensures issued != [] ==>
              && api.confirmed && AllOlder(old(api.receipts), req.comment)
              && PlanOf(first, req, true, api.json).Go?
              && IssuedBy(req, first, PlanOf(first, req, true, api.json).writes, n, issued)
    ensures end == Ended(Succeeded) ==> Achieved(req, first, PlanOf(first, req, true, api.json), issued, api.seen)
    ensures api.Calm() && !Known(old(api.receipts), req.comment) ==>
              end == Undisturbed(api.confirmed, old(api.receipts), req, PlanOf(old(api.board), req, true, api.json))
    ensures api.Calm() ==>
              forall k :: 0 <= k < |old(api.receipts)| && old(api.receipts)[k].request == req.comment ==>
                end == if old(api.receipts)[k].digest == digest then Duplicate else Raised(Refusal)
  {
    hide PlanOf, IssuedBy, Trace, Sound, Achieved, Known, AllOlder, Single, Left;
    first, n, issued := api.board, 0, [];
    var receipts := api.Receipts();
    if receipts.Err? {
      end := Raised(receipts.error);
      return;
    }
    assert Single(api.receipts) by { SoundIsSingle(api.receipts, api.log); }
    var repeated := Repeated(receipts.value, req, digest);
    if repeated.Some? {
      end := repeated.value;
      return;
    }
    ghost var log, known := api.log, api.receipts;
    var id := api.Post(req.comment, digest);
    if id.Err? {
      end := Raised(id.error);
      assert log + [Posted(req.comment, Pending)] + issued == log + [Posted(req.comment, Pending)];
      if api.receipts != known {
        IssuedIsSound(known, log, Receipt(req.comment, digest, Pending), req, first, api.json, n, issued);
        PendingIsLeft(req.comment, digest, known, log, end);
      }
      return;
    }
    var r;
    r, first, n, issued := Attempt(api, req, receipts.value);
    IssuedIsSound(known, log, Receipt(req.comment, digest, Pending), req, first, api.json, n, issued);
    end := Conclude(api, req.comment, digest, id.value, r, known, log, issued);
  }
}
