/**
 * The services `scripts/issue_claim_bot.py` talks to, with everything that may go wrong between two calls: other
 * people edit the board, calls fail before or after their effect, and writes get lost.
 */
module ClaimWorld {
  import opened Prelude
  import opened AgentLines
  import opened ClaimRecord
  import opened ClaimPlan

  /** Exceptions: the two the bot handles, and any other. */
  datatype Stop = Refusal | ApiFailure | Crash

  /** What becomes of one call. A `Lost` write is confirmed but has no effect. */
  datatype Fault = Fine | Refused | Fails | FailsLate | Lost

  datatype Outcome = Pending | Succeeded | WasRefused | Failed

  datatype Receipt = Receipt(request: int, digest: Text, outcome: Outcome)

  /** What the bot did to the outside: a board write, with the snapshot it had last read, or a receipt stored. */
  datatype Event = Wrote(comment: int, seen: Board, write: Write) | Posted(comment: int, outcome: Outcome)

  predicate Known(receipts: seq<Receipt>, comment: int) {
    exists k :: 0 <= k < |receipts| && receipts[k].request == comment
  }

  /** One receipt a command. */
  predicate Single(receipts: seq<Receipt>) {
    forall i, j :: 0 <= i < j < |receipts| ==> receipts[i].request != receipts[j].request
  }

  /** A command's board writes come after its pending receipt. */
  predicate Announced(log: seq<Event>) {
    forall j :: 0 <= j < |log| && log[j].Wrote? ==> Posted(log[j].comment, Pending) in log[..j]
  }

  /** Writes of an older command come before those of a newer one. */
  predicate InTurn(log: seq<Event>) {
    forall i, j :: 0 <= i < j < |log| && log[i].Wrote? && log[j].Wrote? ==> log[i].comment <= log[j].comment
  }

  predicate Recorded(receipts: seq<Receipt>, log: seq<Event>) {
    forall i :: 0 <= i < |log| ==> Known(receipts, log[i].comment)
  }

  predicate Sound(receipts: seq<Receipt>, log: seq<Event>) {
    Single(receipts) && Recorded(receipts, log) && Announced(log) && InTurn(log)
  }

  // ---- what keeps it

  lemma PostIsSound(receipts: seq<Receipt>, log: seq<Event>, r: Receipt)
    requires Sound(receipts, log) && !Known(receipts, r.request)
    ensures Sound(receipts + [r], log + [Posted(r.request, Pending)])
  {
    var later, more := receipts + [r], log + [Posted(r.request, Pending)];
    forall c | Known(receipts, c) || c == r.request ensures Known(later, c) {
      if c == r.request {
        assert later[|receipts|] == r;
      } else {
        var k :| 0 <= k < |receipts| && receipts[k].request == c;
        assert later[k] == receipts[k];
      }
    }
    assert forall j :: 0 <= j < |log| ==> more[j] == log[j] && more[..j] == log[..j];
  }

  /** Writes of one command, newer than all that wrote so far, once its receipt is there. */
  lemma WritesAreSound(receipts: seq<Receipt>, log: seq<Event>, comment: int, issued: seq<Event>)
    requires Sound(receipts, log) && Posted(comment, Pending) in log
    requires forall i :: 0 <= i < |log| && log[i].Wrote? ==> log[i].comment <= comment
    requires forall i :: 0 <= i < |issued| ==> issued[i].Wrote? && issued[i].comment == comment
    ensures Sound(receipts, log + issued)
  {
    var more := log + issued;
    var p :| 0 <= p < |log| && log[p] == Posted(comment, Pending);
    forall j | 0 <= j < |more| && more[j].Wrote? ensures Posted(more[j].comment, Pending) in more[..j] {
      if j < |log| {
        assert more[..j] == log[..j];
      } else {
        assert more[..j][p] == Posted(comment, Pending);
        assert more[j] == issued[j - |log|];
      }
    }
    assert forall i :: 0 <= i < |log| ==> more[i] == log[i];
    assert forall i :: |log| <= i < |more| ==> more[i] == issued[i - |log|];
    assert Known(receipts, log[p].comment);
  }

  lemma PatchIsSound(receipts: seq<Receipt>, log: seq<Event>, id: nat, outcome: Outcome)
    requires Sound(receipts, log) && id < |receipts|
    ensures Sound(receipts[id := receipts[id].(outcome := outcome)], log + [Posted(receipts[id].request, outcome)])
  {
    var later, more := receipts[id := receipts[id].(outcome := outcome)], log + [Posted(receipts[id].request, outcome)];
    assert forall k :: 0 <= k < |receipts| ==> later[k].request == receipts[k].request;
    forall c | Known(receipts, c) ensures Known(later, c) {
      var k :| 0 <= k < |receipts| && receipts[k].request == c;
      assert later[k].request == c;
    }
    assert Known(receipts, receipts[id].request);
    assert forall j :: 0 <= j < |log| ==> more[j] == log[j] && more[..j] == log[..j];
  }

  class World {
    /** What others make of the board before the n-th call, and what becomes of that call. */
    const edits: (nat, Board) -> Board
    const faults: nat -> Fault
    /** The owner has confirmed that nobody else edits the board. */
    const confirmed: bool
    const json: Json

    var clock: nat
    var board: Board
    var receipts: seq<Receipt>
    /** The last snapshot read, and everything done so far. */
    ghost var seen: Board
    ghost var log: seq<Event>

    constructor (edits: (nat, Board) -> Board, faults: nat -> Fault, confirmed: bool, json: Json, board: Board)
      ensures this.edits == edits && this.faults == faults && this.confirmed == confirmed && this.json == json
      ensures this.board == board && this.receipts == [] && this.log == [] && this.clock == 0
      ensures Valid()
    {
      this.edits, this.faults, this.confirmed, this.json := edits, faults, confirmed, json;
      this.clock, this.board, this.receipts, this.seen, this.log := 0, board, [], board, [];
    }

    /** Nobody else edits. */
    ghost predicate Quiet() {
      forall n: nat, b: Board :: edits(n, b) == b
    }

    /** Nor does any call fail. */
    ghost predicate Calm() {
      Quiet() && forall n: nat :: faults(n) == Fine
    }

    /** From call `n` on nobody edits and nothing fails. */
    ghost predicate CalmFrom(n: nat) {
      forall m: nat :: m >= n ==> faults(m) == Fine && forall b: Board :: edits(m, b) == b
    }

    lemma CalmStays(n: nat, m: nat)
      requires n <= m
      ensures CalmFrom(n) ==> CalmFrom(m)
      ensures CalmFrom(n) ==> faults(m) == Fine && forall b: Board :: edits(m, b) == b
    {
    }

    /** What every run keeps. */
    ghost predicate Valid()
      reads this
    {
      Sound(receipts, log)
    }

    /** Others edit, and the clock goes on. */
    method Tick() returns (f: Fault)
      modifies this`clock, this`board
      ensures f == faults(old(clock)) && clock == old(clock) + 1 && board == edits(old(clock), old(board))
    {
      f := faults(clock);
      board := edits(clock, board);
      clock := clock + 1;
    }

    method Snapshot() returns (r: Result<Board, Stop>)
      modifies this`clock, this`board, this`seen
      ensures clock == old(clock) + 1 && board == edits(old(clock), old(board))
      ensures match faults(old(clock))
              case Refused => r == Err(Refusal)
              case Fails => r == Err(ApiFailure)
              case FailsLate => r == Err(ApiFailure)
              case _ => r == Ok(board)
      ensures seen == if r.Ok? then board else old(seen)
    {
      var f := Tick();
      if f.Refused? {
        return Err(Refusal);
      } else if f.Fails? || f.FailsLate? {
        return Err(ApiFailure);
      }
      seen := board;
      return Ok(board);
    }

    /** A write to assignees, status or Agent text. */
    method Issue(comment: int, w: Write) returns (r: Option<Stop>)
      modifies this`clock, this`board, this`log
      ensures clock == old(clock) + 1
      ensures log == old(log) + [Wrote(comment, seen, w)]
      ensures var there := edits(old(clock), old(board));
              match faults(old(clock))
              case Fine => r == None && board == Apply(there, w)
              case Lost => r == None && board == there
              case FailsLate => r == Some(ApiFailure) && board == Apply(there, w)
              case _ => r == Some(ApiFailure) && board == there
    {
      log := log + [Wrote(comment, seen, w)];
      var f := Tick();
      if f.Fine? || f.FailsLate? {
        board := Apply(board, w);
      }
      return if f.Fine? || f.Lost? then None else Some(ApiFailure);
    }

    /** The pull request of a review: refused when it is not a good one. */
    method Pull() returns (r: Option<Stop>)
      modifies this`clock, this`board
      ensures clock == old(clock) + 1 && board == edits(old(clock), old(board))
      ensures match faults(old(clock))
              case Refused => r == Some(Refusal)
              case Fails => r == Some(ApiFailure)
              case FailsLate => r == Some(ApiFailure)
              case _ => r == None
    {
      var f := Tick();
      return if f.Refused? then Some(Refusal) else if f.Fails? || f.FailsLate? then Some(ApiFailure) else None;
    }

    method Receipts() returns (r: Result<seq<Receipt>, Stop>)
      modifies this`clock, this`board
      ensures clock == old(clock) + 1 && board == edits(old(clock), old(board))
      ensures match faults(old(clock))
              case Refused => r == Err(Refusal)
              case Fails => r == Err(ApiFailure)
              case FailsLate => r == Err(ApiFailure)
              case _ => r == Ok(receipts)
    {
      var f := Tick();
      return if f.Refused? then Err(Refusal) else if f.Fails? || f.FailsLate? then Err(ApiFailure) else Ok(receipts);
    }

    /** Stores a pending receipt, which is read back. */
    method Post(comment: int, digest: Text) returns (r: Result<nat, Stop>)
      modifies this`clock, this`board, this`receipts, this`log
      ensures clock == old(clock) + 1 && board == edits(old(clock), old(board))
      ensures if faults(old(clock)).Fine? then r == Ok(|old(receipts)|) else r == Err(ApiFailure)
      ensures if faults(old(clock)).Fine? || faults(old(clock)).FailsLate?
              then receipts == old(receipts) + [Receipt(comment, digest, Pending)] && log == old(log) + [Posted(comment, Pending)]
              else receipts == old(receipts) && log == old(log)
    {
      var f := Tick();
      var id := |receipts|;
      if f.Fine? || f.FailsLate? {
        receipts := receipts + [Receipt(comment, digest, Pending)];
        log := log + [Posted(comment, Pending)];
      }
      return if f.Fine? then Ok(id) else Err(ApiFailure);
    }

    /** Replaces the outcome of a receipt, which is read back. */
    method Patch(id: nat, outcome: Outcome) returns (r: Option<Stop>)
      requires id < |receipts|
      modifies this`clock, this`board, this`receipts, this`log
      ensures clock == old(clock) + 1 && board == edits(old(clock), old(board))
      ensures r == if faults(old(clock)).Fine? then None else Some(ApiFailure)
      ensures if faults(old(clock)).Fine? || faults(old(clock)).FailsLate?
              then receipts == old(receipts)[id := old(receipts)[id].(outcome := outcome)]
                   && log == old(log) + [Posted(old(receipts)[id].request, outcome)]
              else receipts == old(receipts) && log == old(log)
    {
      var f := Tick();
      if f.Fine? || f.FailsLate? {
        log := log + [Posted(receipts[id].request, outcome)];
        receipts := receipts[id := receipts[id].(outcome := outcome)];
      }
      return if f.Fine? then None else Some(ApiFailure);
    }
  }
}
