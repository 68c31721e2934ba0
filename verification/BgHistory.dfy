/** What the run count of a session means: over any history of runs, observations and resets, one
    after another, it is the number of answers since the session was opened or cleared. */
module BgHistory {
  import opened BgBook
  import opened BgLaws
  import opened BgPolicy
  import opened BgRunner
  import opened GoText

  datatype Op = RunOp(turn: Turn)
    | ObserveOp(key: Key, jobID: string, sid: string, usage: Option<Usage>)
    | ResetOp(scope: Scope, actor: string)

  function Applied(b: Book, op: Op): Book {
    match op
    case RunOp(t) => Taken(b, t).book
    case ObserveOp(key, jobID, sid, usage) => Observing(b, key, jobID, sid, usage)
    case ResetOp(scope, actor) => Resetting(b, scope, actor)
  }

  function Played(b: Book, ops: seq<Op>): Book
    decreases |ops|
  {
    if ops == [] then b else Applied(Played(b, ops[..|ops| - 1]), ops[|ops| - 1])
  }

  // The run answered, and the book took it.
  predicate Answers(b: Book, t: Turn) {
    var r := Taken(b, t);
    r.calls != [] && r.plan.Some? && LastReply(t, r).err.None? && Storable(AnswerOf(t, r))
  }

  function AnswerOf(t: Turn, r: Ran): Row
    requires r.plan.Some? && r.calls != []
  {
    Answered(r.plan.value, OutcomeOf(t.req, r.plan.value, LastReply(t, r).answer), t.at.end)
  }

  // The answers of a scope since the last one that did not resume, that one included.
  function Turns(b: Book, ops: seq<Op>, scope: Scope): nat
    decreases |ops|
  {
    if ops == [] then 0
    else
      var front, op := ops[..|ops| - 1], ops[|ops| - 1];
      var before := Turns(b, front, scope);
      if op.RunOp? && op.turn.req.key.scope == scope && Answers(Played(b, front), op.turn)
      then if Taken(Played(b, front), op.turn).plan.value.decision.mode == Resume then before + 1 else 1
      else before
  }

  ghost predicate Exact(b: Book, ops: seq<Op>, rows: seq<Row>) {
    forall r :: r in rows && r.state == Active ==> r.runs == Turns(b, ops, r.key.scope)
  }

  /** The count of every active session is the number of answers in its scope since it was opened or
      cleared; there is one active session a scope. */
  lemma {:induction false} RunCountIsExact(b: Book, ops: seq<Op>)
    requires b.rows == []
    ensures Tidy(Played(b, ops).rows) && Exact(b, ops, Played(b, ops).rows)
    decreases |ops|
  {
    hide Tidy, Exact, Applied;
    if ops == [] {
      EmptyIsExact(b);
    } else {
      var front, op := ops[..|ops| - 1], ops[|ops| - 1];
      RunCountIsExact(b, front);
      match op
      case RunOp(t) => RunIsExact(b, ops, t);
      case ObserveOp(key, jobID, sid, usage) => ObserveIsExact(b, ops, key, jobID, sid, usage);
      case ResetOp(scope, actor) => ResetIsExact(b, ops, scope, actor);
    }
  }

  lemma EmptyIsExact(b: Book)
    requires b.rows == []
    ensures Tidy(b.rows) && Exact(b, [], b.rows)
  {
  }

  // How a run changes the book's rows: its fallback drops the planned session, its answer replaces
  // the session of the scope, and a resumed session is the active one found at its start.
  lemma RunRows(b: Book, t: Turn)
    ensures var r := Taken(b, t);
      var plan := PlanFor(b.rows, t.req.key, t.req.policy, t.caps, t.at.plan);
      var kept := if |r.calls| == 2 && plan.rec.Some? then Retire(b.rows, KindOf(t), plan.rec.value.sid) else b.rows;
      && r.book.rows == (if Answers(b, t) then Replace(kept, AnswerOf(t, r)) else kept)
      && (r.plan.Some? && r.plan.value.decision.mode == Resume ==> |r.calls| == 1 && r.plan.value == plan)
  {
    hide Tripped, PlanFor, Answered, Storable, Replace, Retire, OutcomeOf, RanOut, Short, TimeoutStop, SessionFrom,
      TrimSpace;
    var plan := PlanFor(b.rows, t.req.key, t.req.policy, t.caps, t.at.plan);
    PlansAreGrounded(b.rows, t.req.key, t.req.policy, t.caps, t.at.plan);
    PlanKey(b, t);
  }

  lemma AnswerCounts(b: Book, t: Turn)
    requires Answers(b, t)
    ensures var r := Taken(b, t); var row := AnswerOf(t, r);
      && row.key == t.req.key && row.state == Active
      && (if r.plan.value.decision.mode == Resume
          then Found(b.rows, t.req.key).Some? && row.runs == Found(b.rows, t.req.key).value.runs + 1 else row.runs == 1)
  {
    hide Tripped, Answered, Decide, LocalId, Finishing, BgRunner.Failing;
    var r := Taken(b, t);
    PlansAreGrounded(b.rows, t.req.key, t.req.policy, t.caps, t.at.plan);
    CountOf(r.plan.value, OutcomeOf(t.req, r.plan.value, LastReply(t, r).answer), t.at.end);
  }

  lemma CountOf(p: Plan, o: Outcome, now: int)
    requires Grounded(p) && o.mode == Some(p.decision.mode)
    ensures var row := Answered(p, o, now);
      && row.key == p.key && row.state == Active
      && row.runs == if p.decision.mode == Resume then p.rec.value.runs + 1 else 1
  {
  }

  lemma FoundIsActive(rows: seq<Row>, key: Key)
    ensures var r := Found(rows, key);
      r.Some? ==> r.value in rows && r.value.state == Active && r.value.key.scope == key.scope
  {
  }

  lemma KeptIsExact(b: Book, front: seq<Op>, rows: seq<Row>, kind: string, sid: string)
    requires Tidy(rows) && Exact(b, front, rows)
    ensures Tidy(Retire(rows, kind, sid)) && Exact(b, front, Retire(rows, kind, sid))
  {
    hide Tidy, Turns, Retire;
    EndingKeeps(rows, kind, sid, Scope("", "", ""));
  }

  lemma RunIsExact(b: Book, ops: seq<Op>, t: Turn)
    requires ops != [] && ops[|ops| - 1] == RunOp(t)
    requires var rows := Played(b, ops[..|ops| - 1]).rows; Tidy(rows) && Exact(b, ops[..|ops| - 1], rows)
    ensures Tidy(Played(b, ops).rows) && Exact(b, ops, Played(b, ops).rows)
  {
    hide Taken, Replace, Tidy, Retire, PlanFor, Found, AnswerOf, Storable;
    var front := ops[..|ops| - 1];
    var book := Played(b, front);
    var r, key := Taken(book, t), t.req.key;
    RunRows(book, t);
    var plan := PlanFor(book.rows, key, t.req.policy, t.caps, t.at.plan);
    var drops := |r.calls| == 2 && plan.rec.Some?;
    if drops {
      KeptIsExact(b, front, book.rows, KindOf(t), plan.rec.value.sid);
    }
    var kept := if drops then Retire(book.rows, KindOf(t), plan.rec.value.sid) else book.rows;
    if Answers(book, t) {
      AnswerCounts(book, t);
      FoundIsActive(book.rows, key);
      ReplaceKeeps(kept, AnswerOf(t, r));
      forall row | row in Replace(kept, AnswerOf(t, r)) && row.state == Active
        ensures row.runs == Turns(b, ops, row.key.scope)
      {
        assert row == Stored(AnswerOf(t, r)) || (row in kept && row.key.scope != key.scope);
      }
    }
  }

  lemma ObserveIsExact(b: Book, ops: seq<Op>, key: Key, jobID: string, sid: string, usage: Option<Usage>)
    requires ops != [] && ops[|ops| - 1] == ObserveOp(key, jobID, sid, usage)
    requires var rows := Played(b, ops[..|ops| - 1]).rows; Tidy(rows) && Exact(b, ops[..|ops| - 1], rows)
    ensures Tidy(Played(b, ops).rows) && Exact(b, ops, Played(b, ops).rows)
  {
    hide Replace, Tidy, Snapshot, Reported;
    var front := ops[..|ops| - 1];
    var rows := Played(b, front).rows;
    var rec := Observed(rows, key, jobID);
    if rec.Some? {
      var back := Refreshed(rec.value, sid, usage);
      ReplaceKeeps(rows, back);
      if !Storable(back) {
        RefusedKeeps(rows, back);
      }
      assert back.runs == rec.value.runs && back.key == rec.value.key && rec.value in rows;
    }
  }

  lemma ResetIsExact(b: Book, ops: seq<Op>, scope: Scope, actor: string)
    requires ops != [] && ops[|ops| - 1] == ResetOp(scope, actor)
    requires var rows := Played(b, ops[..|ops| - 1]).rows; Tidy(rows) && Exact(b, ops[..|ops| - 1], rows)
    ensures Tidy(Played(b, ops).rows) && Exact(b, ops, Played(b, ops).rows)
  {
    hide Tidy, ResetScope;
    EndingKeeps(Played(b, ops[..|ops| - 1]).rows, "", "", scope);
  }
}
