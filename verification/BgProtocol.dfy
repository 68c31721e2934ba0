/** Every interleaving of runs, observations and resets over one session book and run log. Each read
    and each write of the store is one atomic step; any number of runs and observations may be in
    flight at a time. */
module BgProtocol {
  import opened BgBook
  import opened BgPolicy
  import opened BgRunner
  import opened GoText

  // What a run looks up next for its plan: its own session, one bound to no agent, its newest row
  // in any state, another binding of the scope.
  datatype Stage = SeekBound | SeekUnbound | SeekLatest | SeekOther

  // What follows the row of a failed attempt: nothing, the end of the recorded session, or that
  // and a fresh attempt.
  datatype Sequel = Done | Drop | Retry(reason: Reason, now: int)

  // Where a run stands. Between two stages anything else may happen.
  datatype Run =
    | Refused(row: LogRow)
    | Seeking(key: Key, caps: Caps, now: int, stage: Stage)
    | Planned(plan: Plan)
    | Logging(plan: Plan, row: LogRow, sequel: Sequel)
    | Dropping(plan: Plan, sequel: Sequel)
    | Over

  // The book, the run log, the runs in the order they came, and the sessions observations hold.
  datatype World = World(rows: seq<Row>, log: seq<LogRow>, runs: seq<Run>, held: map<nat, Row>)

  datatype Step =
    | Enter(key: Key, caps: Caps, lim: Limits, since: int, now: int)
    | Seek(id: nat)
    | Finish(id: nat, outcome: Outcome, now: int)
    | GiveUp(id: nat, cause: Error, drop: bool, now: int)
    | FallBack(id: nat, cause: Error, reason: Reason, failed: int, now: int)
    | Write(id: nat)
    | DropSession(id: nat)
    | Report(kind: string, jobID: string, late: Usage)
    | Look(id: nat, key: Key, jobID: string)
    | Fold(id: nat, sid: string, usage: Option<Usage>)
    | ResetAll(scope: Scope)

  // A run reports the mode it was planned in, or fresh; only a continuation falls back.
  predicate Enabled(s: World, step: Step) {
    match step
    case Enter(_, _, _, _, _) => true
    case Seek(id) => id < |s.runs| && s.runs[id].Seeking?
    case Finish(id, o, _) =>
      && id < |s.runs| && s.runs[id].Planned?
      && var p := s.runs[id].plan; ModeOf(p, o) == p.decision.mode || ModeOf(p, o) == Fresh
    case GiveUp(id, _, _, _) => id < |s.runs| && s.runs[id].Planned?
    case FallBack(id, _, _, _, _) => id < |s.runs| && s.runs[id].Planned? && s.runs[id].plan.decision.mode != Fresh
    case Write(id) => id < |s.runs| && (s.runs[id].Logging? || s.runs[id].Refused?)
    case DropSession(id) => id < |s.runs| && s.runs[id].Dropping?
    case Report(_, _, _) => true
    case Look(id, key, jobID) => jobID != "" && id !in s.held && Observed(s.rows, key, jobID).Some?
    case Fold(id, _, _) => id in s.held
    case ResetAll(_) => true
  }

  // The guard reads the log; a run it lets through starts looking for its session.
  function Entering(s: World, key: Key, caps: Caps, lim: Limits, since: int, now: int): Run {
    var stop := Tripped(s.log, key.scope.kind, since, lim);
    if stop.Some? then Refused(BlockedRow(key, now, stop.value)) else Seeking(key, caps, now, SeekBound)
  }

  function PlanWith(policy: Policy, r: Run, rec: Option<Row>, reset: bool, other: bool): Run
    requires r.Seeking?
  {
    Planned(Plan(r.key, Decide(policy, r.caps, r.now, rec, reset, other), r.now, policy, rec))
  }

  // One lookup. The first row found makes the plan.
  function Sought(policy: Policy, rows: seq<Row>, r: Run): Run
    requires r.Seeking?
  {
    match r.stage
    case SeekBound =>
      var rec := ActiveFor(rows, r.key);
      if rec.Some? then PlanWith(policy, r, rec, false, false) else r.(stage := SeekUnbound)
    case SeekUnbound =>
      var rec := UnboundFor(rows, r.key.scope);
      if rec.Some? then PlanWith(policy, r, rec, false, false) else r.(stage := SeekLatest)
    case SeekLatest =>
      var latest := LatestFor(rows, r.key);
      if latest.Some? && latest.value.state == State.Reset then PlanWith(policy, r, None, true, false)
      else r.(stage := SeekOther)
    case SeekOther => PlanWith(policy, r, None, false, OtherBound(rows, r.key))
  }

  function Committed(rows: seq<Row>, p: Plan, o: Outcome, now: int): seq<Row> {
    if Storable(Answered(p, o, now)) then Replace(rows, Answered(p, o, now)) else rows
  }

  function DroppedRows(rows: seq<Row>, p: Plan): seq<Row> {
    if p.rec.Some? then Retire(rows, p.key.scope.kind, p.rec.value.sid) else rows
  }

  // The run once its row is written.
  function Written(r: Run): Run {
    if r.Logging? && !r.sequel.Done? then Dropping(r.plan, r.sequel) else Over
  }

  function Retried(r: Run): Run
    requires r.Dropping?
  {
    if r.sequel.Retry? then Planned(FallbackPlan(r.plan, r.sequel.reason, r.sequel.now)) else Over
  }

  function Next(policy: Policy, s: World, step: Step): World
    requires Enabled(s, step)
  {
    match step
    case Enter(key, caps, lim, since, now) => s.(runs := s.runs + [Entering(s, key, caps, lim, since, now)])
    case Seek(id) => s.(runs := s.runs[id := Sought(policy, s.rows, s.runs[id])])
    case Finish(id, o, now) =>
      var p := s.runs[id].plan;
      s.(rows := Committed(s.rows, p, o, now),
         runs := s.runs[id := if Storable(Answered(p, o, now)) then Logging(p, AnsweredRow(p, o, now), Done) else Over])
    case GiveUp(id, cause, drop, now) =>
      var p := s.runs[id].plan;
      s.(runs := s.runs[id := Logging(p, FailedRow(p, cause, now), if drop then Drop else Done)])
    case FallBack(id, cause, reason, failed, now) =>
      var p := s.runs[id].plan;
      s.(runs := s.runs[id := Logging(p, FailedRow(p, cause, failed), Retry(reason, now))])
    case Write(id) =>
      var r := s.runs[id];
      s.(log := Logged(Book([], s.log, []), r.row).log, runs := s.runs[id := Written(r)])
    case DropSession(id) =>
      var r := s.runs[id];
      s.(rows := DroppedRows(s.rows, r.plan), runs := s.runs[id := Retried(r)])
    case Report(kind, jobID, late) => s.(log := Reported(s.log, kind, jobID, late))
    case Look(id, key, jobID) => s.(held := s.held[id := Observed(s.rows, key, jobID).value])
    case Fold(id, sid, usage) => s.(rows := Folding(s.rows, s.held[id], sid, usage), held := s.held - {id})
    case ResetAll(scope) => s.(rows := ResetScope(s.rows, scope))
  }

  function ToSeek(r: Run): nat {
    if !r.Seeking? then 0
    else
      match r.stage
      case SeekBound => 4
      case SeekUnbound => 3
      case SeekLatest => 2
      case SeekOther => 1
  }

  // The lookups of a run that nothing interrupts.
  function SoughtAll(policy: Policy, rows: seq<Row>, r: Run): Run
    decreases ToSeek(r)
  {
    if r.Seeking? then SoughtAll(policy, rows, Sought(policy, rows, r)) else r
  }

  /** Uninterrupted, the lookups are the runner's plan, and the writes of a plan and of an observation
      are the runner's. */
  lemma StepsAreTheRunners(b: Book, key: Key, policy: Policy, caps: Caps, p: Plan, o: Outcome, cause: Error,
                           drop: bool, now: int)
    requires Grounded(p)
    ensures var first := Seeking(key, caps, now, SeekBound);
      SoughtAll(policy, b.rows, first) == Planned(PlanFor(b.rows, key, policy, caps, now))
    ensures Committing(b, p, o, now).rows == Committed(b.rows, p, o, now)
    ensures Failing(b, p, cause, drop, now).rows == if drop then DroppedRows(b.rows, p) else b.rows
  {
    hide Decide, Answered, Replace, Retire, AnsweredRow, Storable, OtherBound, PlanFor;
    SeeksMakeThePlan(policy, b.rows, key, caps, now);
  }

  lemma SeeksMakeThePlan(policy: Policy, rows: seq<Row>, key: Key, caps: Caps, now: int)
    ensures var first := Seeking(key, caps, now, SeekBound);
      SoughtAll(policy, rows, first) == Planned(PlanFor(rows, key, policy, caps, now))
  {
    hide OtherBound;
    var r0, r1 := Seeking(key, caps, now, SeekBound), Seeking(key, caps, now, SeekUnbound);
    var r2, r3 := Seeking(key, caps, now, SeekLatest), Seeking(key, caps, now, SeekOther);
    OneSeek(policy, rows, r0);
    OneSeek(policy, rows, r1);
    OneSeek(policy, rows, r2);
    OneSeek(policy, rows, r3);
  }

  lemma OneSeek(policy: Policy, rows: seq<Row>, r: Run)
    requires r.Seeking?
    ensures var next := Sought(policy, rows, r);
      SoughtAll(policy, rows, r) == if next.Planned? then next else SoughtAll(policy, rows, next)
  {
    hide Sought;
    var next := Sought(policy, rows, r);
    assert next.Planned? ==> SoughtAll(policy, rows, next) == next;
  }

  // A plan in flight continues a session only below every limit, and never lacks the session it
  // rotates or continues.
  ghost predicate PlanOk(policy: Policy, p: Plan) {
    && Grounded(p) && p.policy == policy
    && (p.decision.mode == Resume ==> Below(policy, p.started, p.rec.value) && 1 <= p.rec.value.runs < policy.maxRuns)
  }

  ghost predicate RunOk(policy: Policy, r: Run) {
    r.Planned? || r.Logging? || r.Dropping? ==> PlanOk(policy, r.plan)
  }

  ghost predicate HeldOk(row: Row, max: int) { Live(row) && 1 <= row.runs <= max }

  ghost predicate Inv(policy: Policy, s: World) {
    && Sound(s.rows, policy.maxRuns)
    && (forall id :: 0 <= id < |s.runs| ==> RunOk(policy, s.runs[id]))
    && (forall id :: id in s.held ==> HeldOk(s.held[id], policy.maxRuns))
  }

  lemma PlansAreOk(policy: Policy, r: Run, rec: Option<Row>, reset: bool, other: bool)
    requires policy.maxRuns >= 1 && r.Seeking? && (rec.Some? ==> rec.value.runs >= 1)
    ensures PlanOk(policy, PlanWith(policy, r, rec, reset, other).plan)
  {
    hide Decide, Below;
    DecidesByTheLimits(policy, r.caps, r.now, rec, reset, other);
    if rec.Some? {
      BelowBoundsRuns(policy, r.now, rec.value);
    }
    DecisionsAreGrounded(policy, r.caps, r.now, rec, reset, other);
  }

  lemma DecisionsAreGrounded(policy: Policy, caps: Caps, now: int, rec: Option<Row>, reset: bool, other: bool)
    ensures var d := Decide(policy, caps, now, rec, reset, other); d.rotated || d.mode != Fresh ==> rec.Some?
  {
  }

  lemma BelowBoundsRuns(policy: Policy, now: int, rec: Row)
    ensures Below(policy, now, rec) && policy.maxRuns > 0 ==> rec.runs < policy.maxRuns
  {
  }

  lemma SeekIsOk(policy: Policy, rows: seq<Row>, r: Run)
    requires policy.maxRuns >= 1 && Sound(rows, policy.maxRuns) && r.Seeking?
    ensures RunOk(policy, Sought(policy, rows, r))
  {
    hide Decide, PlanOk, PlanWith, OtherBound, Tidy;
    PlanIsPlanned(policy, r, ActiveFor(rows, r.key), false, false);
    PlanIsPlanned(policy, r, UnboundFor(rows, r.key.scope), false, false);
    PlanIsPlanned(policy, r, None, true, false);
    PlanIsPlanned(policy, r, None, false, OtherBound(rows, r.key));
  }

  lemma PlanIsPlanned(policy: Policy, r: Run, rec: Option<Row>, reset: bool, other: bool)
    requires policy.maxRuns >= 1 && r.Seeking? && (rec.Some? ==> rec.value.runs >= 1)
    ensures RunOk(policy, PlanWith(policy, r, rec, reset, other))
  {
    PlansAreOk(policy, r, rec, reset, other);
  }

  lemma CommitKeeps(policy: Policy, rows: seq<Row>, p: Plan, o: Outcome, now: int)
    requires policy.maxRuns >= 1 && Sound(rows, policy.maxRuns) && PlanOk(policy, p)
    requires ModeOf(p, o) == p.decision.mode || ModeOf(p, o) == Fresh
    ensures Sound(Committed(rows, p, o, now), policy.maxRuns)
  {
    hide Sound, Replace, Below, Storable, LocalId;
    if Storable(Answered(p, o, now)) {
      ReplaceBounds(rows, Answered(p, o, now), policy.maxRuns);
    }
  }

  lemma DropKeeps(rows: seq<Row>, p: Plan, max: int)
    requires Sound(rows, max)
    ensures Sound(DroppedRows(rows, p), max)
  {
    if p.rec.Some? {
      EndingKeeps(rows, p.key.scope.kind, p.rec.value.sid, p.key.scope);
    }
  }

  lemma ResetKeeps(rows: seq<Row>, scope: Scope, max: int)
    requires Sound(rows, max)
    ensures Sound(ResetScope(rows, scope), max)
  {
    EndingKeeps(rows, "", "", scope);
  }

  lemma FallbackIsOk(policy: Policy, p: Plan, reason: Reason, now: int)
    requires PlanOk(policy, p)
    ensures PlanOk(policy, FallbackPlan(p, reason, now))
  {
  }

  lemma ObservedIsActive(rows: seq<Row>, key: Key, jobID: string, max: int)
    requires Sound(rows, max)
    ensures var r := Observed(rows, key, jobID); r.Some? ==> HeldOk(r.value, max)
  {
  }

  lemma FoldKeeps(rows: seq<Row>, rec: Row, sid: string, usage: Option<Usage>, max: int)
    requires Sound(rows, max) && HeldOk(rec, max)
    ensures Sound(Folding(rows, rec, sid, usage), max)
  {
    hide Sound, Replace, Snapshot;
    ReplaceBounds(rows, Refreshed(rec, sid, usage), max);
  }

  /** Each step keeps the book sound: one row per session id, one active session per scope, its
      run count between one and the limit, and every plan in flight within the limits. */
  lemma StepKeeps(policy: Policy, s: World, step: Step)
    requires policy.maxRuns >= 1 && Inv(policy, s) && Enabled(s, step)
    ensures Inv(policy, Next(policy, s, step))
  {
    hide Sound, Committed, DroppedRows, Sought, ResetScope, Folding, PlanOk, Tripped, Answered, AnsweredRow, FailedRow,
      Logged, Reported;
    match step
    case Seek(id) => SeekIsOk(policy, s.rows, s.runs[id]);
    case Finish(id, o, now) =>
      assert RunOk(policy, s.runs[id]);
      CommitKeeps(policy, s.rows, s.runs[id].plan, o, now);
    case DropSession(id) =>
      assert RunOk(policy, s.runs[id]);
      DropKeeps(s.rows, s.runs[id].plan, policy.maxRuns);
      if s.runs[id].sequel.Retry? {
        FallbackIsOk(policy, s.runs[id].plan, s.runs[id].sequel.reason, s.runs[id].sequel.now);
      }
    case Look(id, key, jobID) => ObservedIsActive(s.rows, key, jobID, policy.maxRuns);
    case Fold(id, sid, usage) => FoldKeeps(s.rows, s.held[id], sid, usage, policy.maxRuns);
    case ResetAll(scope) => ResetKeeps(s.rows, scope, policy.maxRuns);
    case _ =>
  }

  ghost predicate Runnable(policy: Policy, s: World, steps: seq<Step>)
    decreases |steps|
  {
    steps == [] || (Enabled(s, steps[0]) && Runnable(policy, Next(policy, s, steps[0]), steps[1..]))
  }

  function After(policy: Policy, s: World, steps: seq<Step>): World
    requires Runnable(policy, s, steps)
    decreases |steps|
  {
    if steps == [] then s else After(policy, Next(policy, s, steps[0]), steps[1..])
  }

  /** Along every run, in every interleaving. */
  lemma {:induction false} RunsKeep(policy: Policy, s: World, steps: seq<Step>)
    requires policy.maxRuns >= 1 && Inv(policy, s) && Runnable(policy, s, steps)
    ensures Inv(policy, After(policy, s, steps))
    decreases |steps|
  {
    hide Inv, Next, Enabled;
    if steps != [] {
      StepKeeps(policy, s, steps[0]);
      RunsKeep(policy, Next(policy, s, steps[0]), steps[1..]);
    }
  }

  lemma {:induction false} RunsAppend(policy: Policy, s: World, first: seq<Step>, more: seq<Step>)
    requires Runnable(policy, s, first) && Runnable(policy, After(policy, s, first), more)
    ensures Runnable(policy, s, first + more)
    ensures After(policy, s, first + more) == After(policy, After(policy, s, first), more)
    decreases |first|
  {
    hide Next, Enabled;
    if first == [] {
      assert first + more == more;
    } else {
      assert (first + more)[1..] == first[1..] + more;
      RunsAppend(policy, Next(policy, s, first[0]), first[1..], more);
    }
  }

  lemma OneStep(policy: Policy, s: World, step: Step)
    requires Enabled(s, step)
    ensures Runnable(policy, s, [step]) && After(policy, s, [step]) == Next(policy, s, step)
  {
    hide Next, Enabled;
    assert [step][1..] == [];
    assert Runnable(policy, Next(policy, s, step), []);
  }

  lemma TwoSteps(policy: Policy, s: World, a: Step, b: Step)
    requires Enabled(s, a) && Enabled(Next(policy, s, a), b)
    ensures Runnable(policy, s, [a, b]) && After(policy, s, [a, b]) == Next(policy, Next(policy, s, a), b)
  {
    hide Next, Enabled, Runnable, After;
    OneStep(policy, s, a);
    OneStep(policy, Next(policy, s, a), b);
    RunsAppend(policy, s, [a], [b]);
    assert [a] + [b] == [a, b];
  }

  lemma FourSteps(policy: Policy, s: World, a: Step, b: Step, c: Step, d: Step)
    requires Enabled(s, a) && Enabled(Next(policy, s, a), b)
    requires var s2 := Next(policy, Next(policy, s, a), b); Enabled(s2, c) && Enabled(Next(policy, s2, c), d)
    ensures Runnable(policy, s, [a, b, c, d])
    ensures After(policy, s, [a, b, c, d]) == Next(policy, Next(policy, Next(policy, Next(policy, s, a), b), c), d)
  {
    hide Next, Enabled, Runnable, After;
    var s2 := Next(policy, Next(policy, s, a), b);
    TwoSteps(policy, s, a, b);
    TwoSteps(policy, s2, c, d);
    RunsAppend(policy, s, [a, b], [c, d]);
    assert [a, b] + [c, d] == [a, b, c, d];
  }
}
