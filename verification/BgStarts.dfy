/** The calls of the agent when runs overlap, against the rows the daily limit counts: every call is
    counted once its row is written, unless the store refused the answer. And a run of steps in which
    the rows reach the bound. */
module BgStarts {
  import opened BgBook
  import opened BgLaws
  import opened BgLimit
  import opened BgPolicy
  import opened BgProtocol
  import opened BgRunner
  import opened GoText

  // The rows on their way to the log that the limit will count.
  function Due(r: Run, kind: string, since: int): nat {
    if r.Logging? || r.Refused? then One(Counted(r.row, kind, since)) else 0
  }

  function DueAll(runs: seq<Run>, kind: string, since: int): nat {
    if runs == [] then 0 else DueAll(runs[..|runs| - 1], kind, since) + Due(runs[|runs| - 1], kind, since)
  }

  lemma {:induction false} DueMoves(runs: seq<Run>, id: nat, r: Run, kind: string, since: int)
    requires id < |runs|
    ensures DueAll(runs[id := r], kind, since) ==
      DueAll(runs, kind, since) - Due(runs[id], kind, since) + Due(r, kind, since)
  {
    hide Due;
    var n := |runs| - 1;
    if id < n {
      DueMoves(runs[..n], id, r, kind, since);
      assert runs[id := r][..n] == runs[..n][id := r];
    } else {
      assert runs[id := r][..n] == runs[..n];
    }
  }

  lemma DueEnters(runs: seq<Run>, r: Run, kind: string, since: int)
    ensures DueAll(runs + [r], kind, since) == DueAll(runs, kind, since) + Due(r, kind, since)
  {
    assert (runs + [r])[..|runs|] == runs;
  }

  lemma {:induction false} DueIsOwed(runs: seq<Run>, kind: string, since: int)
    ensures DueAll(runs, kind, since) <= OwedAll(runs, kind)
  {
    if runs != [] {
      DueIsOwed(runs[..|runs| - 1], kind, since);
    }
  }

  // A step that ends a call of the agent for a run of the kind.
  predicate EndsCall(s: World, step: Step, kind: string)
    requires Enabled(s, step)
  {
    (step.Finish? || step.GiveUp? || step.FallBack?) && s.runs[step.id].plan.key.scope.kind == kind
  }

  // The store refuses the answer of such a call.
  predicate IsRefused(s: World, step: Step, kind: string)
    requires Enabled(s, step)
  {
    step.Finish? && EndsCall(s, step, kind) && !Storable(Answered(s.runs[step.id].plan, step.outcome, step.now))
  }

  // Runs of the kind started on the day.
  predicate OnDay(r: Run, kind: string, since: int) {
    match r
    case Seeking(key, _, now, _) => key.scope.kind == kind ==> since <= now
    case Planned(p) => p.key.scope.kind == kind ==> since <= p.started
    case Logging(p, _, sequel) => p.key.scope.kind == kind && sequel.Retry? ==> since <= sequel.now
    case Dropping(p, sequel) => p.key.scope.kind == kind && sequel.Retry? ==> since <= sequel.now
    case _ => true
  }

  ghost predicate AllOnDay(runs: seq<Run>, kind: string, since: int) {
    forall id :: 0 <= id < |runs| ==> OnDay(runs[id], kind, since)
  }

  // A run that comes, or starts again, reads a clock that is not behind the start of the day.
  predicate StepOnDay(step: Step, since: int) {
    match step
    case Enter(_, _, _, _, now) => since <= now
    case FallBack(_, _, _, _, now) => since <= now
    case _ => true
  }

  lemma RowsOfCalls(p: Plan, o: Outcome, cause: Error, now: int, kind: string, since: int)
    ensures Counted(AnsweredRow(p, o, now), kind, since) <==> p.key.scope.kind == kind && since <= p.started
    ensures Counted(FailedRow(p, cause, now), kind, since) <==> p.key.scope.kind == kind && since <= p.started
  {
    hide Answered;
  }

  lemma EntryOnDay(s: World, key: Key, caps: Caps, lim: Limits, day: int, now: int, kind: string, since: int)
    ensures var r := Entering(s, key, caps, lim, day, now);
      Due(r, kind, since) == 0 && (since <= now ==> OnDay(r, kind, since))
  {
    hide Tripped;
  }

  lemma SeekOnDay(policy: Policy, rows: seq<Row>, r: Run, kind: string, since: int)
    requires r.Seeking?
    ensures var next := Sought(policy, rows, r);
      Due(next, kind, since) == 0 && (OnDay(r, kind, since) ==> OnDay(next, kind, since))
  {
    hide Decide, OtherBound, ActiveFor, LatestFor, Counted;
  }

  lemma RowIsCounted(log: seq<LogRow>, row: LogRow, kind: string, since: int)
    requires TrimSpace(kind) != ""
    ensures Runs(Logged(Book([], log, []), row).log, kind, since) ==
      Runs(log, kind, since) + One(Counted(row, kind, since))
  {
    assert (log + [row])[..|log|] == log;
  }

  // The rows counted, and those on their way.
  function Told(s: World, kind: string, since: int): nat { Runs(s.log, kind, since) + DueAll(s.runs, kind, since) }

  lemma StepTells(policy: Policy, s: World, step: Step, kind: string, since: int)
    requires Enabled(s, step) && TrimSpace(kind) != "" && AllOnDay(s.runs, kind, since)
    ensures Told(Next(policy, s, step), kind, since) + One(IsRefused(s, step, kind)) ==
      Told(s, kind, since) + One(EndsCall(s, step, kind))
  {
    hide Runs, DueAll, Entering, Sought, Committed, DroppedRows, Folding, ResetScope, AnsweredRow, FailedRow, Logged,
      Reported, Answered, Storable, Counted, TrimSpace;
    match step
    case Enter(key, caps, lim, day, now) =>
      EntryOnDay(s, key, caps, lim, day, now, kind, since);
      DueEnters(s.runs, Entering(s, key, caps, lim, day, now), kind, since);
    case Seek(id) =>
      SeekOnDay(policy, s.rows, s.runs[id], kind, since);
      DueMoves(s.runs, id, Sought(policy, s.rows, s.runs[id]), kind, since);
    case Finish(id, o, now) =>
      var p := s.runs[id].plan;
      assert OnDay(s.runs[id], kind, since);
      RowsOfCalls(p, o, FAILURE, now, kind, since);
      DueMoves(s.runs, id, Logging(p, AnsweredRow(p, o, now), Done), kind, since);
      DueMoves(s.runs, id, Over, kind, since);
    case GiveUp(id, cause, drop, now) =>
      var p := s.runs[id].plan;
      assert OnDay(s.runs[id], kind, since);
      RowsOfCalls(p, Outcome("", "", None, None, 0, 0), cause, now, kind, since);
      DueMoves(s.runs, id, Logging(p, FailedRow(p, cause, now), if drop then Drop else Done), kind, since);
    case FallBack(id, cause, reason, failed, now) =>
      var p := s.runs[id].plan;
      assert OnDay(s.runs[id], kind, since);
      RowsOfCalls(p, Outcome("", "", None, None, 0, 0), cause, failed, kind, since);
      DueMoves(s.runs, id, Logging(p, FailedRow(p, cause, failed), Retry(reason, now)), kind, since);
    case Write(id) =>
      RowIsCounted(s.log, s.runs[id].row, kind, since);
      DueMoves(s.runs, id, Written(s.runs[id]), kind, since);
    case DropSession(id) => DueMoves(s.runs, id, Retried(s.runs[id]), kind, since);
    case Report(other, jobID, late) => ReportCountsTheSame(s.log, other, jobID, late, kind, since);
    case _ =>
  }

  lemma StepKeepsDay(policy: Policy, s: World, step: Step, kind: string, since: int)
    requires Enabled(s, step) && AllOnDay(s.runs, kind, since) && StepOnDay(step, since)
    ensures AllOnDay(Next(policy, s, step).runs, kind, since)
  {
    hide Entering, Sought, Committed, DroppedRows, Folding, ResetScope, AnsweredRow, FailedRow, Logged, Reported,
      Answered, Storable;
    if step.Enter? {
      EntryOnDay(s, step.key, step.caps, step.lim, step.since, step.now, kind, since);
    }
    if step.Seek? {
      SeekOnDay(policy, s.rows, s.runs[step.id], kind, since);
    }
  }

  // The calls that ended along these steps, and the answers the store refused.
  function Calls(policy: Policy, s: World, steps: seq<Step>, kind: string): nat
    requires Runnable(policy, s, steps)
    decreases |steps|
  {
    if steps == [] then 0
    else One(EndsCall(s, steps[0], kind)) + Calls(policy, Next(policy, s, steps[0]), steps[1..], kind)
  }

  function Refusals(policy: Policy, s: World, steps: seq<Step>, kind: string): nat
    requires Runnable(policy, s, steps)
    decreases |steps|
  {
    if steps == [] then 0
    else One(IsRefused(s, steps[0], kind)) + Refusals(policy, Next(policy, s, steps[0]), steps[1..], kind)
  }

  /** In every interleaving each call is counted, now or once its row is written, except those whose
      answer the store refused. */
  lemma {:induction false} CallsAreTold(policy: Policy, s: World, steps: seq<Step>, kind: string, since: int)
    requires Runnable(policy, s, steps) && TrimSpace(kind) != "" && AllOnDay(s.runs, kind, since)
    requires forall k :: 0 <= k < |steps| ==> StepOnDay(steps[k], since)
    ensures Told(After(policy, s, steps), kind, since) + Refusals(policy, s, steps, kind) ==
      Told(s, kind, since) + Calls(policy, s, steps, kind)
    decreases |steps|
  {
    hide Told, Next, Enabled, AllOnDay, StepOnDay, EndsCall, IsRefused, TrimSpace;
    if steps != [] {
      StepTells(policy, s, steps[0], kind, since);
      StepKeepsDay(policy, s, steps[0], kind, since);
      CallsAreTold(policy, Next(policy, s, steps[0]), steps[1..], kind, since);
    }
  }

  /** So with at most `most` runs of the kind in flight at a time, the calls of a day, on top of those the
      log held, pass limit - 1 + 2 * most only by the answers the store refused. */
  lemma StartsInFlight(policy: Policy, s: World, steps: seq<Step>, kind: string, since: int, limit: int, most: nat)
    requires Runnable(policy, s, steps) && limit > 0 && AtMost(policy, s, steps, kind, since, limit, most)
    requires s.runs == [] && Runs(s.log, kind, since) < limit && TrimSpace(kind) != ""
    requires forall k :: 0 <= k < |steps| ==> StepOnDay(steps[k], since)
    ensures Runs(s.log, kind, since) + Calls(policy, s, steps, kind) <=
      limit - 1 + 2 * most + Refusals(policy, s, steps, kind)
  {
    hide Runs, Next, Enabled, StepOnDay, TrimSpace, AtMost, Calls, Refusals, Runnable, After;
    CallsAreTold(policy, s, steps, kind, since);
    LimitInFlight(policy, s, steps, kind, since, limit, most);
    DueIsOwed(After(policy, s, steps).runs, kind, since);
  }

  const LOST := Error(true, false, false, false, "session lost")

  // A planned continuation whose session is gone, and whose fresh attempt fails too.
  function FallsBackAndFails(id: nat, now: int): seq<Step> {
    [FallBack(id, LOST, SessionLost, now, now), Write(id), DropSession(id), GiveUp(id, FAILURE, false, now)]
    + [Write(id)]
  }

  ghost predicate Continuing(r: Run, kind: string, since: int) {
    r.Planned? && r.plan.decision.mode != Fresh && r.plan.key.scope.kind == kind && since <= r.plan.started
  }

  lemma FallsBackTwice(policy: Policy, s: World, id: nat, kind: string, since: int)
    requires id < |s.runs| && Continuing(s.runs[id], kind, since) && TrimSpace(kind) != ""
    ensures Runnable(policy, s, FallsBackAndFails(id, since))
    ensures var later := After(policy, s, FallsBackAndFails(id, since));
      later.runs == s.runs[id := Over] && Runs(later.log, kind, since) == Runs(s.log, kind, since) + 2
  {
    hide Runnable, After, TrimSpace, Runs, DroppedRows, Logged;
    var p, runs := s.runs[id].plan, s.runs;
    var again := FallbackPlan(p, SessionLost, since);
    var first, second := FailedRow(p, LOST, since), FailedRow(again, FAILURE, since);
    var r1, r2 := Logging(p, first, Retry(SessionLost, since)), Dropping(p, Retry(SessionLost, since));
    var r3, r4 := Planned(again), Logging(again, second, Done);
    assert runs[id := r1][id := r2] == runs[id := r2] && runs[id := r2][id := r3] == runs[id := r3];
    assert runs[id := r3][id := r4] == runs[id := r4] && runs[id := r4][id := Over] == runs[id := Over];
    var log1 := Logged(Book([], s.log, []), first).log;
    var log2 := Logged(Book([], log1, []), second).log;
    RowIsCounted(s.log, first, kind, since);
    RowIsCounted(log1, second, kind, since);
    var s1 := s.(runs := runs[id := r1]);
    var s2 := s1.(runs := runs[id := r2], log := log1);
    var s3 := s2.(runs := runs[id := r3], rows := DroppedRows(s.rows, p));
    var s4 := s3.(runs := runs[id := r4]);
    FourSteps(policy, s, FallBack(id, LOST, SessionLost, since, since), Write(id), DropSession(id),
      GiveUp(id, FAILURE, false, since));
    OneStep(policy, s4, Write(id));
    RunsAppend(policy, s, FallsBackAndFails(id, since)[..4], [Write(id)]);
    assert FallsBackAndFails(id, since)[..4] + [Write(id)] == FallsBackAndFails(id, since);
  }

  lemma {:induction false} AllFallBack(policy: Policy, s: World, id: nat, kind: string, since: int)
    returns (steps: seq<Step>)
    requires id <= |s.runs| && TrimSpace(kind) != ""
    requires forall k :: id <= k < |s.runs| ==> Continuing(s.runs[k], kind, since)
    ensures Runnable(policy, s, steps) && (forall k :: 0 <= k < |steps| ==> !steps[k].Enter?)
    ensures |After(policy, s, steps).runs| == |s.runs|
    ensures Runs(After(policy, s, steps).log, kind, since) == Runs(s.log, kind, since) + 2 * (|s.runs| - id)
    decreases |s.runs| - id
  {
    hide Runs, TrimSpace, Continuing;
    if id == |s.runs| {
      steps := [];
    } else {
      hide Runnable, After;
      FallsBackTwice(policy, s, id, kind, since);
      var later := After(policy, s, FallsBackAndFails(id, since));
      var rest := AllFallBack(policy, later, id + 1, kind, since);
      RunsAppend(policy, s, FallsBackAndFails(id, since), rest);
      steps := FallsBackAndFails(id, since) + rest;
    }
  }

  lemma FirstSeekContinues(policy: Policy, rows: seq<Row>, key: Key, since: int)
    requires ActiveFor(rows, key).Some?
    ensures Continuing(Sought(policy, rows, Starting(key, Caps(true, true), since)), key.scope.kind, since)
  {
    hide ActiveFor, Below;
    DecidesByTheLimits(policy, Caps(true, true), since, ActiveFor(rows, key), false, false);
  }

  // Each run finds its session at its first lookup.
  lemma {:induction false} AllSeek(policy: Policy, s: World, id: nat, kind: string, since: int)
    returns (steps: seq<Step>)
    requires id <= |s.runs|
    requires forall k :: 0 <= k < id ==> Continuing(s.runs[k], kind, since)
    requires forall k :: id <= k < |s.runs| ==>
      && s.runs[k].Seeking? && s.runs[k] == Starting(s.runs[k].key, Caps(true, true), since)
      && s.runs[k].key.scope.kind == kind && ActiveFor(s.rows, s.runs[k].key).Some?
    ensures Runnable(policy, s, steps) && (forall k :: 0 <= k < |steps| ==> !steps[k].Enter?)
    ensures var later := After(policy, s, steps);
      && later.log == s.log && |later.runs| == |s.runs|
      && forall k :: 0 <= k < |s.runs| ==> Continuing(later.runs[k], kind, since)
    decreases |s.runs| - id
  {
    hide Continuing, ActiveFor, Sought;
    if id == |s.runs| {
      steps := [];
    } else {
      hide Runnable, After;
      FirstSeekContinues(policy, s.rows, s.runs[id].key, since);
      OneStep(policy, s, Seek(id));
      var rest := AllSeek(policy, Next(policy, s, Seek(id)), id + 1, kind, since);
      RunsAppend(policy, s, [Seek(id)], rest);
      steps := [Seek(id)] + rest;
    }
  }

  lemma {:induction false} FlyingAtMost(runs: seq<Run>, kind: string)
    ensures Flying(runs, kind) <= |runs|
  {
    if runs != [] {
      FlyingAtMost(runs[..|runs| - 1], kind);
    }
  }

  // No more runs are in flight than ever came.
  lemma {:induction false} AtMostThoseThatCame(policy: Policy, s: World, steps: seq<Step>, kind: string, since: int,
                                               limit: int, most: nat)
    requires Runnable(policy, s, steps) && |After(policy, s, steps).runs| <= most
    requires forall k :: 0 <= k < |steps| ==> Limited(steps[k], kind, since, limit)
    ensures |s.runs| <= most && AtMost(policy, s, steps, kind, since, limit, most)
    decreases |steps|
  {
    hide Limited, Flying, Sought, Answered, AnsweredRow, FailedRow, Entering, Committed, Storable;
    if steps != [] {
      AtMostThoseThatCame(policy, Next(policy, s, steps[0]), steps[1..], kind, since, limit, most);
    }
    FlyingAtMost(s.runs, kind);
  }

  /** The bound is attained: with one run left in the day, any number of runs that each have a session to
      continue are let through together, each falls back and each fails again, and the log counts
      limit - 1 and two rows for each. */
  lemma LimitIsAttained(policy: Policy, rows: seq<Row>, log: seq<LogRow>, keys: seq<Key>, kind: string, lim: Limits,
                        since: int)
    returns (steps: seq<Step>)
    requires TrimSpace(kind) != ""
    requires forall k :: 0 <= k < |keys| ==> keys[k].scope.kind == kind && ActiveFor(rows, keys[k]).Some?
    requires Runs(log, kind, since) == lim.dailyRuns - 1 && lim.dailyCost <= 0.0 && lim.dailyTokens <= 0
    ensures var s := World(rows, log, [], map[]);
      && Runnable(policy, s, steps) && AtMost(policy, s, steps, kind, since, lim.dailyRuns, |keys|)
      && Runs(After(policy, s, steps).log, kind, since) == lim.dailyRuns - 1 + 2 * |keys|
  {
    hide Runs, Runnable, After, TrimSpace, Spent, AtMost, Continuing, ActiveFor;
    var s, caps := World(rows, log, [], map[]), Caps(true, true);
    AllEnter(policy, rows, log, keys, kind, caps, lim, since);
    var entered := s.(runs := Entered(keys, caps, since));
    var seeks := AllSeek(policy, entered, 0, kind, since);
    var planned := After(policy, entered, seeks);
    var falls := AllFallBack(policy, planned, 0, kind, since);
    RunsAppend(policy, entered, seeks, falls);
    RunsAppend(policy, s, Entries(keys, caps, lim, since), seeks + falls);
    steps := Entries(keys, caps, lim, since) + (seeks + falls);
    AtMostThoseThatCame(policy, s, steps, kind, since, lim.dailyRuns, |keys|);
  }
}
