/** The daily limit when runs overlap: the guard reads the log before the run it lets through has
    written a row, so every run in flight can still add its own. */
module BgLimit {
  import opened BgBook
  import opened BgPolicy
  import opened BgProtocol
  import opened BgRunner
  import opened GoText

  function One(b: bool): nat { if b then 1 else 0 }

  function Counting(row: LogRow, kind: string): nat { One(row.kind == kind && row.status != Blocked) }

  // The rows of the kind a run may still add to the count.
  function Owed(r: Run, kind: string): nat {
    match r
    case Seeking(key, _, _, _) => 2 * One(key.scope.kind == kind)
    case Planned(p) => One(p.key.scope.kind == kind) * (if p.decision.mode == Fresh then 1 else 2)
    case Logging(p, row, sequel) => Counting(row, kind) + One(p.key.scope.kind == kind && sequel.Retry?)
    case Dropping(p, sequel) => One(p.key.scope.kind == kind && sequel.Retry?)
    case Refused(row) => Counting(row, kind)
    case Over => 0
  }

  function OwedAll(runs: seq<Run>, kind: string): nat {
    if runs == [] then 0 else OwedAll(runs[..|runs| - 1], kind) + Owed(runs[|runs| - 1], kind)
  }

  // How many runs of the kind are in flight: let through and not over.
  function Flying(runs: seq<Run>, kind: string): nat {
    if runs == [] then 0 else Flying(runs[..|runs| - 1], kind) + One(Owed(runs[|runs| - 1], kind) > 0)
  }

  lemma {:induction false} OwedAtMostTwice(runs: seq<Run>, kind: string)
    ensures OwedAll(runs, kind) <= 2 * Flying(runs, kind)
  {
    if runs != [] {
      OwedAtMostTwice(runs[..|runs| - 1], kind);
    }
  }

  lemma {:induction false} OwedMoves(runs: seq<Run>, id: nat, r: Run, kind: string)
    requires id < |runs|
    ensures OwedAll(runs[id := r], kind) == OwedAll(runs, kind) - Owed(runs[id], kind) + Owed(r, kind)
  {
    hide Owed;
    var n := |runs| - 1;
    if id < n {
      OwedMoves(runs[..n], id, r, kind);
      assert runs[id := r][..n] == runs[..n][id := r];
    } else {
      assert runs[id := r][..n] == runs[..n];
    }
  }

  lemma OwedEnters(runs: seq<Run>, r: Run, kind: string)
    ensures OwedAll(runs + [r], kind) == OwedAll(runs, kind) + Owed(r, kind)
  {
    assert (runs + [r])[..|runs|] == runs;
  }

  lemma {:induction false} ReportCountsTheSame(log: seq<LogRow>, other: string, jobID: string, usage: Usage,
                                               kind: string, since: int)
    ensures Runs(Reported(log, other, jobID, usage), kind, since) == Runs(log, kind, since)
  {
    if log != [] {
      var n := |log| - 1;
      ReportCountsTheSame(log[..n], other, jobID, usage, kind, since);
      assert Reported(log, other, jobID, usage)[..n] == Reported(log[..n], other, jobID, usage);
    }
  }

  lemma OneRowCounts(log: seq<LogRow>, row: LogRow, kind: string, since: int)
    ensures Runs(Logged(Book([], log, []), row).log, kind, since) <= Runs(log, kind, since) + Counting(row, kind)
  {
    assert (log + [row])[..|log|] == log;
  }

  // What the log counts and the runs in flight may still add.
  function Claimed(s: World, kind: string, since: int): nat { Runs(s.log, kind, since) + OwedAll(s.runs, kind) }

  // The guards of the kind all read the same limit over the same day.
  predicate Limited(step: Step, kind: string, since: int, limit: int) {
    step.Enter? && step.key.scope.kind == kind ==> step.lim.dailyRuns == limit && step.since == since
  }

  lemma SeekOwes(policy: Policy, rows: seq<Row>, r: Run, kind: string)
    requires r.Seeking?
    ensures Owed(Sought(policy, rows, r), kind) <= Owed(r, kind)
  {
    hide Decide, OtherBound, ActiveFor, LatestFor;
  }

  lemma AnswersOwe(p: Plan, o: Outcome, cause: Error, now: int)
    ensures AnsweredRow(p, o, now).kind == p.key.scope.kind && AnsweredRow(p, o, now).status == Ok
    ensures FailedRow(p, cause, now).kind == p.key.scope.kind && FailedRow(p, cause, now).status != Blocked
  {
    hide Answered;
  }

  // A refused run adds nothing; one let through found room and may add two rows.
  lemma EntersOwe(s: World, key: Key, caps: Caps, lim: Limits, since: int, now: int, kind: string)
    ensures var r := Entering(s, key, caps, lim, since, now);
      && Owed(r, kind) <= 2
      && (key.scope.kind != kind ==> Owed(r, kind) == 0)
      && (key.scope.kind == kind && lim.dailyRuns > 0 && Owed(r, kind) > 0 ==> Runs(s.log, kind, since) < lim.dailyRuns)
  {
  }

  // Only a run that is let through raises the claim.
  lemma StepClaims(policy: Policy, s: World, step: Step, kind: string, since: int)
    requires Enabled(s, step)
    ensures !step.Enter? ==> Claimed(Next(policy, s, step), kind, since) <= Claimed(s, kind, since)
    ensures step.Enter? ==>
      var r := Entering(s, step.key, step.caps, step.lim, step.since, step.now);
      Claimed(Next(policy, s, step), kind, since) == Claimed(s, kind, since) + Owed(r, kind)
  {
    hide Runs, OwedAll, Entering, Sought, Committed, DroppedRows, Folding, ResetScope, AnsweredRow, FailedRow, Logged,
      Reported, Answered, Storable;
    match step
    case Enter(key, caps, lim, day, now) => OwedEnters(s.runs, Entering(s, key, caps, lim, day, now), kind);
    case Seek(id) =>
      SeekOwes(policy, s.rows, s.runs[id], kind);
      OwedMoves(s.runs, id, Sought(policy, s.rows, s.runs[id]), kind);
    case Finish(id, o, now) =>
      var p := s.runs[id].plan;
      AnswersOwe(p, o, Error(false, false, false, false, ""), now);
      OwedMoves(s.runs, id, Logging(p, AnsweredRow(p, o, now), Done), kind);
      OwedMoves(s.runs, id, Over, kind);
    case GiveUp(id, cause, drop, now) =>
      var p := s.runs[id].plan;
      AnswersOwe(p, Outcome("", "", None, None, 0, 0), cause, now);
      OwedMoves(s.runs, id, Logging(p, FailedRow(p, cause, now), if drop then Drop else Done), kind);
    case FallBack(id, cause, reason, failed, now) =>
      var p := s.runs[id].plan;
      AnswersOwe(p, Outcome("", "", None, None, 0, 0), cause, failed);
      OwedMoves(s.runs, id, Logging(p, FailedRow(p, cause, failed), Retry(reason, now)), kind);
    case Write(id) =>
      OneRowCounts(s.log, s.runs[id].row, kind, since);
      OwedMoves(s.runs, id, Written(s.runs[id]), kind);
    case DropSession(id) => OwedMoves(s.runs, id, Retried(s.runs[id]), kind);
    case Report(other, jobID, late) => ReportCountsTheSame(s.log, other, jobID, late, kind, since);
    case _ =>
  }

  // The kind's guards agree, and never more than most runs of it are in flight at a time.
  ghost predicate AtMost(policy: Policy, s: World, steps: seq<Step>, kind: string, since: int, limit: int, most: nat)
    requires Runnable(policy, s, steps)
    decreases |steps|
  {
    && Flying(s.runs, kind) <= most
    && (steps != [] ==>
          && Limited(steps[0], kind, since, limit)
          && AtMost(policy, Next(policy, s, steps[0]), steps[1..], kind, since, limit, most))
  }

  lemma StepWithinClaim(policy: Policy, s: World, step: Step, kind: string, since: int, limit: int, most: nat)
    requires Enabled(s, step) && Limited(step, kind, since, limit) && limit > 0
    requires Claimed(s, kind, since) <= limit - 1 + 2 * most && Flying(Next(policy, s, step).runs, kind) <= most
    ensures Claimed(Next(policy, s, step), kind, since) <= limit - 1 + 2 * most
  {
    hide Runs, OwedAll, Flying, Entering, Owed;
    StepClaims(policy, s, step, kind, since);
    if step.Enter? {
      EntersOwe(s, step.key, step.caps, step.lim, step.since, step.now, kind);
      OwedAtMostTwice(Next(policy, s, step).runs, kind);
    }
  }

  /** However runs of a kind interleave, with at most `most` of them in flight at a time the rows the day's
      count reads and those that runs in flight may still add stay within the limit and two rows for each
      of them, less one. For runs one after another that is one past the limit. */
  lemma {:induction false} LimitInFlight(policy: Policy, s: World, steps: seq<Step>, kind: string, since: int,
                                         limit: int, most: nat)
    requires Runnable(policy, s, steps) && limit > 0 && AtMost(policy, s, steps, kind, since, limit, most)
    requires Claimed(s, kind, since) <= limit - 1 + 2 * most
    ensures Claimed(After(policy, s, steps), kind, since) <= limit - 1 + 2 * most
    decreases |steps|
  {
    hide Claimed, Next, Enabled, Flying, Limited;
    if steps != [] {
      StepWithinClaim(policy, s, steps[0], kind, since, limit, most);
      LimitInFlight(policy, Next(policy, s, steps[0]), steps[1..], kind, since, limit, most);
    }
  }

  const FAILURE := Error(false, false, false, false, "failed")

  function Starting(key: Key, caps: Caps, now: int): Run { Seeking(key, caps, now, SeekBound) }

  // One run, without a session to continue, from its first lookup to the row of its failure.
  function Attempt(id: nat, now: int): seq<Step> {
    [Seek(id), Seek(id), Seek(id), Seek(id)] + [GiveUp(id, FAILURE, false, now), Write(id)]
  }

  ghost predicate NoFallBack(steps: seq<Step>) { forall k :: 0 <= k < |steps| ==> !steps[k].FallBack? }

  // Nothing recorded: every lookup goes on to the next, and the plan is fresh.
  lemma LookupsFindNothing(policy: Policy, log: seq<LogRow>, runs: seq<Run>, id: nat, key: Key, caps: Caps, now: int)
    requires id < |runs| && runs[id] == Starting(key, caps, now)
    ensures var s := World([], log, runs, map[]);
      var p := Plan(key, OpenFresh(NoReason), now, policy, None);
      && Runnable(policy, s, [Seek(id), Seek(id), Seek(id), Seek(id)])
      && After(policy, s, [Seek(id), Seek(id), Seek(id), Seek(id)]) == s.(runs := runs[id := Planned(p)])
  {
    hide Runnable, After;
    var s := World([], log, runs, map[]);
    var r1, r2 := Seeking(key, caps, now, SeekUnbound), Seeking(key, caps, now, SeekLatest);
    var r3 := Seeking(key, caps, now, SeekOther);
    var r4 := Planned(Plan(key, OpenFresh(NoReason), now, policy, None));
    assert Sought(policy, [], runs[id]) == r1 && Sought(policy, [], r1) == r2;
    assert Sought(policy, [], r2) == r3 && Sought(policy, [], r3) == r4;
    var s1 := s.(runs := runs[id := r1]);
    var s2 := s.(runs := runs[id := r2]);
    var s3 := s.(runs := runs[id := r3]);
    assert runs[id := r1][id := r2] == runs[id := r2] && runs[id := r2][id := r3] == runs[id := r3];
    assert runs[id := r3][id := r4] == runs[id := r4];
    assert Next(policy, s, Seek(id)) == s1 && Next(policy, s1, Seek(id)) == s2 && Next(policy, s2, Seek(id)) == s3;
    FourSteps(policy, s, Seek(id), Seek(id), Seek(id), Seek(id));
  }

  lemma AttemptCounts(policy: Policy, log: seq<LogRow>, runs: seq<Run>, id: nat, key: Key, caps: Caps, now: int,
                      since: int)
    requires id < |runs| && runs[id] == Starting(key, caps, now) && TrimSpace(key.scope.kind) != "" && since <= now
    ensures var s := World([], log, runs, map[]);
      && Runnable(policy, s, Attempt(id, now))
      && var later := After(policy, s, Attempt(id, now));
        && later == World([], later.log, runs[id := Over], map[])
        && Runs(later.log, key.scope.kind, since) == Runs(log, key.scope.kind, since) + 1
  {
    hide Runnable, After, TrimSpace;
    var s := World([], log, runs, map[]);
    LookupsFindNothing(policy, log, runs, id, key, caps, now);
    var p := Plan(key, OpenFresh(NoReason), now, policy, None);
    var s4 := s.(runs := runs[id := Planned(p)]);
    var row := FailedRow(p, FAILURE, now);
    assert runs[id := Planned(p)][id := Logging(p, row, Done)] == runs[id := Logging(p, row, Done)];
    assert runs[id := Logging(p, row, Done)][id := Over] == runs[id := Over];
    TwoSteps(policy, s4, GiveUp(id, FAILURE, false, now), Write(id));
    RunsAppend(policy, s, [Seek(id), Seek(id), Seek(id), Seek(id)], [GiveUp(id, FAILURE, false, now), Write(id)]);
    assert (log + [row])[..|log|] == log;
  }

  // The runs let through, from the id-th on, each start and fail.
  lemma {:induction false} AllAttempt(policy: Policy, log: seq<LogRow>, runs: seq<Run>, id: nat, kind: string,
                                      caps: Caps, since: int)
    returns (steps: seq<Step>)
    requires id <= |runs| && TrimSpace(kind) != ""
    requires forall k :: id <= k < |runs| ==>
      runs[k].Seeking? && runs[k] == Starting(runs[k].key, caps, since) && runs[k].key.scope.kind == kind
    ensures var s := World([], log, runs, map[]);
      && Runnable(policy, s, steps) && NoFallBack(steps) && (forall k :: 0 <= k < |steps| ==> !steps[k].Enter?)
      && Runs(After(policy, s, steps).log, kind, since) == Runs(log, kind, since) + |runs| - id
    decreases |runs| - id
  {
    hide Runs, TrimSpace;
    var s := World([], log, runs, map[]);
    if id == |runs| {
      steps := [];
    } else {
      hide Runnable, After;
      AttemptCounts(policy, log, runs, id, runs[id].key, caps, since, since);
      var later := After(policy, s, Attempt(id, since));
      var rest := AllAttempt(policy, later.log, runs[id := Over], id + 1, kind, caps, since);
      RunsAppend(policy, s, Attempt(id, since), rest);
      steps := Attempt(id, since) + rest;
    }
  }

  function Entries(keys: seq<Key>, caps: Caps, lim: Limits, since: int): (steps: seq<Step>)
    ensures |steps| == |keys|
  {
    seq(|keys|, i requires 0 <= i < |keys| => Enter(keys[i], caps, lim, since, since))
  }

  function Entered(keys: seq<Key>, caps: Caps, since: int): (runs: seq<Run>)
    ensures |runs| == |keys|
  {
    seq(|keys|, i requires 0 <= i < |keys| => Starting(keys[i], caps, since))
  }

  // The guard lets one after another through: no row is written yet.
  lemma {:induction false} AllEnter(policy: Policy, rows: seq<Row>, log: seq<LogRow>, keys: seq<Key>, kind: string,
                                    caps: Caps, lim: Limits, since: int)
    requires forall k :: 0 <= k < |keys| ==> keys[k].scope.kind == kind
    requires Tripped(log, kind, since, lim).None?
    ensures var s := World(rows, log, [], map[]);
      && Runnable(policy, s, Entries(keys, caps, lim, since))
      && After(policy, s, Entries(keys, caps, lim, since)) == s.(runs := Entered(keys, caps, since))
  {
    hide Tripped;
    var s := World(rows, log, [], map[]);
    if keys == [] {
      assert Entries(keys, caps, lim, since) == [] && Entered(keys, caps, since) == [];
    } else {
      hide Runnable, After;
      var n := |keys| - 1;
      AllEnter(policy, rows, log, keys[..n], kind, caps, lim, since);
      var before := s.(runs := Entered(keys[..n], caps, since));
      var last := Enter(keys[n], caps, lim, since, since);
      OneStep(policy, before, last);
      RunsAppend(policy, s, Entries(keys[..n], caps, lim, since), [last]);
      assert Entries(keys, caps, lim, since) == Entries(keys[..n], caps, lim, since) + [last];
      assert Entered(keys, caps, since) == Entered(keys[..n], caps, since) + [Starting(keys[n], caps, since)];
    }
  }

  /** The bound on runs in flight is needed: with one run left in the day, any number of runs of the
      kind that come before the first of them has written its row all start, and the count passes the
      limit by all but one of them, without any falling back. */
  lemma AdmittedTogetherAllStart(policy: Policy, log: seq<LogRow>, keys: seq<Key>, kind: string, caps: Caps,
                                 lim: Limits, since: int)
    returns (steps: seq<Step>)
    requires TrimSpace(kind) != "" && forall k :: 0 <= k < |keys| ==> keys[k].scope.kind == kind
    requires Runs(log, kind, since) == lim.dailyRuns - 1 && lim.dailyCost <= 0.0 && lim.dailyTokens <= 0
    ensures var s := World([], log, [], map[]);
      && Runnable(policy, s, steps) && NoFallBack(steps)
      && (forall k :: 0 <= k < |steps| ==> Limited(steps[k], kind, since, lim.dailyRuns))
      && Runs(After(policy, s, steps).log, kind, since) == lim.dailyRuns - 1 + |keys|
  {
    hide Runs, Runnable, After, TrimSpace, Spent;
    var s := World([], log, [], map[]);
    AllEnter(policy, [], log, keys, kind, caps, lim, since);
    var attempts := AllAttempt(policy, log, Entered(keys, caps, since), 0, kind, caps, since);
    RunsAppend(policy, s, Entries(keys, caps, lim, since), attempts);
    steps := Entries(keys, caps, lim, since) + attempts;
  }
}
