/** When a reset holds: a session that was reset is continued again exactly when something of it was
    in flight, whatever interleaves afterwards. */
module BgResets {
  import opened BgBook
  import opened BgPolicy
  import opened BgProtocol
  import opened BgRunner
  import opened GoText

  predicate Names(r: Row, kind: string, sid: string) { r.key.scope.kind == kind && r.sid == sid }

  // The store takes rows of this id.
  predicate Savable(kind: string, sid: string) { TrimSpace(kind) != "" && TrimSpace(sid) != "" }

  predicate Continues(p: Plan, kind: string, sid: string) {
    p.decision.mode != Fresh && p.rec.Some? && p.key.scope.kind == kind && p.rec.value.sid == sid
  }

  // A run that continues the session is executing, or an observation holds it.
  ghost predicate InFlight(s: World, kind: string, sid: string) {
    || (exists id :: 0 <= id < |s.runs| && s.runs[id].Planned? && Continues(s.runs[id].plan, kind, sid))
    || (exists id :: id in s.held && Names(s.held[id], kind, sid))
  }

  // Nothing on the book or in flight can bring the session back.
  ghost predicate Gone(s: World, kind: string, sid: string) {
    && (forall r :: r in s.rows && Names(r, kind, sid) ==> r.state != Active)
    && (Savable(kind, sid) ==> !InFlight(s, kind, sid))
  }

  // No agent reports the id again, and no id made up for it is the same.
  ghost predicate Unreported(step: Step, s: World, sid: string) {
    match step
    case Finish(id, o, now) =>
      o.sid != sid && (id < |s.runs| && s.runs[id].Planned? ==> LocalId(s.runs[id].plan.key.scope, now, o.jobID) != sid)
    case Fold(_, reported, _) => reported != sid
    case _ => true
  }

  lemma NamedIsSavable(b: Row, kind: string, sid: string)
    requires Names(b, kind, sid)
    ensures Storable(b) <==> Savable(kind, sid)
  {
  }

  lemma WriteKeepsGone(rows: seq<Row>, b: Row, kind: string, sid: string)
    requires Tidy(rows) && (Names(b, kind, sid) ==> !Savable(kind, sid))
    requires forall r :: r in rows && Names(r, kind, sid) ==> r.state != Active
    ensures forall r :: r in Replace(rows, b) && Names(r, kind, sid) ==> r.state != Active
  {
    hide Replace, Tidy, Storable;
    ReplaceKeeps(rows, b);
    if !Storable(b) {
      RefusedKeeps(rows, b);
    } else if Names(b, kind, sid) {
      NamedIsSavable(b, kind, sid);
      assert false;
    }
  }

  lemma AnsweredNames(p: Plan, o: Outcome, now: int, kind: string, sid: string)
    requires Names(Answered(p, o, now), kind, sid)
    requires ModeOf(p, o) == p.decision.mode || ModeOf(p, o) == Fresh
    ensures o.sid == sid || LocalId(p.key.scope, now, o.jobID) == sid || Continues(p, kind, sid)
  {
    hide LocalId, Snapshot;
  }

  lemma SoughtIsOfActive(policy: Policy, rows: seq<Row>, r: Run)
    requires r.Seeking?
    ensures var next := Sought(policy, rows, r);
      next.Planned? && next.plan.rec.Some? ==>
        next.plan.rec.value in rows && next.plan.rec.value.state == Active &&
          next.plan.rec.value.key.scope == next.plan.key.scope
  {
    hide Decide, OtherBound;
  }

  lemma DropEndsOnly(rows: seq<Row>, p: Plan)
    requires Tidy(rows)
    ensures forall r :: r in DroppedRows(rows, p) && r.state == Active ==> r in rows
  {
    if p.rec.Some? {
      EndingKeeps(rows, p.key.scope.kind, p.rec.value.sid, p.key.scope);
    }
  }

  lemma BookKeepsGone(policy: Policy, s: World, step: Step, kind: string, sid: string)
    requires Inv(policy, s) && Enabled(s, step) && Gone(s, kind, sid) && Unreported(step, s, sid)
    ensures forall r :: r in Next(policy, s, step).rows && Names(r, kind, sid) ==> r.state != Active
  {
    hide Tidy, Sought, Replace, RunOk, LocalId, Answered, Savable, DroppedRows, ResetScope, Snapshot;
    match step
    case Finish(id, o, now) =>
      var p := s.runs[id].plan;
      if Names(Answered(p, o, now), kind, sid) {
        AnsweredNames(p, o, now, kind, sid);
      }
      WriteKeepsGone(s.rows, Answered(p, o, now), kind, sid);
    case DropSession(id) => DropEndsOnly(s.rows, s.runs[id].plan);
    case Fold(id, reported, usage) => WriteKeepsGone(s.rows, Refreshed(s.held[id], reported, usage), kind, sid);
    case ResetAll(scope) => EndingKeeps(s.rows, "", "", scope);
    case _ =>
  }

  lemma FlightKeepsGone(policy: Policy, s: World, step: Step, kind: string, sid: string)
    requires Inv(policy, s) && Enabled(s, step) && Gone(s, kind, sid)
    ensures !InFlight(s, kind, sid) ==> !InFlight(Next(policy, s, step), kind, sid)
  {
    hide Sound, PlanOk, Committed, DroppedRows, Folding, ResetScope, Sought, Answered, AnsweredRow, FailedRow, Logged,
      Tripped, Reported, Storable, Savable;
    if step.Seek? {
      SoughtIsOfActive(policy, s.rows, s.runs[step.id]);
    }
    if step.Look? {
      ObservedIsFound(s.rows, step.key, step.jobID);
    }
  }

  lemma ObservedIsFound(rows: seq<Row>, key: Key, jobID: string)
    ensures var r := Observed(rows, key, jobID); r.Some? ==> r.value in rows && r.value.state == Active
  {
  }

  lemma StepKeepsGone(policy: Policy, s: World, step: Step, kind: string, sid: string)
    requires Inv(policy, s) && Enabled(s, step) && Gone(s, kind, sid) && Unreported(step, s, sid)
    ensures Gone(Next(policy, s, step), kind, sid)
  {
    BookKeepsGone(policy, s, step, kind, sid);
    FlightKeepsGone(policy, s, step, kind, sid);
    hide Inv, Next, Enabled, InFlight, Savable;
  }

  ghost predicate NeverReported(policy: Policy, s: World, steps: seq<Step>, sid: string)
    requires Runnable(policy, s, steps)
    decreases |steps|
  {
    steps == [] || (Unreported(steps[0], s, sid) && NeverReported(policy, Next(policy, s, steps[0]), steps[1..], sid))
  }

  /** A session that has ended, with nothing of it in flight, stays ended whatever interleaves. */
  lemma {:induction false} GoneStaysGone(policy: Policy, s: World, steps: seq<Step>, kind: string, sid: string)
    requires policy.maxRuns >= 1 && Inv(policy, s) && Gone(s, kind, sid)
    requires Runnable(policy, s, steps) && NeverReported(policy, s, steps, sid)
    ensures Gone(After(policy, s, steps), kind, sid)
    decreases |steps|
  {
    hide Inv, Next, Enabled, Gone, Unreported;
    if steps != [] {
      StepKeeps(policy, s, steps[0]);
      StepKeepsGone(policy, s, steps[0], kind, sid);
      GoneStaysGone(policy, Next(policy, s, steps[0]), steps[1..], kind, sid);
    }
  }

  // After these steps, in which no agent reports the id, a run of the key would continue the session.
  ghost predicate ContinuedAfter(policy: Policy, s: World, steps: seq<Step>, key: Key, caps: Caps, now: int,
                                 kind: string, sid: string)
  {
    && Runnable(policy, s, steps) && NeverReported(policy, s, steps, sid)
    && Continues(PlanFor(After(policy, s, steps).rows, key, policy, caps, now), kind, sid)
  }

  lemma PlanIsOfActive(rows: seq<Row>, key: Key, policy: Policy, caps: Caps, now: int)
    ensures var p := PlanFor(rows, key, policy, caps, now);
      p.key == key && (p.rec.Some? ==>
        p.rec.value in rows && p.rec.value.state == Active && p.rec.value.key.scope == key.scope)
  {
  }

  lemma ResetIsGone(s: World, row: Row)
    requires Tidy(s.rows) && row in s.rows && row.state == Active
    ensures forall r :: r in ResetScope(s.rows, row.key.scope) && Names(r, row.key.scope.kind, row.sid) ==>
      r.state != Active
  {
    hide Rivals;
    var out := ResetScope(s.rows, row.key.scope);
    forall r | r in out && Names(r, row.key.scope.kind, row.sid)
      ensures r.state != Active
    {
      var i :| 0 <= i < |out| && out[i] == r;
      var j :| 0 <= j < |s.rows| && s.rows[j] == row;
      assert SameId(s.rows[i], s.rows[j]) && SameId(s.rows[j], s.rows[i]);
    }
  }

  /** A session that is reset while nothing of it is in flight, or whose id the store does not take,
      is never continued again. */
  lemma ResetHolds(policy: Policy, s: World, row: Row, steps: seq<Step>, key: Key, caps: Caps, now: int)
    requires policy.maxRuns >= 1 && Inv(policy, s) && row in s.rows && row.state == Active
    requires Savable(row.key.scope.kind, row.sid) ==> !InFlight(s, row.key.scope.kind, row.sid)
    ensures var reset := Next(policy, s, ResetAll(row.key.scope));
      !ContinuedAfter(policy, reset, steps, key, caps, now, row.key.scope.kind, row.sid)
  {
    hide PlanFor, Tidy, Savable, ResetScope;
    var kind, sid, reset := row.key.scope.kind, row.sid, Next(policy, s, ResetAll(row.key.scope));
    StepKeeps(policy, s, ResetAll(row.key.scope));
    ResetIsGone(s, row);
    assert Gone(reset, kind, sid);
    if ContinuedAfter(policy, reset, steps, key, caps, now, kind, sid) {
      GoneStaysGone(policy, reset, steps, kind, sid);
      PlanIsOfActive(After(policy, reset, steps).rows, key, policy, caps, now);
    }
  }

  // A made-up id longer than the session's.
  lemma LongerId(scope: Scope, now: int, sid: string) returns (jobID: string)
    ensures LocalId(scope, now, jobID) != sid
  {
    jobID := sid;
    assert |LocalId(scope, now, jobID)| > |sid|;
  }

  lemma WrittenIsContinued(policy: Policy, rows: seq<Row>, b: Row, now: int)
    requires Tidy(rows) && Storable(b) && Live(b)
    ensures Continues(PlanFor(Replace(rows, b), b.key, policy, Caps(true, true), now), b.key.scope.kind, b.sid)
  {
    hide Tidy, Replace, Storable, LatestFor, OtherBound;
    ReadsBack(rows, b);
  }

  // The run that is executing commits: its session is back.
  lemma CommitBringsBack(policy: Policy, s: World, id: nat, kind: string, sid: string, now: int)
    returns (step: Step, key: Key)
    requires Inv(policy, s) && Savable(kind, sid)
    requires id < |s.runs| && s.runs[id].Planned? && Continues(s.runs[id].plan, kind, sid)
    ensures Enabled(s, step) && Unreported(step, s, sid)
    ensures Continues(PlanFor(Next(policy, s, step).rows, key, policy, Caps(true, true), now), kind, sid)
  {
    hide Tidy, Replace, LocalId, RunOk, PlanFor, Snapshot, Savable, Storable;
    var p := s.runs[id].plan;
    var jobID := LongerId(p.key.scope, now, sid);
    var o := Outcome(jobID, "", None, None, 0, 0);
    step, key := Finish(id, o, now), p.key;
    SavableIsText(kind, sid);
    var b := Answered(p, o, now);
    assert Names(b, kind, sid) && Live(b) && b.key == key;
    NamedIsSavable(b, kind, sid);
    WrittenIsContinued(policy, s.rows, b, now);
  }

  lemma SavableIsText(kind: string, sid: string)
    requires Savable(kind, sid)
    ensures sid != ""
  {
  }

  // One token is a level worth writing.
  const A_TOKEN := Usage(0, 0.0, Some(Level(1, 0, 0.0)))

  // The observation writes what it holds: its session is back.
  lemma FoldBringsBack(policy: Policy, s: World, id: nat, kind: string, sid: string, now: int)
    returns (step: Step, key: Key)
    requires Inv(policy, s) && Savable(kind, sid) && id in s.held && Names(s.held[id], kind, sid)
    ensures Enabled(s, step) && Unreported(step, s, sid)
    ensures Continues(PlanFor(Next(policy, s, step).rows, key, policy, Caps(true, true), now), kind, sid)
  {
    hide Tidy, Replace, RunOk, PlanFor, Savable, Storable, Sound;
    step, key := Fold(id, "", Some(A_TOKEN)), s.held[id].key;
    SavableIsText(kind, sid);
    var b := Refreshed(s.held[id], "", Some(A_TOKEN));
    assert Names(b, kind, sid);
    assert HeldOk(s.held[id], policy.maxRuns) && Live(b);
    NamedIsSavable(b, kind, sid);
    assert Tidy(s.rows) by {
      SoundIsTidy(s.rows, policy.maxRuns);
    }
    WrittenIsContinued(policy, s.rows, b, now);
  }

  lemma SoundIsTidy(rows: seq<Row>, max: int)
    requires Sound(rows, max)
    ensures Tidy(rows)
  {
  }

  lemma ContinuedByOneStep(policy: Policy, s: World, step: Step, key: Key, caps: Caps, now: int, kind: string,
                           sid: string)
    requires Enabled(s, step) && Unreported(step, s, sid)
    requires Continues(PlanFor(Next(policy, s, step).rows, key, policy, caps, now), kind, sid)
    ensures ContinuedAfter(policy, s, [step], key, caps, now, kind, sid)
  {
    hide Next, Enabled, Unreported, PlanFor, Continues;
    OneStep(policy, s, step);
    assert [step][1..] == [];
    assert NeverReported(policy, Next(policy, s, step), [], sid);
    assert NeverReported(policy, s, [step], sid);
  }

  // Whatever of the session is in flight survives the reset, and one step of it undoes the reset.
  lemma InFlightUndoes(policy: Policy, s: World, scope: Scope, kind: string, sid: string, now: int)
    returns (step: Step, key: Key)
    requires policy.maxRuns >= 1 && Inv(policy, s) && InFlight(s, kind, sid) && Savable(kind, sid)
    ensures ContinuedAfter(policy, Next(policy, s, ResetAll(scope)), [step], key, Caps(true, true), now, kind, sid)
  {
    hide Inv, Savable, ResetScope, PlanFor, Names, Continues, ContinuedAfter;
    var reset := Next(policy, s, ResetAll(scope));
    StepKeeps(policy, s, ResetAll(scope));
    if id :| 0 <= id < |s.runs| && s.runs[id].Planned? && Continues(s.runs[id].plan, kind, sid) {
      step, key := CommitBringsBack(policy, reset, id, kind, sid, now);
    } else {
      var id :| id in s.held && Names(s.held[id], kind, sid);
      step, key := FoldBringsBack(policy, reset, id, kind, sid, now);
    }
    ContinuedByOneStep(policy, reset, step, key, Caps(true, true), now, kind, sid);
  }

  /** A session that is reset can be continued again, without any agent reporting its id once more,
      exactly when a run that continues it or an observation that holds it is in flight at the
      reset, and the store takes its id. */
  lemma ResetHoldsExactly(policy: Policy, s: World, row: Row)
    requires policy.maxRuns >= 1 && Inv(policy, s) && row in s.rows && row.state == Active
    ensures var kind, sid := row.key.scope.kind, row.sid;
      (exists steps, key, caps, now ::
        ContinuedAfter(policy, Next(policy, s, ResetAll(row.key.scope)), steps, key, caps, now, kind, sid))
        <==> InFlight(s, kind, sid) && Savable(kind, sid)
  {
    hide Inv, Next, InFlight, Savable, ContinuedAfter;
    var kind, sid, reset := row.key.scope.kind, row.sid, Next(policy, s, ResetAll(row.key.scope));
    if InFlight(s, kind, sid) && Savable(kind, sid) {
      var step, key := InFlightUndoes(policy, s, row.key.scope, kind, sid, 0);
      assert ContinuedAfter(policy, reset, [step], key, Caps(true, true), 0, kind, sid);
    } else if steps, key, caps, now :| ContinuedAfter(policy, reset, steps, key, caps, now, kind, sid) {
      ResetHolds(policy, s, row, steps, key, caps, now);
    }
  }

  /** A run that is executing when its session is reset undoes the reset, however early it was
      planned: once it commits, the session is active again, with one more turn or, cleared, with its
      first, and a later run of the key that is below the limits resumes it. */
  lemma ResetInFlightIsUndone(policy: Policy, s: World, id: nat, o: Outcome, end: int, caps: Caps)
    requires policy.maxRuns >= 1 && Inv(policy, s) && caps.canResume
    requires id < |s.runs| && s.runs[id].Planned?
    requires var p := s.runs[id].plan;
      && p.decision.mode != Fresh && ModeOf(p, o) == p.decision.mode && o.sid == ""
      && Savable(p.key.scope.kind, p.rec.value.sid)
    ensures var p := s.runs[id].plan;
      var steps := [ResetAll(p.key.scope), Finish(id, o, end)];
      && Runnable(policy, s, steps)
      && var rows := After(policy, s, steps).rows;
        var again := Found(rows, p.key);
        && again.Some? && again.value.sid == p.rec.value.sid
        && again.value.runs == (if p.decision.mode == Resume then p.rec.value.runs + 1 else 1)
        && forall at: int :: Below(policy, at, again.value) ==>
             PlanFor(rows, p.key, policy, caps, at).decision.mode == Resume
  {
    hide Tidy, Replace, LocalId, PlanFor, Snapshot, Savable, Storable, ResetScope, Below;
    var p := s.runs[id].plan;
    assert RunOk(policy, s.runs[id]);
    var reset, finish := ResetAll(p.key.scope), Finish(id, o, end);
    StepKeeps(policy, s, reset);
    var s1 := Next(policy, s, reset);
    OneStep(policy, s, reset);
    OneStep(policy, s1, finish);
    assert [reset] + [finish] == [reset, finish];
    RunsAppend(policy, s, [reset], [finish]);
    SavableIsText(p.key.scope.kind, p.rec.value.sid);
    var b := Answered(p, o, end);
    assert Names(b, p.key.scope.kind, p.rec.value.sid) && Live(b) && b.key == p.key;
    NamedIsSavable(b, p.key.scope.kind, p.rec.value.sid);
    ReadsBack(s1.rows, b);
    forall at: int | Below(policy, at, Stored(b))
      ensures PlanFor(Replace(s1.rows, b), p.key, policy, caps, at).decision.mode == Resume
    {
      BelowIsResumed(policy, Replace(s1.rows, b), Stored(b), caps, at);
    }
  }

  lemma BelowIsResumed(policy: Policy, rows: seq<Row>, b: Row, caps: Caps, at: int)
    requires Found(rows, b.key) == Some(b) && caps.canResume && Below(policy, at, b)
    ensures PlanFor(rows, b.key, policy, caps, at).decision.mode == Resume
  {
    hide Below, Decide, OtherBound, Found, LatestFor;
    var latest := LatestFor(rows, b.key);
    var reset := latest.Some? && latest.value.state == State.Reset;
    DecidesByTheLimits(policy, caps, at, Some(b), reset, !reset && OtherBound(rows, b.key));
  }
}
