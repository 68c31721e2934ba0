/** What a run of a background agent leaves for whoever comes later: the row of each call, the audit
    trail, the error it returns, and the session the next lookup finds. */
module BgRecords {
  import opened BgBook
  import opened BgHistory
  import opened BgLaws
  import opened BgPolicy
  import opened BgRunner
  import opened GoText

  // A limit that is on and reached by what the day's runs add up to.
  ghost predicate Reached(reason: StopReason, log: seq<LogRow>, kind: string, since: int, lim: Limits) {
    match reason
    case DailyLimit => 0 < lim.dailyRuns <= Runs(log, kind, since)
    case DailyCost => 0.0 < lim.dailyCost <= Spent(log, kind, since).1
    case DailyTokens => 0 < lim.dailyTokens <= Spent(log, kind, since).0
    case Timeout => false
  }

  /** A run is let through exactly when no limit is reached; a stop names the first that is, in the order
      runs, cost, tokens, with the limit and what reached it. */
  lemma StopNamesTheFirstReached(log: seq<LogRow>, kind: string, since: int, lim: Limits)
    ensures var stop := Tripped(log, kind, since, lim);
      && (stop.None? <==> forall reason :: !Reached(reason, log, kind, since, lim))
      && (stop.Some? ==>
            var h := stop.value;
            && h.kind == kind && Reached(h.reason, log, kind, since, lim) && 0.0 < h.limit <= h.used
            && (h.reason != DailyLimit ==> !Reached(DailyLimit, log, kind, since, lim))
            && (h.reason == DailyTokens ==> !Reached(DailyCost, log, kind, since, lim))
            && (h.reason == DailyLimit ==> h.limit == lim.dailyRuns as real && h.used == Runs(log, kind, since) as real)
            && (h.reason == DailyCost ==> h.limit == lim.dailyCost && h.used == Spent(log, kind, since).1)
            && (h.reason == DailyTokens ==>
                  h.limit == lim.dailyTokens as real && h.used == Spent(log, kind, since).0 as real))
  {
    hide Runs, Spent;
    var stop := Tripped(log, kind, since, lim);
    assert stop.Some? ==> Reached(stop.value.reason, log, kind, since, lim);
    forall reason | stop.None?
      ensures !Reached(reason, log, kind, since, lim)
    {
      match reason
      case DailyLimit =>
      case DailyCost =>
      case DailyTokens =>
      case Timeout =>
    }
  }

  function UsageOf(r: LogRow): (int, real) {
    if r.usage.Some? then (r.usage.value.tokens, r.usage.value.cost) else (0, 0.0)
  }

  /** The sums behind the budgets add up over the log: a counted row adds what it reported, any other
      nothing. */
  lemma {:induction false} SpentAdds(log: seq<LogRow>, more: seq<LogRow>, kind: string, since: int)
    ensures var a, b, all := Spent(log, kind, since), Spent(more, kind, since), Spent(log + more, kind, since);
      all.0 == a.0 + b.0 && all.1 == a.1 + b.1
    ensures forall r :: Spent([r], kind, since) == if Counted(r, kind, since) then UsageOf(r) else (0, 0.0)
  {
    forall r
      ensures Spent([r], kind, since) == if Counted(r, kind, since) then UsageOf(r) else (0, 0.0)
    {
      assert [r][..0] == [];
    }
    if more == [] {
      assert log + more == log;
    } else {
      var n := |more| - 1;
      assert (log + more)[..|log| + n] == log + more[..n];
      SpentAdds(log, more[..n], kind, since);
    }
  }

  // The counted rows of a job that have no usage yet.
  function Unreported(log: seq<LogRow>, kind: string, jobID: string, since: int): nat {
    if log == [] then 0
    else
      var r := log[|log| - 1];
      Unreported(log[..|log| - 1], kind, jobID, since) +
      if Counted(r, kind, since) && r.jobID == jobID && r.usage.None? then 1 else 0
  }

  function Times(n: nat, u: Usage): (int, real) { (n * u.tokens, n as real * u.cost) }

  lemma TimesMore(n: nat, u: Usage)
    ensures Times(n + 1, u).0 == Times(n, u).0 + u.tokens && Times(n + 1, u).1 == Times(n, u).1 + u.cost
  {
  }

  /** A late report is spent once for each row of its job that had none. */
  lemma {:induction false} LateUsageIsSpent(log: seq<LogRow>, kind: string, jobID: string, late: Usage, since: int)
    requires kind != ""
    ensures var n, was := Unreported(log, kind, jobID, since), Spent(log, kind, since);
      var now := Spent(Reported(log, kind, jobID, late), kind, since);
      now.0 == was.0 + Times(n, late).0 && now.1 == was.1 + Times(n, late).1
  {
    if log != [] {
      var front, r := log[..|log| - 1], log[|log| - 1];
      LateUsageIsSpent(front, kind, jobID, late, since);
      ReportedSnoc(front, r, kind, jobID, late);
      assert log == front + [r];
      SpentSnoc(front, r, kind, since);
      SpentSnoc(Reported(front, kind, jobID, late), ReportedRow(r, kind, jobID, late), kind, since);
      TimesMore(Unreported(front, kind, jobID, since), late);
      hide Spent, Reported, Times;
    } else {
      assert Times(0, late) == (0, 0.0);
    }
  }

  function ReportedRow(r: LogRow, kind: string, jobID: string, late: Usage): LogRow {
    if r.kind == kind && r.jobID == jobID && r.usage.None? then r.(usage := Some(late)) else r
  }

  lemma ReportedSnoc(log: seq<LogRow>, r: LogRow, kind: string, jobID: string, late: Usage)
    requires kind != ""
    ensures Reported(log + [r], kind, jobID, late) ==
      Reported(log, kind, jobID, late) + [ReportedRow(r, kind, jobID, late)]
  {
  }

  lemma SpentSnoc(log: seq<LogRow>, r: LogRow, kind: string, since: int)
    ensures var was, now := Spent(log, kind, since), Spent(log + [r], kind, since);
      var own := if Counted(r, kind, since) then UsageOf(r) else (0, 0.0);
      now.0 == was.0 + own.0 && now.1 == was.1 + own.1
  {
    assert (log + [r])[..|log|] == log;
  }

  /** Reporting again changes nothing, and no other kind's sums ever change. */
  lemma {:induction false} LateUsageCountsOnce(log: seq<LogRow>, kind: string, jobID: string, late: Usage,
                                               again: Usage, other: string, since: int)
    ensures Reported(Reported(log, kind, jobID, late), kind, jobID, again) == Reported(log, kind, jobID, late)
    ensures other != kind ==> Spent(Reported(log, kind, jobID, late), other, since) == Spent(log, other, since)
    ensures kind == "" ==> Reported(log, kind, jobID, late) == log
  {
    if log != [] {
      var n := |log| - 1;
      LateUsageCountsOnce(log[..n], kind, jobID, late, again, other, since);
      assert Reported(log, kind, jobID, late)[..n] == Reported(log[..n], kind, jobID, late);
    }
  }

  // What a row says of one call and the agent's reply to it.
  ghost predicate RowTells(row: LogRow, call: Call, reply: Reply, t: Turn) {
    && row.kind == t.req.key.scope.kind && row.project == t.req.key.scope.project && row.mode == Some(call.mode)
    && (reply.err.None? ==>
          && row.status == Ok && row.error == NoNote && row.endedAt == t.at.end
          && row.jobID == reply.answer.jobID && row.usage == reply.answer.usage
          && row.inputBytes == |t.req.prompt| && row.outputBytes == |reply.answer.output|
          && (reply.answer.sid != "" ==> row.sid == reply.answer.sid)
          && (reply.answer.sid == "" && call.sid != "" ==> row.sid == call.sid))
    && (reply.err.Some? ==>
          && row.status == CauseOf(reply.err.value) && row.error == CauseNote(Short(reply.err.value.text))
          && row.jobID == "" && row.usage.None? && row.inputBytes == 0 && row.outputBytes == 0
          && (call.mode != Fresh ==> row.sid == call.sid))
  }

  // A cancellation counts as one even if the deadline passed too.
  function CauseOf(err: Error): Status {
    if err.canceled then Canceled else if err.deadline then TimedOut else Failed
  }

  // A plan as the runner makes them: it continues the session it found, and adopts nothing else.
  ghost predicate Made(p: Plan, req: Request) {
    && Grounded(p) && p.key == req.key
    && (p.decision.mode != Fresh ==> p.rec.Some? && p.decision.session == Some(SessionFrom(p.rec.value)))
  }

  lemma EndRowTells(t: Turn, p: Plan, reply: Reply)
    requires Made(p, t.req)
    ensures RowTells(EndRow(t.req, p, reply, t.at), CallFor(t.req, p), reply, t)
    ensures EndRow(t.req, p, reply, t.at).endedAt == t.at.end
  {
    hide Snapshot, LocalId;
  }

  lemma FailedRowTells(t: Turn, p: Plan, reply: Reply)
    requires Made(p, t.req) && reply.err.Some?
    ensures RowTells(FailedRow(p, reply.err.value, t.at.fail), CallFor(t.req, p), reply, t)
    ensures FailedRow(p, reply.err.value, t.at.fail).endedAt == t.at.fail
  {
  }

  lemma PlanIsMade(b: Book, t: Turn)
    ensures Made(PlanFor(b.rows, t.req.key, t.req.policy, t.caps, t.at.plan), t.req)
    ensures forall reason: Reason, p: Plan ::
      p.key == t.req.key ==> Made(FallbackPlan(p, reason, t.at.again), t.req)
  {
    hide Decide, Found, OtherBound, LatestFor, IsFound;
    PlansAreGrounded(b.rows, t.req.key, t.req.policy, t.caps, t.at.plan);
    PlanContinues(b.rows, t.req.key, t.req.policy, t.caps, t.at.plan);
    PlanKey(b, t);
  }

  /** Each row tells its call: the mode, what the agent answered or why it did not, how much went in and
      came out, and the session. */
  lemma RowsTellTheRun(b: Book, t: Turn)
    requires Taken(b, t).calls != []
    ensures var r, added := Taken(b, t), Added(b, t);
      && |added| <= |r.calls|
      && (forall i :: 0 <= i < |added| ==> RowTells(added[i], r.calls[i], t.exec(i, r.calls[i]), t))
      && (forall i :: 0 <= i < |added| ==> added[i].endedAt == if i == |r.calls| - 1 then t.at.end else t.at.fail)
  {
    hide Tripped, PlanFor, EndRow, FailedRow, RowTells, Made, Finishing, Takes, BgRunner.Failing, Added;
    RunAsks(b, t);
    PlanIsMade(b, t);
    PlanKey(b, t);
    var plan := PlanFor(b.rows, t.req.key, t.req.policy, t.caps, t.at.plan);
    var first := t.exec(0, CallFor(t.req, plan));
    if |Taken(b, t).calls| == 1 {
      OnceAdds(b, t);
      EndRowTells(t, plan, first);
    } else {
      TwiceAdds(b, t);
      var again := FallbackPlan(plan, FallbackReason(first.err.value), t.at.again);
      FailedRowTells(t, plan, first);
      EndRowTells(t, again, t.exec(1, CallFor(t.req, again)));
    }
  }

  lemma OnceAdds(b: Book, t: Turn)
    requires |Taken(b, t).calls| == 1
    ensures var plan := PlanFor(b.rows, t.req.key, t.req.policy, t.caps, t.at.plan);
      Added(b, t) <= [EndRow(t.req, plan, t.exec(0, CallFor(t.req, plan)), t.at)]
  {
    hide Tripped, PlanFor, EndRow, Finishing, Takes, Grounded, BgRunner.Failing;
    var plan := PlanFor(b.rows, t.req.key, t.req.policy, t.caps, t.at.plan);
    PlansAreGrounded(b.rows, t.req.key, t.req.policy, t.caps, t.at.plan);
    PlanKey(b, t);
    FinishWrites(b, t.req, plan, t.exec(0, CallFor(t.req, plan)), t.at, t.ctxDone);
  }

  lemma TwiceAdds(b: Book, t: Turn)
    requires |Taken(b, t).calls| == 2
    ensures var plan := PlanFor(b.rows, t.req.key, t.req.policy, t.caps, t.at.plan);
      var first := t.exec(0, CallFor(t.req, plan));
      && first.err.Some?
      && var again := FallbackPlan(plan, FallbackReason(first.err.value), t.at.again);
        Added(b, t) <= [FailedRow(plan, first.err.value, t.at.fail),
                        EndRow(t.req, again, t.exec(1, CallFor(t.req, again)), t.at)]
  {
    hide Tripped, PlanFor, EndRow, FailedRow, Finishing, Takes, Grounded, BgRunner.Failing, Taken, LastReply, TrimSpace;
    TwiceIs(b, t);
    var plan := PlanFor(b.rows, t.req.key, t.req.policy, t.caps, t.at.plan);
    var cause := t.exec(0, CallFor(t.req, plan)).err.value;
    var again := FallbackPlan(plan, FallbackReason(cause), t.at.again);
    TwoRows(b, t.req, plan, cause, again, t.exec(1, CallFor(t.req, again)), t.at, t.ctxDone);
  }

  /** What a run returns: the limit that refused it, the timeout when its deadline passed while its own
      bound was over, or else the agent's own error. */
  lemma RunReturns(b: Book, t: Turn)
    ensures var r := Taken(b, t);
      && (r.calls == [] ==>
            r.err.Some? && r.err.value.HardStopped? &&
              Some(r.err.value.stop) == Tripped(b.log, KindOf(t), t.since, t.req.limits))
      && (r.calls != [] ==>
            var err := LastReply(t, r).err;
            && (r.err.None? <==> err.None?)
            && (err.Some? && err.value.deadline && t.req.limits.timeout > 0 && t.ctxDone ==>
                  r.err == Some(HardStopped(HardStop(KindOf(t), Timeout, t.req.limits.timeout as real,
                                                     t.req.limits.timeout as real))))
            && (err.Some? && !(err.value.deadline && t.req.limits.timeout > 0 && t.ctxDone) ==>
                  r.err == Some(RunFailed(err.value))))
  {
    hide Tripped, PlanFor, Finishing, BgRunner.Failing;
  }

  // The audit entry of a rotation by rule: the session that was given up, why, and the one that came.
  ghost predicate RotationTold(b: Book, t: Turn, r: Ran, e: Event) {
    && e.Rotated? && e.key == t.req.key && e.policy == t.req.policy && r.calls != [] && r.plan.Some?
    && e.mode == r.calls[|r.calls| - 1].mode && e.reason == r.plan.value.decision.reason
    && e.to == AnswerOf(t, r).sid
    && (exists row ::
         && IsFound(b.rows, row, t.req.key)
         && e.from == row.sid && e.runs == row.runs && e.fill == SessionFrom(row).ContextRatio())
  }

  lemma EndAudits(b: Book, t: Turn, p: Plan, reply: Reply)
    requires Grounded(p)
    ensures var o := OutcomeOf(t.req, p, reply.answer);
      Finishing(b, t.req, p, reply, t.at, t.ctxDone).events ==
        if reply.err.Some? then
          var late := RanOut(t.req, reply.err.value, t.ctxDone);
          b.events + (if late then [Stopped(t.req.key, TimeoutStop(t.req))] else [])
        else if Storable(Answered(p, o, t.at.end)) && p.decision.rotated && p.decision.mode != Resume then
          b.events + [Rotated(p.key, p.decision.reason, p.decision.mode, p.rec.value.sid, Answered(p, o, t.at.end).sid,
                              p.rec.value.runs, p.policy, SessionFrom(p.rec.value).ContextRatio())]
        else b.events
  {
    hide Answered, Storable, Replace, AnsweredRow, FailedRow;
    assert b.events + [] == b.events;
  }

  lemma RotatedMode(rows: seq<Row>, key: Key, policy: Policy, caps: Caps, now: int)
    ensures var p := PlanFor(rows, key, policy, caps, now);
      && p.policy == policy && p.rec == Found(rows, key)
      && (p.decision.rotated ==> p.decision.mode != Resume && p.rec.Some?)
  {
    hide Found, OtherBound, LatestFor;
  }

  /** The audit trail of a run: a stop, when a limit or the timeout ended it; one rotation, when its plan
      gave a session up by rule and the answer was taken; and nothing else. */
  lemma RunAudits(b: Book, t: Turn)
    ensures var r := Taken(b, t);
      && (r.err.Some? && r.err.value.HardStopped? ==>
            r.book.events == b.events + [Stopped(t.req.key, r.err.value.stop)])
      && (r.err.Some? && r.err.value.RunFailed? ==> r.book.events == b.events)
      && (r.err.None? ==>
            && r.plan.Some?
            && if Answers(b, t) && r.plan.value.decision.rotated
               then exists e :: RotationTold(b, t, r, e) && r.book.events == b.events + [e]
               else r.book.events == b.events)
  {
    RunAsks(b, t);
    hide Tripped, PlanFor, Finishing, Answered, Storable, Grounded, Found, IsFound, RanOut, TimeoutStop;
    var plan := PlanFor(b.rows, t.req.key, t.req.policy, t.caps, t.at.plan);
    PlansAreGrounded(b.rows, t.req.key, t.req.policy, t.caps, t.at.plan);
    PlanKey(b, t);
    FoundIs(b.rows, t.req.key);
    RotatedMode(b.rows, t.req.key, t.req.policy, t.caps, t.at.plan);
    var first := t.exec(0, CallFor(t.req, plan));
    EndAudits(b, t, plan, first);
    if first.err.Some? {
      var again := FallbackPlan(plan, FallbackReason(first.err.value), t.at.again);
      var dropped := BgRunner.Failing(b, plan, first.err.value, true, t.at.fail);
      EndAudits(dropped, t, again, t.exec(1, CallFor(t.req, again)));
    }
    assert b.events + [] == b.events;
  }

  // A level as the store keeps it: an unknown figure is none.
  function Kept(level: (int, int)): (int, int) {
    (if level.0 <= 0 then 0 else level.0, if level.1 <= 0 then 0 else level.1)
  }

  // The session after an answer in this mode, of the session was that the plan had found.
  ghost predicate Carried(now: Row, was: Option<Row>, call: Call, a: Answer, at: int) {
    && Live(now) && now.key == call.key && now.lastUsedAt == at && now.lastJobID == a.jobID
    && (a.sid != "" ==> now.sid == a.sid)
    && (a.sid == "" && call.sid != "" ==> now.sid == call.sid)
    && (call.mode == Resume && was.Some? ==>
          && now.createdAt == was.value.createdAt && now.runs == was.value.runs + 1 && now.rotationReason == NoReason
          && (a.usage.None? ==>
                && (now.contextUsed, now.contextLimit) == Kept((was.value.contextUsed, was.value.contextLimit))
                && now.lastUsage == was.value.lastUsage))
    && (call.mode != Resume ==> now.createdAt == at && now.runs == 1)
    && (a.usage.Some? || call.mode != Resume ==>
          (now.contextUsed, now.contextLimit) == Kept(Snapshot(a.usage)) && now.lastUsage == a.usage)
  }

  lemma AnswerCarries(t: Turn, p: Plan, a: Answer)
    requires Made(p, t.req)
    ensures Carried(Stored(Answered(p, OutcomeOf(t.req, p, a), t.at.end)), p.rec, CallFor(t.req, p), a, t.at.end)
    ensures Live(Answered(p, OutcomeOf(t.req, p, a), t.at.end))
  {
    hide Snapshot, LocalId;
  }

  lemma LastCallIs(b: Book, t: Turn)
    requires Taken(b, t).calls != [] && Taken(b, t).plan.Some?
    ensures var r := Taken(b, t);
      && r.calls[|r.calls| - 1] == CallFor(t.req, r.plan.value) && Made(r.plan.value, t.req)
      && (r.calls[|r.calls| - 1].mode == Resume ==>
            r.plan.value.rec.Some? && r.plan.value.rec == Found(b.rows, t.req.key))
  {
    hide Tripped, Finishing, BgRunner.Failing, Made, PlanFor, Found;
    PlanIsMade(b, t);
    PlanKey(b, t);
    RotatedMode(b.rows, t.req.key, t.req.policy, t.caps, t.at.plan);
    ResumesWhatItFound(b, t);
  }

  lemma ResumesWhatItFound(b: Book, t: Turn)
    ensures var p := PlanFor(b.rows, t.req.key, t.req.policy, t.caps, t.at.plan);
      p.decision.mode != Fresh ==> p.rec.Some?
  {
    hide Decide, Found, OtherBound, LatestFor, IsFound;
    PlanContinues(b.rows, t.req.key, t.req.policy, t.caps, t.at.plan);
  }

  /** After an answer the next lookup finds the session that gave it: opened when the agent first answered
      in it or cleared it, last used now, with the level this turn reported or, when a resumed turn
      reported none, the level it had. */
  lemma AnswerIsFound(b: Book, t: Turn)
    requires Tidy(b.rows) && Answers(b, t)
    ensures var r := Taken(b, t);
      var now := Found(r.book.rows, t.req.key);
      var call, a := r.calls[|r.calls| - 1], LastReply(t, r).answer;
      now.Some? && Carried(now.value, Found(b.rows, t.req.key), call, a, t.at.end)
  {
    hide Tidy, Replace, Retire, Storable, Found, PlanFor, Taken, Answered, Made, LastReply, Stored, Snapshot;
    var r := Taken(b, t);
    RunRows(b, t);
    LastCallIs(b, t);
    AnswerCarries(t, r.plan.value, LastReply(t, r).answer);
    var plan := PlanFor(b.rows, t.req.key, t.req.policy, t.caps, t.at.plan);
    var kept := if |r.calls| == 2 && plan.rec.Some? then Retire(b.rows, KindOf(t), plan.rec.value.sid) else b.rows;
    if plan.rec.Some? {
      EndingKeeps(b.rows, KindOf(t), plan.rec.value.sid, t.req.key.scope);
    }
    AnswersForItsKey(r.plan.value, OutcomeOf(t.req, r.plan.value, LastReply(t, r).answer), t.at.end);
    MadeKey(r.plan.value, t.req);
    ReadsBack(kept, AnswerOf(t, r));
    BoundIsFound(r.book.rows, t.req.key);
  }

  lemma BoundIsFound(rows: seq<Row>, key: Key)
    ensures ActiveFor(rows, key).Some? ==> Found(rows, key) == ActiveFor(rows, key)
  {
  }

  lemma MadeKey(p: Plan, req: Request)
    requires Made(p, req)
    ensures p.key == req.key
  {
  }

  /** A finished job's report reaches the session only while the job is its newest, and then changes its
      level, when it reports one, and its id, when it reports another. */
  lemma ObservationIsFound(b: Book, key: Key, jobID: string, sid: string, usage: Option<Usage>)
    requires Tidy(b.rows) && jobID != ""
    ensures var was, now := ActiveFor(b.rows, key), ActiveFor(Observing(b, key, jobID, sid, usage).rows, key);
      if was.None? || was.value.lastJobID != jobID then now == was
      else
        var told := usage.Some? && (Snapshot(usage).0 > 0 || Snapshot(usage).1 > 0);
        var id := if sid != "" then sid else was.value.sid;
        var back := if told then was.value.(sid := id, contextUsed := Snapshot(usage).0,
                                            contextLimit := Snapshot(usage).1, lastUsage := usage)
                    else was.value.(sid := id);
        now == if Storable(back) && (told || id != was.value.sid) then Some(Stored(back)) else was
  {
    hide Tidy, Replace, Snapshot, Storable, ActiveFor;
    var was := ActiveFor(b.rows, key);
    ActiveIsLive(b.rows, key);
    if was.Some? && was.value.lastJobID == jobID {
      var back := Refreshed(was.value, sid, usage);
      if Storable(back) {
        ReadsBack(b.rows, back);
      } else {
        RefusedKeeps(b.rows, back);
      }
    }
  }

  lemma ActiveIsLive(rows: seq<Row>, key: Key)
    ensures var r := ActiveFor(rows, key); r.Some? ==> Live(r.value) && r.value.key == key
  {
  }

  /** After a reset the next plan of any key of the scope is fresh, and says that a reset is why when the
      key's newest session was the one reset. */
  lemma ResetIsTheReason(rows: seq<Row>, key: Key, policy: Policy, caps: Caps, now: int)
    requires Tidy(rows)
    ensures var before := LatestFor(rows, key);
      var d := PlanFor(ResetScope(rows, key.scope), key, policy, caps, now).decision;
      && d.mode == Fresh && !d.rotated
      && (before.Some? && before.value.state == Active ==> d.reason == ManualReset)
      && (before.None? || before.value.state in {Replaced, Dropped} ==> d.reason != ManualReset)
  {
    hide Tidy;
    EndingKeeps(rows, "", "", key.scope);
    var after := ResetScope(rows, key.scope);
    assert Found(after, key).None?;
    ResetKeepsNewest(rows, key);
  }

  lemma LatestSnoc(rows: seq<Row>, r: Row, key: Key)
    ensures var before := LatestFor(rows, key);
      LatestFor(rows + [r], key) ==
        if r.key == key && (before.None? || Newer(r, before.value)) then Some(r) else before
  {
    assert (rows + [r])[..|rows|] == rows;
  }

  // A reset changes no times, so the newest row of the key stays the newest.
  lemma {:induction false} ResetKeepsNewest(rows: seq<Row>, key: Key)
    ensures var before, after := LatestFor(rows, key), LatestFor(ResetScope(rows, key.scope), key);
      after == if before.Some? then Some(ByReset(key.scope, before.value)) else None
  {
    if rows != [] {
      var front, r := rows[..|rows| - 1], rows[|rows| - 1];
      ResetKeepsNewest(front, key);
      assert rows == front + [r];
      assert ResetScope(rows, key.scope) == ResetScope(front, key.scope) + [ByReset(key.scope, r)];
      hide LatestFor, ResetScope;
      LatestSnoc(front, r, key);
      LatestSnoc(ResetScope(front, key.scope), ByReset(key.scope, r), key);
    }
  }

  lemma {:induction false} FirstColon(a: string, x: string, b: string, y: string)
    requires ':' !in a && ':' !in b
    ensures a + ":" + x == b + ":" + y <==> a == b && x == y
  {
    var s, t := a + ":" + x, b + ":" + y;
    assert s[|a|] == ':' && t[|b|] == ':';
    assert s[..|a|] == a && t[..|b|] == b && s[|a| + 1..] == x && t[|b| + 1..] == y;
    assert |a| < |b| ==> t[|a|] == b[|a|] != ':';
    assert |b| < |a| ==> s[|b|] == a[|b|] != ':';
  }

  lemma NumberTells(m: int, n: int)
    ensures ':' !in Number(m) && (Number(m) == Number(n) <==> m == n)
    ensures if m < 0 then Number(m)[0] == '-' && Value(Number(m)[1..]) == -m
            else Value(Number(m)) == m && '-' !in Number(m)
  {
    DecimalStandsFor(if m < 0 then -m else m);
    DecimalStandsFor(if n < 0 then -n else n);
    assert m < 0 ==> Number(m)[0] == '-' && Number(m)[1..] == Decimal(-m);
    assert n < 0 ==> Number(n)[0] == '-' && Number(n)[1..] == Decimal(-n);
    assert m >= 0 ==> Number(m)[0] in Number(m);
    assert n >= 0 ==> Number(n)[0] in Number(n);
  }

  /** Ids made up within one scope are the same exactly for the same second and job. */
  lemma LocalIdTells(scope: Scope, m: int, job: string, n: int, other: string)
    ensures LocalId(scope, m, job) == LocalId(scope, n, other) <==> m == n && job == other
  {
    NumberTells(m, n);
    NumberTells(n, m);
    hide Number;
    var head := "local:" + scope.kind + ":" + scope.project + ":";
    assert LocalId(scope, m, job) == head + (Number(m) + ":" + job);
    assert LocalId(scope, n, other) == head + (Number(n) + ":" + other);
    assert LocalId(scope, m, job)[|head|..] == Number(m) + ":" + job;
    assert LocalId(scope, n, other)[|head|..] == Number(n) + ":" + other;
    FirstColon(Number(m), job, Number(n), other);
  }

  /** A refused run leaves one row under a kind that is not blank: blocked, at the time of the guard, with
      the stop the run returned and nothing of an agent. */
  lemma RefusalIsLogged(b: Book, t: Turn)
    requires Taken(b, t).calls == [] && TrimSpace(KindOf(t)) != ""
    ensures var r, added := Taken(b, t), Added(b, t);
      && |added| == 1 && r.err.Some? && r.err.value.HardStopped?
      && var row := added[0];
        && row.kind == KindOf(t) && row.project == t.req.key.scope.project && row.status == Blocked
        && row.startedAt == row.endedAt == t.at.guard && row.error == StopNote(r.err.value.stop)
        && row.jobID == "" && row.sid == "" && row.mode.None? && row.reason == NoReason && row.usage.None?
        && row.inputBytes == 0 && row.outputBytes == 0
  {
    hide Tripped, PlanFor, Finishing, BgRunner.Failing, TrimSpace;
    TripsBeforeTheRun(b.log, KindOf(t), t.since, t.req.limits);
  }

  /** A cause is kept up to its first 512 characters. */
  lemma CauseIsCut(text: string)
    ensures Short(text) <= text && |Short(text)| == if |text| < 512 then |text| else 512
  {
  }

  /** A run asks twice exactly when its first call continued a session and failed because the session is
      lost or cannot be cleared; the second plan says which. */
  lemma FallbackIsExplained(b: Book, t: Turn)
    requires Taken(b, t).calls != []
    ensures var r := Taken(b, t);
      var err := t.exec(0, r.calls[0]).err;
      && (|r.calls| == 2 <==>
            r.calls[0].mode != Fresh && err.Some? && (err.value.lost || err.value.clearUnsupported))
      && r.plan.Some?
      && (|r.calls| == 2 ==>
            r.plan.value.decision.reason == if err.value.clearUnsupported then ClearUnsupported else SessionLost)
      && (|r.calls| == 1 ==>
            r.plan.value == PlanFor(b.rows, t.req.key, t.req.policy, t.caps, t.at.plan))
  {
    hide Tripped, PlanFor, Finishing, BgRunner.Failing;
  }

  lemma EndRowReason(t: Turn, p: Plan, reply: Reply)
    requires Grounded(p) && (p.decision.mode == Resume ==> p.decision.reason == NoReason)
    ensures EndRow(t.req, p, reply, t.at).reason == p.decision.reason
  {
    hide Snapshot, LocalId;
  }

  lemma FailedRowReason(p: Plan, cause: Error, now: int)
    ensures FailedRow(p, cause, now).reason == p.decision.reason
  {
  }

  lemma ResumingHasNoReason(rows: seq<Row>, key: Key, policy: Policy, caps: Caps, now: int)
    ensures var d := PlanFor(rows, key, policy, caps, now).decision; d.mode == Resume ==> d.reason == NoReason
  {
    hide Found, OtherBound, LatestFor;
  }

  /** Each row gives the reason of the plan its call was made under. */
  lemma RowsGiveTheReason(b: Book, t: Turn)
    requires Taken(b, t).calls != []
    ensures var r, added := Taken(b, t), Added(b, t);
      var first := PlanFor(b.rows, t.req.key, t.req.policy, t.caps, t.at.plan).decision.reason;
      && |added| <= |r.calls| && r.plan.Some?
      && forall i :: 0 <= i < |added| ==>
           added[i].reason == if i == |r.calls| - 1 then r.plan.value.decision.reason else first
  {
    hide Tripped, PlanFor, EndRow, FailedRow, Made, Finishing, Takes, BgRunner.Failing, Added, Grounded;
    RunAsks(b, t);
    PlansAreGrounded(b.rows, t.req.key, t.req.policy, t.caps, t.at.plan);
    ResumingHasNoReason(b.rows, t.req.key, t.req.policy, t.caps, t.at.plan);
    var plan := PlanFor(b.rows, t.req.key, t.req.policy, t.caps, t.at.plan);
    var first := t.exec(0, CallFor(t.req, plan));
    if |Taken(b, t).calls| == 1 {
      OnceAdds(b, t);
      EndRowReason(t, plan, first);
    } else {
      TwiceAdds(b, t);
      var again := FallbackPlan(plan, FallbackReason(first.err.value), t.at.again);
      FailedRowReason(plan, first.err.value, t.at.fail);
      EndRowReason(t, again, t.exec(1, CallFor(t.req, again)));
    }
  }

  /** Without a session to continue a plan says why: its newest session was reset, or another agent or
      model holds the scope, or there is nothing to say. */
  lemma FreshPlanSaysWhy(rows: seq<Row>, key: Key, policy: Policy, caps: Caps, now: int)
    requires forall q :: !Continuable(rows, q, key)
    ensures var d, latest := PlanFor(rows, key, policy, caps, now).decision, LatestFor(rows, key);
      var reset := latest.Some? && latest.value.state == State.Reset;
      var held := exists q ::
        && q in rows && Live(q) && q.key.scope == key.scope
        && (q.key.agent != key.agent || q.key.model != key.model);
      && d.mode == Fresh && !d.rotated
      && d.reason == if reset then ManualReset else if held then KeyChanged else NoReason
  {
    hide LatestFor;
    FoundIs(rows, key);
    hide Found, Continuable, IsFound;
    if OtherBound(rows, key) {
      var q :| q in rows && Live(q) && q.key.scope == key.scope && q.key != key;
      assert q.key.agent != key.agent || q.key.model != key.model;
    }
  }

  /** A commit follows the mode the run actually used: only a resume goes on counting, and the row names
      that mode. */
  lemma CommitFollowsTheModeUsed(p: Plan, o: Outcome, now: int)
    ensures var used := if o.mode.Some? then o.mode.value else p.decision.mode;
      var row := Answered(p, o, now);
      && AnsweredRow(p, o, now).mode == Some(used)
      && (used == Resume && p.rec.Some? ==>
            && row.runs == p.rec.value.runs + 1 && row.createdAt == p.rec.value.createdAt
            && row.rotationReason == NoReason)
      && (used != Resume || p.rec.None? ==>
            row.runs == 1 && row.createdAt == now && row.rotationReason == p.decision.reason)
      && (used != Fresh && p.rec.Some? && o.sid == "" && p.rec.value.sid != "" ==> row.sid == p.rec.value.sid)
      && (used == Fresh && o.sid == "" ==> row.sid == LocalId(p.key.scope, now, o.jobID))
  {
    hide Snapshot;
  }

  // How many rows differ.
  function Changed(before: seq<Row>, after: seq<Row>): nat
    requires |before| == |after|
  {
    if before == [] then 0
    else
      var n := |before| - 1;
      Changed(before[..n], after[..n]) + if before[n] == after[n] then 0 else 1
  }

  lemma {:induction false} ResetCounts(rows: seq<Row>, scope: Scope)
    ensures Changed(rows, ResetScope(rows, scope)) == Ended(rows, scope)
  {
    if rows != [] {
      ResetCounts(rows[..|rows| - 1], scope);
      assert ResetScope(rows, scope)[..|rows| - 1] == ResetScope(rows[..|rows| - 1], scope);
    }
  }

  /** A reset is audited with who asked for it and how many sessions it ended. */
  lemma ResetIsAudited(b: Book, scope: Scope, actor: string)
    ensures var after := Resetting(b, scope, actor);
      && |after.rows| == |b.rows| && after.log == b.log
      && after.events == b.events + [ResetBy(scope, Changed(b.rows, after.rows), actor)]
  {
    ResetCounts(b.rows, scope);
  }
}
