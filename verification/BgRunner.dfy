/** The runner of the background agents: hard stops, the plan of a run, the fallback to a fresh
    session, and what a finished run leaves on the book, the run log and the audit trail. */
module BgRunner {
  import opened BgBook
  import opened BgPolicy
  import opened GoText

  datatype Status = Ok | Failed | Canceled | Blocked | TimedOut

  datatype LogRow = LogRow(kind: string, project: string, jobID: string, sid: string, startedAt: int, endedAt: int,
                           status: Status, mode: Option<Mode>, reason: Reason, inputBytes: int, outputBytes: int,
                           usage: Option<Usage>, error: Note)

  // What the error column says: nothing, a cause cut to 512 characters, or a hard stop.
  datatype Note = NoNote | CauseNote(text: string) | StopNote(stop: HardStop)

  datatype StopReason = DailyLimit | DailyCost | DailyTokens | Timeout
  datatype HardStop = HardStop(kind: string, reason: StopReason, limit: real, used: real)

  datatype Event = Rotated(key: Key, reason: Reason, mode: Mode, from: string, to: string, runs: int, policy: Policy,
                           fill: Option<real>)
    | Stopped(key: Key, stop: HardStop)
    | ResetBy(scope: Scope, sessions: nat, actor: string)

  datatype Book = Book(rows: seq<Row>, log: seq<LogRow>, events: seq<Event>)

  // Daily limits are off at zero; the timeout is in seconds.
  datatype Limits = Limits(dailyRuns: int, dailyCost: real, dailyTokens: int, timeout: int)

  // An error wraps any of the causes the runner asks for.
  datatype Error = Error(lost: bool, clearUnsupported: bool, canceled: bool, deadline: bool, text: string)

  datatype Plan = Plan(key: Key, decision: Decision, started: int, policy: Policy, rec: Option<Row>)

  datatype Outcome = Outcome(jobID: string, sid: string, usage: Option<Usage>, mode: Option<Mode>, inputBytes: int,
                             outputBytes: int)

  function Logged(b: Book, row: LogRow): Book {
    if TrimSpace(row.kind) == "" then b else b.(log := b.log + [row])
  }

  // What the runs of a kind that started since a time add up to; a blocked run is not one.
  function Runs(log: seq<LogRow>, kind: string, since: int): nat {
    if log == [] then 0
    else
      var r := log[|log| - 1];
      var before := Runs(log[..|log| - 1], kind, since);
      if r.kind == kind && r.startedAt >= since && r.status != Blocked then before + 1 else before
  }

  function Spent(log: seq<LogRow>, kind: string, since: int): (int, real) {
    if log == [] then (0, 0.0)
    else
      var r, before := log[|log| - 1], Spent(log[..|log| - 1], kind, since);
      if r.kind == kind && r.startedAt >= since && r.status != Blocked && r.usage.Some?
      then (before.0 + r.usage.value.tokens, before.1 + r.usage.value.cost)
      else before
  }

  // The hard stop that refuses a run, if one is tripped.
  function Tripped(log: seq<LogRow>, kind: string, since: int, lim: Limits): Option<HardStop> {
    var runs, spent := Runs(log, kind, since), Spent(log, kind, since);
    if lim.dailyRuns > 0 && runs >= lim.dailyRuns
    then Some(HardStop(kind, DailyLimit, lim.dailyRuns as real, runs as real))
    else if lim.dailyCost > 0.0 && spent.1 >= lim.dailyCost then Some(HardStop(kind, DailyCost, lim.dailyCost, spent.1))
    else if lim.dailyTokens > 0 && spent.0 >= lim.dailyTokens
    then Some(HardStop(kind, DailyTokens, lim.dailyTokens as real, spent.0 as real))
    else None
  }

  function BlockedRow(key: Key, at: int, stop: HardStop): LogRow {
    LogRow(key.scope.kind, key.scope.project, "", "", at, at, Blocked, None, NoReason, 0, 0, None, StopNote(stop))
  }

  function Short(text: string): string { if |text| > 512 then text[..512] else text }

  // A stop is logged, unless it is a timeout, and audited.
  function Stopping(b: Book, key: Key, stop: HardStop, at: int): Book {
    var logged := if stop.reason == Timeout then b else Logged(b, BlockedRow(key, at, stop));
    logged.(events := b.events + [Stopped(key, stop)])
  }

  predicate OtherBound(rows: seq<Row>, key: Key) {
    exists r :: r in rows && Live(r) && r.key.scope == key.scope && r.key != key
  }

  // The row a plan of the key finds: bound to it, or adopted while it is bound to nothing.
  function Found(rows: seq<Row>, key: Key): Option<Row> {
    var bound := ActiveFor(rows, key);
    if bound.Some? then bound else UnboundFor(rows, key.scope)
  }

  function PlanFor(rows: seq<Row>, key: Key, policy: Policy, caps: Caps, now: int): Plan {
    var rec, latest := Found(rows, key), LatestFor(rows, key);
    var reset := latest.Some? && latest.value.state == Reset;
    Plan(key, Decide(policy, caps, now, rec, reset, !reset && OtherBound(rows, key)), now, policy, rec)
  }

  function StatusOf(cause: Error): Status {
    if cause.canceled then Canceled else if cause.deadline then TimedOut else Failed
  }

  function FailedRow(p: Plan, cause: Error, now: int): LogRow {
    LogRow(p.key.scope.kind, p.key.scope.project, "", if p.rec.Some? then p.rec.value.sid else "", p.started, now,
           StatusOf(cause), Some(p.decision.mode), p.decision.reason, 0, 0, None, CauseNote(Short(cause.text)))
  }

  function Failing(b: Book, p: Plan, cause: Error, drop: bool, now: int): Book {
    var logged := Logged(b, FailedRow(p, cause, now));
    if drop && p.rec.Some? then logged.(rows := Retire(b.rows, p.key.scope.kind, p.rec.value.sid)) else logged
  }

  function FallbackPlan(p: Plan, reason: Reason, now: int): Plan {
    p.(rec := None, decision := OpenFresh(reason), started := now)
  }

  function ModeOf(p: Plan, o: Outcome): Mode { if o.mode.Some? then o.mode.value else p.decision.mode }

  function Number(n: int): string { if n < 0 then "-" + Decimal(-n) else Decimal(n) }

  // The id made up for a session whose agent reported none.
  function LocalId(scope: Scope, now: int, jobID: string): string {
    "local:" + scope.kind + ":" + scope.project + ":" + Number(now) + ":" + jobID
  }

  // The session row of a successful run.
  function Answered(p: Plan, o: Outcome, now: int): Row {
    var continued := p.rec.Some? && ModeOf(p, o) != Fresh;
    var resumed := continued && ModeOf(p, o) == Resume;
    var sid := if o.sid != "" then o.sid
               else if continued && p.rec.value.sid != "" then p.rec.value.sid
               else LocalId(p.key.scope, now, o.jobID);
    var level := Snapshot(o.usage);
    var kept := resumed && o.usage.None?;
    Row(p.key, sid, if resumed then p.rec.value.createdAt else now, now, if resumed then p.rec.value.runs + 1 else 1,
        if kept then p.rec.value.contextUsed else level.0, if kept then p.rec.value.contextLimit else level.1,
        if kept then p.rec.value.lastUsage else o.usage, Active, false, o.jobID,
        if resumed then NoReason else p.decision.reason)
  }

  function AnsweredRow(p: Plan, o: Outcome, now: int): LogRow {
    var r := Answered(p, o, now);
    LogRow(p.key.scope.kind, p.key.scope.project, o.jobID, r.sid, p.started, now, Ok, Some(ModeOf(p, o)),
           r.rotationReason, o.inputBytes, o.outputBytes, o.usage, NoNote)
  }

  // A rotation by rule always has the session it replaces.
  ghost predicate Grounded(p: Plan) {
    && (p.decision.rotated ==> p.rec.Some?)
    && (p.decision.mode != Fresh ==> p.rec.Some?)
  }

  function Committing(b: Book, p: Plan, o: Outcome, now: int): Book
    requires Grounded(p)
  {
    var r := Answered(p, o, now);
    if !Storable(r) then b
    else
      var logged := Logged(b.(rows := Replace(b.rows, r)), AnsweredRow(p, o, now));
      if p.decision.rotated && ModeOf(p, o) != Resume then
        var rec := p.rec.value;
        logged.(events := b.events + [Rotated(p.key, p.decision.reason, ModeOf(p, o), rec.sid, r.sid, rec.runs,
                                              p.policy, SessionFrom(rec).ContextRatio())])
      else logged
  }

  lemma PlansAreGrounded(rows: seq<Row>, key: Key, policy: Policy, caps: Caps, now: int)
    ensures Grounded(PlanFor(rows, key, policy, caps, now))
    ensures forall p: Plan, reason: Reason, at: int :: Grounded(FallbackPlan(p, reason, at))
  {
  }

  // A finished job's report, folded into the log and, when the job is still the session's
  // newest, into the session.
  function Reported(log: seq<LogRow>, kind: string, jobID: string, usage: Usage): (out: seq<LogRow>)
    ensures |out| == |log|
  {
    if kind == "" then log
    else
      seq(|log|, i requires 0 <= i < |log| =>
        if log[i].kind == kind && log[i].jobID == jobID && log[i].usage.None?
        then log[i].(usage := Some(usage)) else log[i])
  }

  function Refreshed(rec: Row, sid: string, usage: Option<Usage>): Row {
    var level := Snapshot(usage);
    var leveled := if usage.Some? && (level.1 > 0 || level.0 > 0)
                   then rec.(contextUsed := level.0, contextLimit := level.1, lastUsage := usage) else rec;
    if sid != "" then leveled.(sid := sid) else leveled
  }

  // The session an observation of the job would write back.
  function Observed(rows: seq<Row>, key: Key, jobID: string): Option<Row> {
    var rec := ActiveFor(rows, key);
    if rec.Some? && rec.value.lastJobID == jobID then rec else None
  }

  function Folding(rows: seq<Row>, rec: Row, sid: string, usage: Option<Usage>): seq<Row> {
    var level := Snapshot(usage);
    if (usage.Some? && (level.1 > 0 || level.0 > 0)) || (sid != "" && sid != rec.sid)
    then Replace(rows, Refreshed(rec, sid, usage)) else rows
  }

  function Observing(b: Book, key: Key, jobID: string, sid: string, usage: Option<Usage>): Book {
    if jobID == "" then b
    else
      var rec := Observed(b.rows, key, jobID);
      b.(log := if usage.Some? then Reported(b.log, key.scope.kind, jobID, usage.value) else b.log,
         rows := if rec.Some? then Folding(b.rows, rec.value, sid, usage) else b.rows)
  }

  function Ended(rows: seq<Row>, scope: Scope): (n: nat)
    ensures n <= |rows|
  {
    if rows == [] then 0
    else
      var before, r := Ended(rows[..|rows| - 1], scope), rows[|rows| - 1];
      if r.key.scope == scope && r.state == Active then before + 1 else before
  }

  function Resetting(b: Book, scope: Scope, actor: string): Book {
    b.(rows := ResetScope(b.rows, scope), events := b.events + [ResetBy(scope, Ended(b.rows, scope), actor)])
  }

  // One run: what is asked, what the agent answers, and the clock's readings in their order.
  datatype Request = Request(key: Key, prompt: string, title: string, args: seq<string>, origin: string,
                             policy: Policy, limits: Limits)
  datatype Call = Call(key: Key, mode: Mode, prompt: string, title: string, args: seq<string>, origin: string,
                       timeout: int, sid: string, lastJobID: string)
  datatype Answer = Answer(jobID: string, sid: string, output: string, usage: Option<Usage>)
  datatype Reply = Reply(answer: Answer, err: Option<Error>)
  datatype Clock = Clock(guard: int, plan: int, fail: int, again: int, stop: int, end: int)
  datatype RunError = HardStopped(stop: HardStop) | RunFailed(err: Error)
  datatype Ran = Ran(book: Book, calls: seq<Call>, plan: Option<Plan>, err: Option<RunError>)

  function CallFor(req: Request, p: Plan): Call {
    var s := p.decision.session;
    Call(req.key, p.decision.mode, req.prompt, req.title, req.args, req.origin, req.limits.timeout,
         if p.decision.mode != Fresh && s.Some? then s.value.id else "",
         if p.decision.mode != Fresh && s.Some? then s.value.lastJobID else "")
  }

  // A continuation that failed because its session cannot be used.
  predicate FallsBack(p: Plan, r: Reply) {
    r.err.Some? && p.decision.mode != Fresh && (r.err.value.lost || r.err.value.clearUnsupported)
  }

  function FallbackReason(err: Error): Reason { if err.clearUnsupported then ClearUnsupported else SessionLost }

  function OutcomeOf(req: Request, p: Plan, a: Answer): Outcome {
    Outcome(a.jobID, a.sid, a.usage, Some(p.decision.mode), |req.prompt|, |a.output|)
  }

  predicate RanOut(req: Request, err: Error, ctxDone: bool) { err.deadline && req.limits.timeout > 0 && ctxDone }

  function TimeoutStop(req: Request): HardStop {
    HardStop(req.key.scope.kind, Timeout, req.limits.timeout as real, req.limits.timeout as real)
  }

  // The end of a run whose last call was made under p.
  function Finishing(b: Book, req: Request, p: Plan, reply: Reply, at: Clock, ctxDone: bool): Book
    requires Grounded(p)
  {
    if reply.err.None? then Committing(b, p, OutcomeOf(req, p, reply.answer), at.end)
    else
      var late := RanOut(req, reply.err.value, ctxDone);
      var stopped := if late then Stopping(b, req.key, TimeoutStop(req), at.stop) else b;
      Failing(stopped, p, reply.err.value, false, at.end)
  }

  function ErrorOf(req: Request, reply: Reply, ctxDone: bool): Option<RunError> {
    if reply.err.None? then None
    else if RanOut(req, reply.err.value, ctxDone) then Some(HardStopped(TimeoutStop(req)))
    else Some(RunFailed(reply.err.value))
  }

  /** One whole run. The agent's n-th answer to a call is exec(n, call). */
  function RunFrom(b: Book, exec: (nat, Call) -> Reply, caps: Caps, req: Request, since: int, at: Clock,
                   ctxDone: bool): (r: Ran)
    ensures r.plan.Some? ==> Grounded(r.plan.value)
  {
    var stop := Tripped(b.log, req.key.scope.kind, since, req.limits);
    if stop.Some? then Ran(Stopping(b, req.key, stop.value, at.guard), [], None, Some(HardStopped(stop.value)))
    else
      var plan := PlanFor(b.rows, req.key, req.policy, caps, at.plan);
      var first := exec(0, CallFor(req, plan));
      if FallsBack(plan, first) then
        var again := FallbackPlan(plan, FallbackReason(first.err.value), at.again);
        var second := exec(1, CallFor(req, again));
        Ran(Finishing(Failing(b, plan, first.err.value, true, at.fail), req, again, second, at, ctxDone),
            [CallFor(req, plan), CallFor(req, again)], Some(again), ErrorOf(req, second, ctxDone))
      else
        Ran(Finishing(b, req, plan, first, at, ctxDone), [CallFor(req, plan)], Some(plan), ErrorOf(req, first, ctxDone))
  }

  class Runner {
    var rows: seq<Row>
    var log: seq<LogRow>
    var events: seq<Event>

    function View(): Book
      reads this
    {
      Book(rows, log, events)
    }

    constructor (book: Book)
      ensures View() == book
    {
      rows, log, events := book.rows, book.log, book.events;
    }

    method Log(row: LogRow)
      modifies this
      ensures View() == Logged(old(View()), row)
    {
      if TrimSpace(row.kind) != "" {
        log := log + [row];
      }
    }

    // The sums of a kind since a time: its runs, tokens and cost.
    method Stats(kind: string, since: int) returns (runs: nat, tokens: int, cost: real)
      ensures runs == Runs(log, kind, since) && (tokens, cost) == Spent(log, kind, since)
    {
      runs, tokens, cost := 0, 0, 0.0;
      for i := 0 to |log|
        invariant runs == Runs(log[..i], kind, since) && (tokens, cost) == Spent(log[..i], kind, since)
      {
        var r := log[i];
        assert log[..i + 1][..i] == log[..i];
        if r.kind == kind && r.startedAt >= since && r.status != Blocked {
          runs := runs + 1;
          if r.usage.Some? {
            tokens, cost := tokens + r.usage.value.tokens, cost + r.usage.value.cost;
          }
        }
      }
      assert log[..|log|] == log;
    }

    method RecordStop(key: Key, stop: HardStop, at: int)
      modifies this
      ensures View() == Stopping(old(View()), key, stop, at)
    {
      if stop.reason != Timeout {
        Log(BlockedRow(key, at, stop));
      }
      events := events + [Stopped(key, stop)];
    }

    method Guard(key: Key, lim: Limits, since: int, now: int) returns (stop: Option<HardStop>)
      modifies this
      ensures stop == Tripped(old(log), key.scope.kind, since, lim)
      ensures View() == if stop.Some? then Stopping(old(View()), key, stop.value, now) else old(View())
    {
      if lim.dailyRuns <= 0 && lim.dailyCost <= 0.0 && lim.dailyTokens <= 0 {
        return None;
      }
      var kind := key.scope.kind;
      var runs, tokens, cost := Stats(kind, since);
      stop := None;
      if lim.dailyRuns > 0 && runs >= lim.dailyRuns {
        stop := Some(HardStop(kind, DailyLimit, lim.dailyRuns as real, runs as real));
      } else if lim.dailyCost > 0.0 && cost >= lim.dailyCost {
        stop := Some(HardStop(kind, DailyCost, lim.dailyCost, cost));
      } else if lim.dailyTokens > 0 && tokens >= lim.dailyTokens {
        stop := Some(HardStop(kind, DailyTokens, lim.dailyTokens as real, tokens as real));
      }
      if stop.Some? {
        RecordStop(key, stop.value, now);
      }
    }

    method OtherBinding(key: Key) returns (other: bool)
      ensures other == OtherBound(rows, key)
    {
      for i := 0 to |rows|
        invariant !OtherBound(rows[..i], key)
      {
        assert rows[..i + 1] == rows[..i] + [rows[i]];
        if Live(rows[i]) && rows[i].key.scope == key.scope &&
          (rows[i].key.agent != key.agent || rows[i].key.model != key.model) {
          return true;
        }
      }
      assert rows[..|rows|] == rows;
      return false;
    }

    method MakePlan(key: Key, policy: Policy, caps: Caps, now: int) returns (p: Plan)
      ensures p == PlanFor(rows, key, policy, caps, now) && Grounded(p)
    {
      var rec := ActiveFor(rows, key);
      if rec.None? {
        rec := UnboundFor(rows, key.scope);
      }
      var reset, other := false, false;
      if rec.None? {
        var latest := LatestFor(rows, key);
        reset := latest.Some? && latest.value.state == Reset;
        if !reset {
          other := OtherBinding(key);
        }
      }
      p := Plan(key, Decide(policy, caps, now, rec, reset, other), now, policy, rec);
    }

    method Fail(p: Plan, cause: Error, drop: bool, now: int)
      modifies this
      ensures View() == Failing(old(View()), p, cause, drop, now)
    {
      var sid := "";
      if p.rec.Some? {
        sid := p.rec.value.sid;
      }
      Log(LogRow(p.key.scope.kind, p.key.scope.project, "", sid, p.started, now, StatusOf(cause), Some(p.decision.mode),
                 p.decision.reason, 0, 0, None, CauseNote(Short(cause.text))));
      if drop && p.rec.Some? {
        rows := Retire(rows, p.key.scope.kind, sid);
      }
    }

    method Fallback(p: Plan, cause: Error, reason: Reason, failed: int, now: int) returns (again: Plan)
      modifies this
      ensures View() == Failing(old(View()), p, cause, true, failed)
      ensures again == FallbackPlan(p, reason, now)
    {
      Fail(p, cause, true, failed);
      again := p.(rec := None, decision := OpenFresh(reason), started := now);
    }

    // The row is built field by field from the mode actually used.
    method Build(p: Plan, o: Outcome, now: int) returns (b: Row)
      ensures b == Answered(p, o, now)
    {
      hide LocalId, Snapshot;
      var mode := if o.mode.Some? then o.mode.value else p.decision.mode;
      var level := Snapshot(o.usage);
      b := Row(p.key, "", 0, now, 0, level.0, level.1, o.usage, Active, false, o.jobID, NoReason);
      if mode == Resume && p.rec.Some? {
        b := b.(sid := p.rec.value.sid, createdAt := p.rec.value.createdAt, runs := p.rec.value.runs + 1);
      } else if mode == ClearContext && p.rec.Some? {
        b := b.(sid := p.rec.value.sid, createdAt := now, runs := 1, rotationReason := p.decision.reason);
      } else {
        b := b.(createdAt := now, runs := 1, rotationReason := p.decision.reason);
      }
      if o.sid != "" {
        b := b.(sid := o.sid);
      }
      if b.sid == "" {
        b := b.(sid := LocalId(p.key.scope, now, o.jobID));
      }
      if mode == Resume && p.rec.Some? && o.usage.None? {
        // a turn that reported no usage keeps the previous level
        b := b.(contextUsed := p.rec.value.contextUsed, contextLimit := p.rec.value.contextLimit,
                lastUsage := p.rec.value.lastUsage);
      }
    }

    method Commit(p: Plan, o: Outcome, now: int)
      requires Grounded(p)
      modifies this
      ensures View() == Committing(old(View()), p, o, now)
    {
      hide Answered, Replace, Storable, SessionFrom;
      var mode := if o.mode.Some? then o.mode.value else p.decision.mode;
      var b := Build(p, o, now);
      if !Storable(b) {
        return;
      }
      rows := Replace(rows, b);
      Log(LogRow(p.key.scope.kind, p.key.scope.project, o.jobID, b.sid, p.started, now, Ok, Some(mode),
                 b.rotationReason, o.inputBytes, o.outputBytes, o.usage, NoNote));
      if p.decision.rotated && (mode == Fresh || mode == ClearContext) {
        events := events + [Rotated(p.key, p.decision.reason, mode, p.rec.value.sid, b.sid, p.rec.value.runs, p.policy,
                                    SessionFrom(p.rec.value).ContextRatio())];
      }
    }

    method Observe(key: Key, jobID: string, sid: string, usage: Option<Usage>)
      modifies this
      ensures View() == Observing(old(View()), key, jobID, sid, usage)
    {
      if jobID == "" {
        return;
      }
      if usage.Some? {
        log := Reported(log, key.scope.kind, jobID, usage.value);
      }
      var found := ActiveFor(rows, key);
      if found.None? || found.value.lastJobID != jobID {
        return;
      }
      var rec, level, changed := found.value, Snapshot(usage), false;
      if usage.Some? && (level.1 > 0 || level.0 > 0) {
        rec, changed := rec.(contextUsed := level.0, contextLimit := level.1, lastUsage := usage), true;
      }
      if sid != "" && sid != rec.sid {
        rec, changed := rec.(sid := sid), true;
      }
      if changed {
        rows := Replace(rows, rec);
      }
    }

    method ResetSessions(scope: Scope, actor: string) returns (n: nat)
      modifies this
      ensures View() == Resetting(old(View()), scope, actor) && n == Ended(old(rows), scope)
    {
      n := Ended(rows, scope);
      rows := ResetScope(rows, scope);
      events := events + [ResetBy(scope, n, actor)];
    }

    method Run(exec: (nat, Call) -> Reply, caps: Caps, req: Request, since: int, at: Clock, ctxDone: bool)
      returns (calls: seq<Call>, err: Option<RunError>)
      modifies this
      ensures var r := RunFrom(old(View()), exec, caps, req, since, at, ctxDone);
        View() == r.book && calls == r.calls && err == r.err
    {
      hide Tripped, Stopping, PlanFor, Failing, Committing, RanOut, CallFor;
      var stop := Guard(req.key, req.limits, since, at.guard);
      if stop.Some? {
        return [], Some(HardStopped(stop.value));
      }
      var plan := MakePlan(req.key, req.policy, caps, at.plan);
      calls := [CallFor(req, plan)];
      var reply := exec(0, calls[0]);
      if reply.err.Some? && plan.decision.mode != Fresh && (reply.err.value.lost || reply.err.value.clearUnsupported) {
        var reason := if reply.err.value.clearUnsupported then ClearUnsupported else SessionLost;
        plan := Fallback(plan, reply.err.value, reason, at.fail, at.again);
        calls := calls + [CallFor(req, plan)];
        reply := exec(1, calls[1]);
      }
      err := ErrorOf(req, reply, ctxDone);
      if reply.err.Some? {
        if RanOut(req, reply.err.value, ctxDone) {
          RecordStop(req.key, TimeoutStop(req), at.stop);
        }
        Fail(plan, reply.err.value, false, at.end);
        return;
      }
      Commit(plan, Outcome(reply.answer.jobID, reply.answer.sid, reply.answer.usage, Some(plan.decision.mode),
                           |req.prompt|, |reply.answer.output|), at.end);
    }
  }
}
