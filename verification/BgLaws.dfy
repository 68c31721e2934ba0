/** What whole runs of the background-agent runner leave behind: one log row per call of the agent,
    except where the store refuses the answer, and how far a day's runs can go past the daily limit. */
module BgLaws {
  import opened BgBook
  import opened BgPolicy
  import opened BgRunner
  import opened GoText

  // One run and everything it depends on; since is the start of its day.
  datatype Turn = Turn(exec: (nat, Call) -> Reply, caps: Caps, req: Request, since: int, at: Clock, ctxDone: bool)

  function Taken(b: Book, t: Turn): Ran { RunFrom(b, t.exec, t.caps, t.req, t.since, t.at, t.ctxDone) }

  function KindOf(t: Turn): string { t.req.key.scope.kind }

  // The reply the run ended with.
  function LastReply(t: Turn, r: Ran): Reply
    requires r.calls != []
  {
    t.exec(|r.calls| - 1, r.calls[|r.calls| - 1])
  }

  // The book takes the run: its kind is not blank, nor the session id of an answer.
  ghost predicate Recordable(b: Book, t: Turn) {
    var r := Taken(b, t);
    && TrimSpace(KindOf(t)) != ""
    && (r.err.None? && r.plan.Some? ==>
         Storable(Answered(r.plan.value, OutcomeOf(t.req, r.plan.value, LastReply(t, r).answer), t.at.end)))
  }

  // How many calls of the run leave no row: the one whose answer the book does not take, or all of
  // them under a blank kind.
  ghost function Lost(b: Book, t: Turn): nat {
    var calls := |Taken(b, t).calls|;
    if calls == 0 || Recordable(b, t) then 0 else if TrimSpace(KindOf(t)) == "" then calls else 1
  }

  // What the run adds to the log.
  function Added(b: Book, t: Turn): seq<LogRow> {
    var log := Taken(b, t).book.log;
    if |b.log| <= |log| then log[|b.log|..] else []
  }

  /** A run asks the agent never, when a hard stop is tripped, once, or twice. Only a continuation
      whose session cannot be used is asked again, in a fresh session of its own. */
  lemma RunAsks(b: Book, t: Turn)
    ensures var r := Taken(b, t);
      && (r.calls == [] <==> Tripped(b.log, KindOf(t), t.since, t.req.limits).Some?)
      && |r.calls| <= 2
      && (r.calls == [] ==> r.book.rows == b.rows && r.err.Some?)
      && (|r.calls| == 2 ==> r.calls[0].mode != Fresh && r.calls[1].mode == Fresh && r.calls[1].sid == "")
      && (r.calls != [] ==> (r.err.None? <==> LastReply(t, r).err.None?))
  {
    hide Tripped, PlanFor, Finishing, BgRunner.Failing;
  }

  // Every call passes the request on, and a fresh one continues nothing.
  predicate PassesOn(call: Call, req: Request) {
    && call.key == req.key && call.prompt == req.prompt && call.title == req.title && call.args == req.args
    && call.origin == req.origin && call.timeout == req.limits.timeout
    && (call.mode == Fresh ==> call.sid == "" && call.lastJobID == "")
  }

  // A row a run of the key may continue: live, and bound to the key or to no agent of its scope.
  predicate Continuable(rows: seq<Row>, row: Row, key: Key) {
    row in rows && Live(row) && (row.key == key || row.key == Key(key.scope, "", ""))
  }

  // The newest such row of its key, of the run's own key if that has one.
  ghost predicate IsFound(rows: seq<Row>, row: Row, key: Key) {
    && Continuable(rows, row, key)
    && (forall q :: Continuable(rows, q, key) && q.key == row.key ==> Newer(row, q))
    && (forall q :: Continuable(rows, q, key) && q.key == key ==> row.key == key)
  }

  lemma FoundIs(rows: seq<Row>, key: Key)
    ensures var rec := Found(rows, key);
      && (rec.Some? ==> IsFound(rows, rec.value, key))
      && (rec.None? ==> forall q :: !Continuable(rows, q, key))
  {
  }

  lemma PlanContinues(rows: seq<Row>, key: Key, policy: Policy, caps: Caps, now: int)
    ensures var p := PlanFor(rows, key, policy, caps, now);
      p.decision.mode != Fresh ==>
        p.rec.Some? && IsFound(rows, p.rec.value, key) && p.decision.session == Some(SessionFrom(p.rec.value))
  {
    hide Decide, Found, OtherBound, LatestFor, IsFound, Below;
    FoundIs(rows, key);
    var p := PlanFor(rows, key, policy, caps, now);
    var latest := LatestFor(rows, key);
    var reset := latest.Some? && latest.value.state == State.Reset;
    DecidesByTheLimits(policy, caps, now, p.rec, reset, !reset && OtherBound(rows, key));
  }

  /** What a run asks for: the request as it came, and for a continuation the id and the last job of the
      newest live session of its key or, where the key has none, of its scope bound to no agent. */
  lemma RunContinues(b: Book, t: Turn)
    ensures var r := Taken(b, t);
      && (forall i :: 0 <= i < |r.calls| ==> PassesOn(r.calls[i], t.req))
      && (r.calls != [] && r.calls[0].mode != Fresh ==>
            exists row ::
              IsFound(b.rows, row, t.req.key) && r.calls[0].sid == row.sid && r.calls[0].lastJobID == row.lastJobID)
  {
    hide Tripped, Finishing, BgRunner.Failing, PlanFor, IsFound;
    PlanContinues(b.rows, t.req.key, t.req.policy, t.caps, t.at.plan);
  }

  // The row the end of a run writes, and whether the book takes it.
  function EndRow(req: Request, p: Plan, reply: Reply, at: Clock): LogRow {
    if reply.err.None? then AnsweredRow(p, OutcomeOf(req, p, reply.answer), at.end)
    else FailedRow(p, reply.err.value, at.end)
  }

  predicate Takes(req: Request, p: Plan, reply: Reply, at: Clock) {
    TrimSpace(req.key.scope.kind) != "" &&
      (reply.err.None? ==> Storable(Answered(p, OutcomeOf(req, p, reply.answer), at.end)))
  }

  lemma FinishWrites(b: Book, req: Request, p: Plan, reply: Reply, at: Clock, ctxDone: bool)
    requires Grounded(p) && p.key == req.key
    ensures Finishing(b, req, p, reply, at, ctxDone).log ==
      if Takes(req, p, reply, at) then b.log + [EndRow(req, p, reply, at)] else b.log
  {
    hide Answered, Replace, Storable, RanOut, SessionFrom;
    assert Answered(p, OutcomeOf(req, p, reply.answer), at.end).key == p.key by {
      AnswersForItsKey(p, OutcomeOf(req, p, reply.answer), at.end);
    }
    BlankIsNotStorable(Answered(p, OutcomeOf(req, p, reply.answer), at.end));
  }

  lemma AnswersForItsKey(p: Plan, o: Outcome, now: int)
    ensures Answered(p, o, now).key == p.key
  {
  }

  lemma BlankIsNotStorable(r: Row)
    ensures TrimSpace(r.key.scope.kind) == "" ==> !Storable(r)
  {
  }

  lemma EndRowIs(req: Request, p: Plan, reply: Reply, at: Clock)
    requires p.key == req.key
    ensures var row := EndRow(req, p, reply, at);
      && row.kind == req.key.scope.kind && row.mode == Some(p.decision.mode) && row.startedAt == p.started
      && row.status != Blocked && (row.status == Ok <==> reply.err.None?)
  {
    hide Answered;
  }

  lemma FirstRowIs(p: Plan, cause: Error, now: int)
    ensures var row := FailedRow(p, cause, now);
      && row.kind == p.key.scope.kind && row.mode == Some(p.decision.mode) && row.startedAt == p.started
      && row.status != Blocked && row.status != Ok
  {
  }

  // One row for each call from the first on, in the call's mode and from its start; only the last
  // call can be a success, and none is a refusal.
  ghost predicate Matches(added: seq<LogRow>, calls: seq<Call>, answered: bool, at: Clock) {
    && |added| <= |calls|
    && (forall i :: 0 <= i < |added| ==> added[i].mode == Some(calls[i].mode) && added[i].status != Blocked)
    && (forall i :: 0 <= i < |added| ==> added[i].startedAt == if i == 0 then at.plan else at.again)
    && (forall i :: 0 <= i < |added| ==> (added[i].status == Ok <==> i == |calls| - 1 && answered))
  }

  lemma OneMatches(row: LogRow, call: Call, answered: bool, at: Clock)
    requires row.mode == Some(call.mode) && row.status != Blocked && row.startedAt == at.plan
    requires row.status == Ok <==> answered
    ensures Matches([row], [call], answered, at) && Matches([], [call], answered, at)
  {
  }

  lemma TwoMatch(first: LogRow, second: LogRow, calls: seq<Call>, answered: bool, at: Clock)
    requires |calls| == 2 && first.mode == Some(calls[0].mode) && second.mode == Some(calls[1].mode)
    requires first.status != Blocked && first.status != Ok && first.startedAt == at.plan
    requires second.status != Blocked && (second.status == Ok <==> answered) && second.startedAt == at.again
    ensures Matches([first] + [second], calls, answered, at)
    ensures Matches([first], calls, answered, at) && Matches([], calls, answered, at)
  {
  }

  // The three ways a run goes, each with what it writes.
  lemma RefusedWrites(b: Book, t: Turn)
    requires Taken(b, t).calls == []
    ensures Taken(b, t).book.log == b.log + Added(b, t) && |Added(b, t)| <= 1
    ensures TrimSpace(KindOf(t)) != "" ==> |Added(b, t)| == 1
    ensures forall i :: 0 <= i < |Added(b, t)| ==> Added(b, t)[i].status == Blocked && Added(b, t)[i].kind == KindOf(t)
  {
    hide Tripped, PlanFor, Finishing, BgRunner.Failing, TrimSpace;
    TripsBeforeTheRun(b.log, KindOf(t), t.since, t.req.limits);
  }

  lemma OnceWrites(b: Book, t: Turn)
    requires |Taken(b, t).calls| == 1
    ensures var r, added := Taken(b, t), Added(b, t);
      && r.book.log == b.log + added && |added| + Lost(b, t) == 1 && Matches(added, r.calls, r.err.None?, t.at)
      && (forall i :: 0 <= i < |added| ==> added[i].kind == KindOf(t))
  {
    hide Tripped, PlanFor, Answered, Storable, Finishing, EndRow, Grounded, OutcomeOf, FallbackReason, RanOut,
      TimeoutStop, TrimSpace, Matches, BgRunner.Failing;
    var plan := PlanFor(b.rows, t.req.key, t.req.policy, t.caps, t.at.plan);
    var call := CallFor(t.req, plan);
    var reply := t.exec(0, call);
    PlansAreGrounded(b.rows, t.req.key, t.req.policy, t.caps, t.at.plan);
    PlanKey(b, t);
    FinishWrites(b, t.req, plan, reply, t.at, t.ctxDone);
    EndRowIs(t.req, plan, reply, t.at);
    OneMatches(EndRow(t.req, plan, reply, t.at), call, reply.err.None?, t.at);
  }

  // The two calls of a run that falls back, and what its end leaves.
  lemma TwiceIs(b: Book, t: Turn)
    requires |Taken(b, t).calls| == 2
    ensures var r := Taken(b, t);
      var plan := PlanFor(b.rows, t.req.key, t.req.policy, t.caps, t.at.plan);
      var reply := t.exec(0, CallFor(t.req, plan));
      && reply.err.Some? && Grounded(plan) && plan.key == t.req.key && plan.started == t.at.plan
      && var again := FallbackPlan(plan, FallbackReason(reply.err.value), t.at.again);
        var last := t.exec(1, CallFor(t.req, again));
        var first := BgRunner.Failing(b, plan, reply.err.value, true, t.at.fail);
        && Grounded(again) && r.plan == Some(again) && r.calls == [CallFor(t.req, plan), CallFor(t.req, again)]
        && r.book == Finishing(first, t.req, again, last, t.at, t.ctxDone)
        && (r.err.None? <==> last.err.None?) && LastReply(t, r) == last
  {
    hide Tripped, PlanFor, Finishing, BgRunner.Failing, Grounded, RanOut, TimeoutStop;
    PlansAreGrounded(b.rows, t.req.key, t.req.policy, t.caps, t.at.plan);
    PlanKey(b, t);
  }

  lemma TwiceWrites(b: Book, t: Turn)
    requires |Taken(b, t).calls| == 2
    ensures var r, added := Taken(b, t), Added(b, t);
      && r.book.log == b.log + added && |added| + Lost(b, t) == 2 && Matches(added, r.calls, r.err.None?, t.at)
      && (forall i :: 0 <= i < |added| ==> added[i].kind == KindOf(t))
  {
    hide Taken, Tripped, PlanFor, Answered, Storable, Finishing, EndRow, Grounded, OutcomeOf, FallbackReason, TrimSpace,
      Matches, BgRunner.Failing, FailedRow, LastReply;
    var plan := PlanFor(b.rows, t.req.key, t.req.policy, t.caps, t.at.plan);
    TwiceIs(b, t);
    var cause := t.exec(0, CallFor(t.req, plan)).err.value;
    var again := FallbackPlan(plan, FallbackReason(cause), t.at.again);
    var reply := t.exec(1, CallFor(t.req, again));
    TwoRows(b, t.req, plan, cause, again, reply, t.at, t.ctxDone);
    FirstRowIs(plan, cause, t.at.fail);
    EndRowIs(t.req, again, reply, t.at);
    var first, second := FailedRow(plan, cause, t.at.fail), EndRow(t.req, again, reply, t.at);
    TwoMatch(first, second, [CallFor(t.req, plan), CallFor(t.req, again)], reply.err.None?, t.at);
    assert b.log + [first] + [second] == b.log + ([first] + [second]);
  }

  /** A run writes one log row per call, in the mode of the call, and only the last one can be a
      success; a refused run writes one blocked row. The last call of a run the book does not take
      leaves no row, and under a blank kind none does. */
  lemma RunWrites(b: Book, t: Turn)
    ensures var r, added := Taken(b, t), Added(b, t);
      && r.book.log == b.log + added
      && (r.calls == [] ==> |added| <= 1 && forall i :: 0 <= i < |added| ==> added[i].status == Blocked)
      && (r.calls == [] && TrimSpace(KindOf(t)) != "" ==> |added| == 1)
      && (r.calls != [] ==> |added| + Lost(b, t) == |r.calls| && Matches(added, r.calls, r.err.None?, t.at))
      && (forall i :: 0 <= i < |added| ==> added[i].kind == KindOf(t))
  {
    RunAsks(b, t);
    if |Taken(b, t).calls| == 0 {
      RefusedWrites(b, t);
    } else if |Taken(b, t).calls| == 1 {
      OnceWrites(b, t);
    } else {
      TwiceWrites(b, t);
    }
    hide Taken, Added, Matches;
  }

  // The row of the failed continuation, then the one of the fresh attempt.
  lemma TwoRows(b: Book, req: Request, plan: Plan, cause: Error, again: Plan, reply: Reply, at: Clock, ctxDone: bool)
    requires Grounded(again) && plan.key == again.key == req.key
    ensures var first := BgRunner.Failing(b, plan, cause, true, at.fail);
      var rows := [FailedRow(plan, cause, at.fail)];
      Finishing(first, req, again, reply, at, ctxDone).log ==
        if TrimSpace(req.key.scope.kind) == "" then b.log
        else if Takes(req, again, reply, at) then b.log + rows + [EndRow(req, again, reply, at)]
        else b.log + rows
  {
    hide Finishing, EndRow, Grounded, Retire, TrimSpace, Answered, Storable;
    var first := BgRunner.Failing(b, plan, cause, true, at.fail);
    FinishWrites(first, req, again, reply, at, ctxDone);
    assert FailedRow(plan, cause, at.fail).kind == req.key.scope.kind;
  }

  lemma TripsBeforeTheRun(log: seq<LogRow>, kind: string, since: int, lim: Limits)
    ensures var stop := Tripped(log, kind, since, lim); stop.Some? ==> stop.value.reason != Timeout
  {
  }

  lemma PlanKey(b: Book, t: Turn)
    ensures var p := PlanFor(b.rows, t.req.key, t.req.policy, t.caps, t.at.plan);
      p.key == t.req.key && p.started == t.at.plan
  {
  }

  // A run the daily limit counts.
  predicate Counted(r: LogRow, kind: string, since: int) {
    r.kind == kind && r.startedAt >= since && r.status != Blocked
  }

  lemma {:induction false} RunsAdd(log: seq<LogRow>, more: seq<LogRow>, kind: string, since: int)
    ensures var n := Runs(log + more, kind, since) - Runs(log, kind, since);
      && 0 <= n <= |more|
      && ((forall i :: 0 <= i < |more| ==> Counted(more[i], kind, since)) ==> n == |more|)
      && ((forall i :: 0 <= i < |more| ==> !Counted(more[i], kind, since)) ==> n == 0)
  {
    if more == [] {
      assert log + more == log;
    } else {
      var n := |more| - 1;
      RunsAdd(log, more[..n], kind, since);
      assert (log + more)[..|log + more| - 1] == log + more[..n];
    }
  }

  // The run's clock does not run back behind the start of its day.
  predicate Today(t: Turn) { t.since <= t.at.plan && t.since <= t.at.again }

  /** Every call is a run the daily limit counts, except those that leave no row. */
  lemma CallsAreCounted(b: Book, t: Turn)
    requires Today(t)
    ensures Runs(Taken(b, t).book.log, KindOf(t), t.since) + Lost(b, t) ==
      Runs(b.log, KindOf(t), t.since) + |Taken(b, t).calls|
  {
    hide Taken, Recordable, Runs, Added, TrimSpace;
    RunWrites(b, t);
    RunsAdd(b.log, Added(b, t), KindOf(t), t.since);
  }

  /** At the limit no run starts. One run takes the logged runs past the limit, and then by one, exactly
      when it starts one short of it, falls back, and the book takes both its calls. */
  lemma CapOfOneRun(b: Book, t: Turn)
    requires t.req.limits.dailyRuns > 0 && Today(t)
    ensures var before, after := Runs(b.log, KindOf(t), t.since), Runs(Taken(b, t).book.log, KindOf(t), t.since);
      var limit, calls := t.req.limits.dailyRuns, |Taken(b, t).calls|;
      && after + Lost(b, t) == before + calls
      && (before >= limit ==> calls == 0)
      && (after > limit <==> before > limit || (before == limit - 1 && calls == 2 && Recordable(b, t)))
      && (after > limit && before <= limit ==> after == limit + 1)
  {
    hide Taken, Recordable, Runs, TrimSpace;
    CallsAreCounted(b, t);
    LimitTrips(b, t);
  }

  lemma LimitTrips(b: Book, t: Turn)
    ensures var limit := t.req.limits.dailyRuns;
      limit > 0 && Runs(b.log, KindOf(t), t.since) >= limit ==> Taken(b, t).calls == []
    ensures |Taken(b, t).calls| <= 2
  {
    hide PlanFor, Finishing, BgRunner.Failing;
  }

  function Day(b: Book, turns: seq<Turn>): Book
    decreases |turns|
  {
    if turns == [] then b else Day(Taken(b, turns[0]).book, turns[1..])
  }

  // The kind's runs of the day read one limit.
  predicate Agrees(t: Turn, kind: string, since: int, limit: int) {
    KindOf(t) == kind ==> t.since == since && t.req.limits.dailyRuns == limit
  }

  /** Of runs one after another, of this kind and others, the log counts at most one past the day's
      limit. */
  lemma {:induction false} CapOverADay(b: Book, turns: seq<Turn>, kind: string, since: int, limit: nat)
    requires limit > 0 && forall i :: 0 <= i < |turns| ==> Agrees(turns[i], kind, since, limit)
    requires Runs(b.log, kind, since) <= limit + 1
    ensures Runs(Day(b, turns).log, kind, since) <= limit + 1
    decreases |turns|
  {
    hide Taken, Runs, Agrees;
    if turns != [] {
      CapOfOneTurn(b, turns[0], kind, since, limit);
      CapOverADay(Taken(b, turns[0]).book, turns[1..], kind, since, limit);
    }
  }

  // The calls the runs of the kind made, and those of them that left no row.
  function Made(b: Book, turns: seq<Turn>, kind: string): nat
    decreases |turns|
  {
    if turns == [] then 0
    else
      var rest := Made(Taken(b, turns[0]).book, turns[1..], kind);
      if KindOf(turns[0]) == kind then |Taken(b, turns[0]).calls| + rest else rest
  }

  ghost function LostOver(b: Book, turns: seq<Turn>, kind: string): nat
    decreases |turns|
  {
    if turns == [] then 0
    else
      var rest := LostOver(Taken(b, turns[0]).book, turns[1..], kind);
      if KindOf(turns[0]) == kind then Lost(b, turns[0]) + rest else rest
  }

  /** Over any sequence of runs the log counts the calls made, less those the book did not take. */
  lemma {:induction false} CallsOverADay(b: Book, turns: seq<Turn>, kind: string, since: int)
    requires forall i :: 0 <= i < |turns| && KindOf(turns[i]) == kind ==> turns[i].since == since && Today(turns[i])
    ensures Runs(Day(b, turns).log, kind, since) + LostOver(b, turns, kind) ==
      Runs(b.log, kind, since) + Made(b, turns, kind)
    decreases |turns|
  {
    hide Taken, Runs, Lost, Today;
    if turns != [] {
      var next := Taken(b, turns[0]).book;
      CallsOverADay(next, turns[1..], kind, since);
      if KindOf(turns[0]) == kind {
        CallsAreCounted(b, turns[0]);
      } else {
        OthersAreNotCounted(b, turns[0], kind, since);
      }
    }
  }

  lemma OthersAreNotCounted(b: Book, t: Turn, kind: string, since: int)
    requires KindOf(t) != kind
    ensures Runs(Taken(b, t).book.log, kind, since) == Runs(b.log, kind, since)
  {
    hide Taken, Added, Runs, Lost, Matches, TrimSpace;
    RunWrites(b, t);
    RunsAdd(b.log, Added(b, t), kind, since);
  }

  /** The calls of a day pass the limit by at most one and those the book did not take: by at most one
      when it took them all. */
  lemma StartsOverADay(b: Book, turns: seq<Turn>, kind: string, since: int, limit: nat)
    requires limit > 0 && Runs(b.log, kind, since) <= limit + 1
    requires forall i :: 0 <= i < |turns| ==> Agrees(turns[i], kind, since, limit)
    requires forall i :: 0 <= i < |turns| && KindOf(turns[i]) == kind ==> Today(turns[i])
    ensures Runs(b.log, kind, since) + Made(b, turns, kind) <= limit + 1 + LostOver(b, turns, kind)
  {
    hide Today, Runs, Day, Made, LostOver;
    CapOverADay(b, turns, kind, since, limit);
    CallsOverADay(b, turns, kind, since);
  }

  // The agent answers every first call, with a session id that is only white space.
  ghost predicate AnswersBlank(t: Turn) {
    forall call :: var r := t.exec(0, call); r.err.None? && r.answer.sid != "" && TrimSpace(r.answer.sid) == ""
  }

  /** The calls the book does not take are without bound: below every limit, a run whose answer has a
      blank session id calls the agent, leaves the book as it was, and can be repeated any number of
      times. */
  lemma {:induction false} BlankAnswersAreUnlimited(b: Book, t: Turn, n: nat)
    requires Tripped(b.log, KindOf(t), t.since, t.req.limits).None? && AnswersBlank(t)
    ensures var turns := seq(n, _ => t);
      Day(b, turns) == b && Made(b, turns, KindOf(t)) == n == LostOver(b, turns, KindOf(t))
  {
    hide Taken, Tripped, AnswersBlank, Lost;
    if n > 0 {
      BlankAnswerIsLost(b, t);
      BlankAnswersAreUnlimited(b, t, n - 1);
      assert seq(n, _ => t)[1..] == seq(n - 1, _ => t);
    }
  }

  lemma BlankAnswerIsLost(b: Book, t: Turn)
    requires Tripped(b.log, KindOf(t), t.since, t.req.limits).None? && AnswersBlank(t)
    ensures Taken(b, t).book == b && |Taken(b, t).calls| == 1 == Lost(b, t)
  {
    hide Tripped, PlanFor, TrimSpace, LocalId, Snapshot;
  }

  lemma CapOfOneTurn(b: Book, t: Turn, kind: string, since: int, limit: nat)
    requires limit > 0 && Agrees(t, kind, since, limit) && Runs(b.log, kind, since) <= limit + 1
    ensures Runs(Taken(b, t).book.log, kind, since) <= limit + 1
  {
    hide Taken, Runs, Added;
    AddedAtMost(b, t);
    LimitTrips(b, t);
    RunsAdd(b.log, Added(b, t), kind, since);
  }

  // A refused run adds nothing that counts, and no run adds more rows than it makes calls, or rows
  // of another kind.
  lemma AddedAtMost(b: Book, t: Turn)
    ensures Taken(b, t).book.log == b.log + Added(b, t)
    ensures Taken(b, t).calls == [] ==> forall i :: 0 <= i < |Added(b, t)| ==> Added(b, t)[i].status == Blocked
    ensures Taken(b, t).calls != [] ==> |Added(b, t)| <= |Taken(b, t).calls|
    ensures forall i :: 0 <= i < |Added(b, t)| ==> Added(b, t)[i].kind == KindOf(t)
  {
    hide Taken, Added, Lost, Matches;
    RunWrites(b, t);
  }
}
