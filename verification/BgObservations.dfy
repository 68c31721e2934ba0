/** An observation reads a session and later writes the whole row back. What it wrote over in between,
    and exactly when that is harmless. */
module BgObservations {
  import opened BgBook
  import opened BgPolicy
  import opened BgProtocol
  import opened BgResets
  import opened BgRunner
  import opened GoText

  // Whether an observation has anything to write.
  predicate Writes(seen: Row, sid: string, usage: Option<Usage>) {
    || (usage.Some? && (Snapshot(usage).1 > 0 || Snapshot(usage).0 > 0))
    || (sid != "" && sid != seen.sid)
  }

  // The same session of the same agent, after the same turn.
  predicate SameTurn(q: Row, r: Row) { q.key == r.key && q.runs == r.runs && q.lastJobID == r.lastJobID }

  // The same turn under the same id, or under the one an observation of seen reports.
  predicate Follows(q: Row, r: Row, seen: Row, reported: string) {
    SameTurn(q, r) && (q.sid == r.sid || (q.key == seen.key && q.sid == seen.sid && r.sid == reported))
  }

  // Every session that is live after was live before.
  ghost predicate NoneAppears(before: seq<Row>, after: seq<Row>, seen: Row, reported: string) {
    forall r :: r in after && Live(r) ==> exists q :: q in before && Live(q) && Follows(q, r, seen, reported)
  }

  // Every session that was live before is live after.
  ghost predicate NoneEnds(before: seq<Row>, after: seq<Row>, seen: Row, reported: string) {
    forall q :: q in before && Live(q) ==> exists r :: r in after && Live(r) && Follows(q, r, seen, reported)
  }

  // No id of a session that had ended is a live one's.
  ghost predicate NoneRevives(before: seq<Row>, after: seq<Row>) {
    forall q, r :: q in before && !Live(q) && r in after && SameId(q, r) ==> !Live(r)
  }

  ghost predicate Stands(before: seq<Row>, after: seq<Row>, seen: Row, reported: string) {
    && NoneAppears(before, after, seen, reported)
    && NoneEnds(before, after, seen, reported)
    && NoneRevives(before, after)
  }

  ghost predicate StillThere(rows: seq<Row>, seen: Row, reported: string) {
    exists q :: q in rows && Live(q) && SameTurn(q, seen) && (q.sid == seen.sid || q.sid == reported)
  }

  // The id the write goes to is free, or is the session as it was read.
  ghost predicate FreeFor(rows: seq<Row>, seen: Row, back: Row) {
    forall q :: q in rows && SameId(q, back) ==> Live(q) && SameTurn(q, seen)
  }

  /** The write-back of an observation leaves every turn and every reset of every scope standing exactly
      when it has nothing to write, the store refuses it, or the session is still on the book as it was
      read and the id to write is no other session's: a check the observation could make before it
      writes. */
  lemma FoldIsHarmlessExactly(policy: Policy, s: World, id: nat, sid: string, usage: Option<Usage>)
    requires Inv(policy, s) && id in s.held
    ensures var seen := s.held[id];
      var back := Refreshed(seen, sid, usage);
      Stands(s.rows, Next(policy, s, Fold(id, sid, usage)).rows, seen, back.sid) <==>
        || !Writes(seen, sid, usage)
        || !Storable(back)
        || (StillThere(s.rows, seen, back.sid) && FreeFor(s.rows, seen, back))
  {
    hide Snapshot, Replace, Tidy, Storable, RunOk, Stands, StillThere, FreeFor;
    var seen := s.held[id];
    assert HeldOk(seen, policy.maxRuns);
    var back, after := Refreshed(seen, sid, usage), Next(policy, s, Fold(id, sid, usage)).rows;
    BackIsTheSameTurn(seen, sid, usage);
    if Writes(seen, sid, usage) && Storable(back) {
      assert after == Replace(s.rows, back);
      WriteOfOne(s.rows, back);
      if StillThere(s.rows, seen, back.sid) && FreeFor(s.rows, seen, back) {
        WrittenStands(s.rows, after, seen, Stored(back));
      }
      if Stands(s.rows, after, seen, back.sid) {
        WrittenStood(s.rows, after, seen, Stored(back));
      }
    } else {
      UnwrittenStands(s.rows, seen, back.sid);
      if !Storable(back) {
        RefusedKeeps(s.rows, back);
      }
    }
  }

  lemma BackIsTheSameTurn(seen: Row, sid: string, usage: Option<Usage>)
    ensures var back := Refreshed(seen, sid, usage);
      && SameTurn(Stored(back), seen) && Stored(back).sid == back.sid && back.key == seen.key
      && (Live(seen) <==> Live(Stored(back)))
  {
    hide Snapshot;
  }

  lemma UnwrittenStands(rows: seq<Row>, seen: Row, reported: string)
    requires Tidy(rows)
    ensures Stands(rows, rows, seen, reported)
  {
    SameIdIsSame(rows);
    assert forall r :: r in rows ==> Follows(r, r, seen, reported);
  }

  lemma SameIdIsSame(rows: seq<Row>)
    requires Unique(rows)
    ensures forall q, r :: q in rows && r in rows && SameId(q, r) ==> q == r
  {
    forall q, r | q in rows && r in rows && SameId(q, r)
      ensures q == r
    {
      var i :| 0 <= i < |rows| && rows[i] == q;
      var j :| 0 <= j < |rows| && rows[j] == r;
      assert SameId(rows[i], rows[j]) && SameId(rows[j], rows[i]);
    }
  }

  lemma RivalsAreSame(rows: seq<Row>)
    requires OneActive(rows)
    ensures forall q, r :: q in rows && r in rows && Rivals(q, r) ==> q == r
  {
    forall q, r | q in rows && r in rows && Rivals(q, r)
      ensures q == r
    {
      var i :| 0 <= i < |rows| && rows[i] == q;
      var j :| 0 <= j < |rows| && rows[j] == r;
      assert Rivals(rows[i], rows[j]) && Rivals(rows[j], rows[i]);
    }
  }

  // The row b is written over the rows of its id; the other active rows of its scope are retired.
  ghost predicate OneWritten(before: seq<Row>, after: seq<Row>, b: Row) {
    && b in after
    && (forall r :: r in after && Live(r) ==> r == b || (r in before && !SameId(r, b)))
    && (forall q :: q in before && Live(q) ==> q in after || SameId(q, b) || q.key.scope == b.key.scope)
  }

  lemma WriteOfOne(rows: seq<Row>, back: Row)
    requires Tidy(rows) && Storable(back)
    ensures OneWritten(rows, Replace(rows, back), Stored(back))
    ensures forall seen: Row :: FreeFor(rows, seen, back) <==> FreeFor(rows, seen, Stored(back))
  {
    hide Replace, Tidy, Storable;
    ReplaceKeeps(rows, back);
    ReplaceRetains(rows, back);
  }

  // A write of the turn that was read, to an id that is its own or free.
  lemma WrittenStands(before: seq<Row>, after: seq<Row>, seen: Row, b: Row)
    requires Tidy(before) && OneWritten(before, after, b) && Live(b) && SameTurn(b, seen)
    requires StillThere(before, seen, b.sid) && FreeFor(before, seen, b)
    ensures Stands(before, after, seen, b.sid)
  {
    hide Tidy, OneWritten, FreeFor, NoneAppears, NoneEnds, NoneRevives;
    var was :| was in before && Live(was) && SameTurn(was, seen) && (was.sid == seen.sid || was.sid == b.sid);
    NoneAppearsBy(before, after, seen, b, was);
    NoneEndsBy(before, after, seen, b, was);
    NoneRevivesBy(before, after, seen, b);
  }

  lemma NoneAppearsBy(before: seq<Row>, after: seq<Row>, seen: Row, b: Row, was: Row)
    requires OneWritten(before, after, b) && Live(b) && SameTurn(b, seen)
    requires was in before && Live(was) && SameTurn(was, seen) && (was.sid == seen.sid || was.sid == b.sid)
    ensures NoneAppears(before, after, seen, b.sid)
  {
    assert Follows(was, b, seen, b.sid);
    assert forall r :: r in before ==> Follows(r, r, seen, b.sid);
  }

  lemma NoneRevivesBy(before: seq<Row>, after: seq<Row>, seen: Row, b: Row)
    requires Tidy(before) && OneWritten(before, after, b) && FreeFor(before, seen, b)
    ensures NoneRevives(before, after)
  {
    SameIdIsSame(before);
    hide Tidy;
  }

  lemma NoneEndsBy(before: seq<Row>, after: seq<Row>, seen: Row, b: Row, was: Row)
    requires Tidy(before) && OneWritten(before, after, b) && Live(b) && SameTurn(b, seen)
    requires was in before && Live(was) && SameTurn(was, seen) && (was.sid == seen.sid || was.sid == b.sid)
    requires FreeFor(before, seen, b)
    ensures NoneEnds(before, after, seen, b.sid)
  {
    RivalsAreSame(before);
    hide Tidy;
    forall q | q in before && Live(q)
      ensures exists r :: r in after && Live(r) && Follows(q, r, seen, b.sid)
    {
      if q in after {
        assert Follows(q, q, seen, b.sid);
      } else {
        assert SameId(q, b) || Rivals(q, was);
        assert Follows(q, b, seen, b.sid);
      }
    }
  }

  // Conversely, what stands was still there, and no other session had the id.
  lemma WrittenStood(before: seq<Row>, after: seq<Row>, seen: Row, b: Row)
    requires OneWritten(before, after, b) && Live(b) && SameTurn(b, seen) && Stands(before, after, seen, b.sid)
    ensures StillThere(before, seen, b.sid) && FreeFor(before, seen, b)
  {
    hide NoneEnds, NoneRevives, FreeFor;
    WasFree(before, after, seen, b);
    var was :| was in before && Live(was) && Follows(was, b, seen, b.sid);
    assert SameTurn(was, seen);
  }

  lemma WasFree(before: seq<Row>, after: seq<Row>, seen: Row, b: Row)
    requires OneWritten(before, after, b) && Live(b) && SameTurn(b, seen) && Stands(before, after, seen, b.sid)
    ensures FreeFor(before, seen, b)
  {
    hide NoneAppears;
    forall q | q in before && SameId(q, b)
      ensures Live(q) && SameTurn(q, seen)
    {
      var r :| r in after && Live(r) && Follows(q, r, seen, b.sid);
      assert SameId(r, b);
    }
  }

  /** An agent that reports the id of another session takes it over: a reset session of the id is live
      again, and a live one of another scope is gone. */
  lemma RenameTakesTheSession(policy: Policy, s: World, id: nat, q: Row)
    requires Inv(policy, s) && id in s.held && q in s.rows && q.sid != "" && q.sid != s.held[id].sid && Storable(q)
    requires q.key.scope.kind == s.held[id].key.scope.kind
    ensures var seen := s.held[id];
      var after := Next(policy, s, Fold(id, q.sid, None)).rows;
      && (exists r :: r in after && Live(r) && SameId(r, q) && SameTurn(r, seen))
      && (Live(q) && q.key.scope != seen.key.scope ==>
            forall r :: r in after && r.key.scope == q.key.scope ==> !Live(r))
  {
    hide Snapshot, Replace, RunOk, Storable, Unique, OneActive;
    var seen := s.held[id];
    assert HeldOk(seen, policy.maxRuns);
    var back := Refreshed(seen, q.sid, None);
    BackIsTheSameTurn(seen, q.sid, None);
    assert Storable(back) by {
      NamedIsSavable(q, seen.key.scope.kind, q.sid);
      NamedIsSavable(back, seen.key.scope.kind, q.sid);
    }
    ReplaceKeeps(s.rows, back);
    ReplaceRetains(s.rows, back);
    RivalsAreSame(s.rows);
    assert SameId(Stored(back), q);
  }

  /** An observation writes back the turn it read: the turns committed between its two halves are no
      longer counted, and the session is again the one of the observed job. */
  lemma StaleObservationForgetsTurns(policy: Policy, s: World, id: nat, usage: Usage)
    requires Inv(policy, s) && id in s.held && Storable(s.held[id])
    requires Snapshot(Some(usage)).0 > 0 || Snapshot(Some(usage)).1 > 0
    ensures var seen := s.held[id];
      var now := ActiveFor(Next(policy, s, Fold(id, "", Some(usage))).rows, seen.key);
      && now.Some? && now.value.runs == seen.runs && now.value.lastJobID == seen.lastJobID && now.value.sid == seen.sid
  {
    hide Replace, Tidy, Snapshot, Storable, RunOk;
    var seen := s.held[id];
    assert HeldOk(seen, policy.maxRuns);
    var back := Refreshed(seen, "", Some(usage));
    assert Storable(back) by {
      StorableBy(seen, back);
    }
    ReadsBack(s.rows, back);
  }

  lemma StorableBy(a: Row, b: Row)
    requires Storable(a) && a.key == b.key && a.sid == b.sid
    ensures Storable(b)
  {
  }

  // A session with one turn behind it, and a run and an observation that overlap.
  const POLICY := Policy(20, 0.7, 0)
  const KEY := Key(Scope("steward", "site", "/srv"), "claude", "opus")
  const OPENED := Row(KEY, "s1", 0, 0, 1, 0, 0, None, Active, false, "job1", NoReason)
  const ENTER := Enter(KEY, Caps(true, false), Limits(0, 0.0, 0, 0), 0, 10)
  const FINISH := Finish(0, Outcome("job2", "", None, None, 0, 0), 20)
  const FOLD := Fold(0, "", Some(A_TOKEN))

  ghost predicate Counts(rows: seq<Row>, runs: int, jobID: string) {
    var r := ActiveFor(rows, KEY);
    r.Some? && r.value.runs == runs && r.value.lastJobID == jobID
  }

  // The worlds the run passes through.
  const START := World([OPENED], [], [], map[])
  const ENTERED := START.(runs := [Seeking(KEY, Caps(true, false), 10, SeekBound)])
  const PLAN := Plan(KEY, Decision(Resume, NoReason, Some(SessionFrom(OPENED)), false), 10, POLICY, Some(OPENED))
  const PLANNED := START.(runs := [Planned(PLAN)])
  const HELD := PLANNED.(held := map[0 := OPENED])
  const COMMITTED := OPENED.(lastUsedAt := 20, runs := 2, lastJobID := "job2")

  lemma StartIsSound()
    ensures Inv(POLICY, START) && ActiveFor(START.rows, KEY) == Some(OPENED)
  {
    assert OPENED in START.rows;
  }

  lemma RunIsPlanned()
    ensures Enabled(START, ENTER) && Next(POLICY, START, ENTER) == ENTERED
    ensures Enabled(ENTERED, Seek(0)) && Next(POLICY, ENTERED, Seek(0)) == PLANNED
    ensures Enabled(PLANNED, Look(0, KEY, "job1")) && Next(POLICY, PLANNED, Look(0, KEY, "job1")) == HELD
  {
    hide Inv, OtherBound;
    StartIsSound();
    assert Decide(POLICY, Caps(true, false), 10, Some(OPENED), false, false) == PLAN.decision;
  }

  lemma RunCommits()
    ensures Enabled(HELD, FINISH) && Next(POLICY, HELD, FINISH).rows == Replace([OPENED], COMMITTED)
    ensures Next(POLICY, HELD, FINISH).held == map[0 := OPENED]
    ensures Storable(COMMITTED) && Storable(OPENED)
  {
    hide Replace, Decide, AnsweredRow, TrimSpace;
    PlainIsText();
    assert Answered(PLAN, FINISH.outcome, 20) == COMMITTED;
  }

  /** Such an overlap loses a turn: the session counts one turn, two after the run commits, and one
      again once the observation writes back the row it had read before. */
  lemma ATurnIsLost()
    ensures var commit := [ENTER, Seek(0), Look(0, KEY, "job1"), FINISH];
      && Inv(POLICY, START) && Counts(START.rows, 1, "job1")
      && Runnable(POLICY, START, commit) && Counts(After(POLICY, START, commit).rows, 2, "job2")
      && Runnable(POLICY, START, commit + [FOLD]) && Counts(After(POLICY, START, commit + [FOLD]).rows, 1, "job1")
  {
    hide Inv, Next, Runnable, After, Replace, ActiveFor, Storable, Decide;
    StartIsSound();
    RunIsPlanned();
    RunCommits();
    var committed := Next(POLICY, HELD, FINISH);
    FourSteps(POLICY, START, ENTER, Seek(0), Look(0, KEY, "job1"), FINISH);
    CommitCounts();
    FoldForgets(committed);
    OneStep(POLICY, committed, FOLD);
    RunsAppend(POLICY, START, [ENTER, Seek(0), Look(0, KEY, "job1"), FINISH], [FOLD]);
  }

  lemma CommitCounts()
    ensures Tidy(Replace([OPENED], COMMITTED)) && Counts(Replace([OPENED], COMMITTED), 2, "job2")
  {
    hide Replace, ActiveFor, Storable;
    RunCommits();
    OneRowIsTidy(OPENED);
    ReplaceKeeps([OPENED], COMMITTED);
    ReadsBack([OPENED], COMMITTED);
  }

  lemma FoldForgets(s: World)
    requires s.rows == Replace([OPENED], COMMITTED) && s.held == map[0 := OPENED]
    ensures Enabled(s, FOLD) && Counts(Next(POLICY, s, FOLD).rows, 1, "job1")
  {
    hide Replace, ActiveFor, Tidy, Storable;
    RunCommits();
    CommitCounts();
    var back := Refreshed(OPENED, "", Some(A_TOKEN));
    StorableBy(OPENED, back);
    ReadsBack(s.rows, back);
  }

  lemma OneRowIsTidy(r: Row)
    ensures Tidy([r])
  {
  }

  lemma PlainIsText()
    ensures TrimSpace("steward") != "" && TrimSpace("s1") != ""
  {
    assert TrimLeft("steward") == "steward" && TrimRight("steward") == "steward";
    assert TrimLeft("s1") == "s1" && TrimRight("s1") == "s1";
  }
}
