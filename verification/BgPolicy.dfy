/** The rotation rule of the background agents: before every run it decides whether the recorded
    session is continued, cleared or replaced. */
module BgPolicy {
  import opened BgBook
  import opened GoText

  datatype Mode = Fresh | Resume | ClearContext

  // A zero field disables its rule. The age bound is in nanoseconds.
  datatype Policy = Policy(maxRuns: int, maxContextRatio: real, maxAge: int)

  const SECOND := 1_000_000_000

  datatype Caps = Caps(canResume: bool, canClearContext: bool)

  datatype Session = Session(id: string, lastJobID: string, runs: int, createdAt: int, lastUsedAt: int,
                             contextUsed: int, contextLimit: int)
  {
    // The context fill, when it is known.
    function ContextRatio(): Option<real> {
      if contextLimit <= 0 || contextUsed <= 0 then None else Some(contextUsed as real / contextLimit as real)
    }
  }

  function SessionFrom(b: Row): Session {
    Session(b.sid, b.lastJobID, b.runs, b.createdAt, b.lastUsedAt, b.contextUsed, b.contextLimit)
  }

  datatype Decision = Decision(mode: Mode, reason: Reason, session: Option<Session>, rotated: bool)

  function OpenFresh(reason: Reason): Decision { Decision(Fresh, reason, None, false) }

  function Rotate(caps: Caps, rec: Session, reason: Reason): Decision {
    if caps.canClearContext then Decision(ClearContext, reason, Some(rec), true)
    else Decision(Fresh, reason, None, true)
  }

  function Decide(policy: Policy, caps: Caps, now: int, active: Option<Row>, reset: bool, otherBinding: bool)
    : Decision
  {
    if active.None? then
      if reset then OpenFresh(ManualReset)
      else if otherBinding then OpenFresh(KeyChanged)
      else OpenFresh(NoReason)
    else
      var rec := SessionFrom(active.value);
      if !caps.canResume then OpenFresh(NotResumable)
      else
        var ratio := rec.ContextRatio();
        if ratio.Some? && policy.maxContextRatio > 0.0 && ratio.value >= policy.maxContextRatio
        then Rotate(caps, rec, ContextReached)
        else if policy.maxRuns > 0 && rec.runs >= policy.maxRuns then Rotate(caps, rec, RunsReached)
        else if policy.maxAge > 0 && now - rec.createdAt >= policy.maxAge / SECOND then Rotate(caps, rec, AgeReached)
        else Decision(Resume, NoReason, Some(rec), false)
  }

  // The session is below every limit that is on: the fill in tokens, the runs, the age in
  // whole seconds.
  ghost predicate Below(policy: Policy, now: int, rec: Row) {
    && (rec.contextUsed > 0 && rec.contextLimit > 0 && policy.maxContextRatio > 0.0 ==>
          rec.contextUsed as real < policy.maxContextRatio * rec.contextLimit as real)
    && (policy.maxRuns > 0 ==> rec.runs < policy.maxRuns)
    && (policy.maxAge > 0 ==> (now - rec.createdAt + 1) * SECOND <= policy.maxAge)
  }

  /** A session is continued exactly when one is recorded, the agent can resume and every enabled
      limit is still ahead. It is rotated exactly when only a limit stands against it, and kept
      in place exactly when the agent can clear it. */
  lemma DecidesByTheLimits(policy: Policy, caps: Caps, now: int, active: Option<Row>, reset: bool, otherBinding: bool)
    ensures var d := Decide(policy, caps, now, active, reset, otherBinding);
      var held := active.Some? && caps.canResume;
      && (d.mode == Resume <==> held && Below(policy, now, active.value))
      && (d.rotated <==> held && !Below(policy, now, active.value))
      && (d.mode == ClearContext <==> d.rotated && caps.canClearContext)
      && (d.mode != Fresh ==> d.session == Some(SessionFrom(active.value)))
  {
    if active.Some? {
      var r := active.value;
      if r.contextUsed > 0 && r.contextLimit > 0 {
        RatioInTokens(r.contextUsed, r.contextLimit, policy.maxContextRatio);
      }
      if policy.maxAge > 0 {
        AgeInSeconds(policy.maxAge, now - r.createdAt);
      }
    }
  }

  lemma RatioInTokens(used: int, limit: int, ratio: real)
    requires limit > 0
    ensures used as real / limit as real >= ratio <==> used as real >= ratio * limit as real
  {
    var q := used as real / limit as real;
    assert q * limit as real == used as real;
    if q >= ratio {
      assert (q - ratio) * limit as real >= 0.0;
    } else {
      assert (ratio - q) * limit as real > 0.0;
    }
  }

  lemma AgeInSeconds(maxAge: int, age: int)
    ensures age >= maxAge / SECOND <==> (age + 1) * SECOND > maxAge
  {
  }

  /** Loosening a limit, freeing context or forgetting time never ends a session that would have
      been continued. */
  lemma LooseningKeepsTheSession(policy: Policy, looser: Policy, caps: Caps, now: int, earlier: int, r: Row,
                                 lighter: Row)
    requires Decide(policy, caps, now, Some(r), false, false).mode == Resume && earlier <= now
    requires looser.maxRuns <= 0 || (0 < policy.maxRuns <= looser.maxRuns)
    requires looser.maxAge <= 0 || (0 < policy.maxAge <= looser.maxAge)
    requires looser.maxContextRatio <= 0.0 || (0.0 < policy.maxContextRatio <= looser.maxContextRatio)
    requires lighter == r.(contextUsed := lighter.contextUsed, runs := lighter.runs)
    requires lighter.contextUsed <= r.contextUsed && lighter.runs <= r.runs
    ensures Decide(looser, caps, earlier, Some(lighter), false, false).mode == Resume
  {
    DecidesByTheLimits(policy, caps, now, Some(r), false, false);
    DecidesByTheLimits(looser, caps, earlier, Some(lighter), false, false);
    if lighter.contextUsed > 0 && lighter.contextLimit > 0 && looser.maxContextRatio > 0.0 {
      assert (looser.maxContextRatio - policy.maxContextRatio) * r.contextLimit as real >= 0.0;
    }
  }

  const RATIO_SCALE := 1_000_000

  // The context fill a level reports: the agent's own ratio first.
  function Fraction(c: Level): Option<real> {
    if c.ratio > 0.0 then Some(c.ratio)
    else if c.limit > 0 && c.used > 0 then Some(c.used as real / c.limit as real)
    else None
  }

  function Round(x: real): int
    requires x >= 0.0
  {
    (x + 0.5).Floor
  }

  // The level a run leaves on its session, 0 for an unknown figure.
  function Snapshot(u: Option<Usage>): (int, int) {
    if u.None? || u.value.context.None? then (0, 0)
    else
      var c := u.value.context.value;
      var fill := Fraction(c);
      if fill.Some? && c.limit <= 0 then (Round(fill.value * RATIO_SCALE as real), RATIO_SCALE)
      else (c.used, c.limit)
  }

  /** The stored pair reproduces the reported fill, to half a millionth, exactly when the agent
      reported no ratio of its own, or no window beside a ratio that does not round to nothing,
      or token figures that agree with its ratio. */
  lemma SnapshotReproducesTheFill(u: Usage, s: Session)
    requires u.context.Some? && Fraction(u.context.value).Some?
    requires (s.contextUsed, s.contextLimit) == Snapshot(Some(u))
    ensures var c := u.context.value; var fill := Fraction(c).value;
      (s.ContextRatio().Some? && -0.0000005 <= s.ContextRatio().value - fill <= 0.0000005) <==>
        || c.ratio <= 0.0
        || (c.limit <= 0 && c.ratio >= 0.0000005)
        || (c.limit > 0 && c.used > 0 && -0.0000005 <= c.used as real / c.limit as real - c.ratio <= 0.0000005)
  {
    var c := u.context.value;
    if c.ratio > 0.0 && c.limit <= 0 {
      var scaled := c.ratio * RATIO_SCALE as real;
      var used := Round(scaled);
      assert scaled - 0.5 < used as real <= scaled + 0.5;
      assert s.ContextRatio().Some? ==> s.ContextRatio().value == used as real / 1000000.0;
    }
  }

  /** The reason of a decision names the rule behind it: of the limits the first that is reached, context,
      runs, age; without a session what became of the last one. */
  lemma ReasonNamesTheRule(policy: Policy, caps: Caps, now: int, active: Option<Row>, reset: bool, otherBinding: bool)
    ensures var d := Decide(policy, caps, now, active, reset, otherBinding);
      && (active.None? ==>
            d.reason == if reset then ManualReset else if otherBinding then KeyChanged else NoReason)
      && (active.Some? && !caps.canResume ==> d.reason == NotResumable)
      && (active.Some? && caps.canResume ==>
            var r := active.value;
            var full := r.contextUsed > 0 && r.contextLimit > 0 && policy.maxContextRatio > 0.0 &&
              r.contextUsed as real >= policy.maxContextRatio * r.contextLimit as real;
            var many := 0 < policy.maxRuns <= r.runs;
            && (d.reason == ContextReached <==> full)
            && (d.reason == RunsReached <==> !full && many)
            && (d.reason == AgeReached <==> !full && !many && !Below(policy, now, r))
            && (d.reason == NoReason <==> Below(policy, now, r)))
  {
    if active.Some? {
      var r := active.value;
      if r.contextUsed > 0 && r.contextLimit > 0 {
        RatioInTokens(r.contextUsed, r.contextLimit, policy.maxContextRatio);
      }
      if policy.maxAge > 0 {
        AgeInSeconds(policy.maxAge, now - r.createdAt);
      }
    }
  }
}
