/** The agent registry: a configuration and the availability found for it, behind one reference that
    reloads store and a warm-up may only compare and swap. */
module AgentRegistry {
  import opened GoText
  import opened AgentResolve

  // Completing an entry from the built-in tables; it never changes the entry's kind.
  type Defaults = (string, AgentConfig) -> AgentConfig

  ghost predicate KeepsKind(defaults: Defaults) {
    forall key, ac :: defaults(key, ac).kind == ac.kind
  }

  // An agent as it runs: declared and completed, or the built-in exec agent.
  function ResolveAgent(cfg: Option<Agents>, key: string, defaults: Defaults): Option<AgentConfig> {
    if cfg.Some? && key in cfg.value then
      var ac := cfg.value[key];
      Some(defaults(key, if key == EXEC && ac.kind == "" then ac.(kind := EXEC) else ac))
    else if key == EXEC then Some(BUILTIN_EXEC)
    else None
  }

  function Names(cfg: Option<Agents>): set<string> { (if cfg.Some? then cfg.value.Keys else {}) + {EXEC} }

  // What a warm-up asks the detector about.
  function Asked(cfg: Option<Agents>, defaults: Defaults): Agents {
    map name | name in Names(cfg) && ResolveAgent(cfg, name, defaults).Some? :: ResolveAgent(cfg, name, defaults).value
  }

  const BUILTIN := DetectResult(true, "builtin", "")
  const UNREPORTED := DetectResult(false, "", "")

  // The availability answered for one agent.
  function Verdict(ac: AgentConfig, name: string, avail: Detected): DetectResult {
    if ac.kind == EXEC then BUILTIN else if name in avail then avail[name] else UNREPORTED
  }

  function Report(cfg: Option<Agents>, avail: Detected, defaults: Defaults): Detected {
    map name | name in Names(cfg) && ResolveAgent(cfg, name, defaults).Some? ::
      Verdict(ResolveAgent(cfg, name, defaults).value, name, avail)
  }

  /** Every agent of the configuration and no other is reported; an exec agent, the built-in one
      first of all, is available and built in whatever the cache says, and any other is reported
      exactly as detected, version and error included, or unavailable when it was not. */
  lemma ReportIsFaithful(cfg: Option<Agents>, avail: Detected, defaults: Defaults, name: string)
    requires KeepsKind(defaults)
    ensures var out := Report(cfg, avail, defaults); var declared := cfg.Some? && name in cfg.value;
      var exec := if declared then cfg.value[name].kind == EXEC || (name == EXEC && cfg.value[name].kind == "")
                  else name == EXEC;
      && (name in out <==> declared || name == EXEC)
      && (exec ==> out[name] == DetectResult(true, "builtin", ""))
      && (declared && !exec ==> out[name] == if name in avail then avail[name] else DetectResult(false, "", ""))
  {
  }

  // The entry an agent runs with: a nameless kind under exec is exec's, then the defaults complete it.
  function Completed(name: string, ac: AgentConfig, defaults: Defaults): AgentConfig {
    defaults(name, AgentConfig(if name == EXEC && ac.kind == "" then EXEC else ac.kind, ac.command, ac.rest))
  }

  /** A warm-up asks about every declared agent, completed, and about exec, and what is then reported of
      an agent that is not exec's is what a detector that looks at each by itself finds of its entry. */
  lemma WarmUpReportsEach(cfg: Option<Agents>, verdict: (string, AgentConfig) -> Option<DetectResult>,
                          defaults: Defaults, name: string)
    requires KeepsKind(defaults)
    ensures var asked := Asked(cfg, defaults); var declared := cfg.Some? && name in cfg.value;
      && (name in asked <==> declared || name == EXEC)
      && (declared ==> asked[name] == Completed(name, cfg.value[name], defaults))
      && (!declared && name == EXEC ==> asked[name] == AgentConfig("exec", "", ""))
      && (declared && asked[name].kind != EXEC ==>
           var found := verdict(name, asked[name]);
           Report(cfg, EachBy(verdict)(asked), defaults)[name] ==
             if found.Some? then found.value else DetectResult(false, "", ""))
  {
    ReportIsFaithful(cfg, EachBy(verdict)(Asked(cfg, defaults)), defaults, name);
  }

  class Snapshot {
    const cfg: Option<Agents>
    const avail: Option<Detected>

    constructor (cfg: Option<Agents>, avail: Option<Detected>)
      ensures this.cfg == cfg && this.avail == avail
    {
      this.cfg, this.avail := cfg, avail;
    }
  }

  function Seed(avail: Option<Detected>): Detected { if avail.Some? then avail.value else map[] }

  class Registry {
    var snap: Snapshot

    constructor Cold(cfg: Option<Agents>)
      ensures fresh(snap) && snap.cfg == cfg && snap.avail.None?
    {
      snap := new Snapshot(cfg, None);
    }

    constructor Seeded(cfg: Option<Agents>, avail: Option<Detected>)
      ensures fresh(snap) && snap.cfg == cfg && snap.avail == Some(Seed(avail))
    {
      snap := new Snapshot(cfg, Some(Seed(avail)));
    }

    method Reload(cfg: Option<Agents>)
      modifies this
      ensures fresh(snap) && snap.cfg == cfg && snap.avail.None?
    {
      snap := new Snapshot(cfg, None);
    }

    // No availability given still counts as a detection that found nothing.
    method ReloadWith(cfg: Option<Agents>, avail: Option<Detected>)
      modifies this
      ensures fresh(snap) && snap.cfg == cfg && snap.avail == Some(Seed(avail))
    {
      var seeded := avail;
      if seeded.None? {
        seeded := Some(map[]);
      }
      snap := new Snapshot(cfg, seeded);
    }

    method CompareAndSwap(expected: Snapshot, next: Snapshot) returns (swapped: bool)
      modifies this
      ensures swapped == (old(snap) == expected) && snap == if swapped then next else old(snap)
    {
      swapped := snap == expected;
      if swapped {
        snap := next;
      }
    }

    // One detection of everything the cold snapshot names, kept if nothing was stored since.
    method Warm(cold: Snapshot, detector: Agents -> Detected, defaults: Defaults) returns (warmed: Snapshot)
      modifies this
      ensures fresh(warmed) && warmed.cfg == cold.cfg && warmed.avail == Some(detector(Asked(cold.cfg, defaults)))
      ensures snap == if old(snap) == cold then warmed else old(snap)
    {
      var candidates: Agents := map[];
      var left := Names(cold.cfg);
      while left != {}
        invariant left <= Names(cold.cfg) && snap == old(snap)
        invariant candidates == Asked(cold.cfg, defaults) - left
      {
        var name :| name in left;
        left := left - {name};
        var ac := ResolveAgent(cold.cfg, name, defaults);
        if ac.Some? {
          candidates := candidates[name := ac.value];
        }
      }
      assert candidates == Asked(cold.cfg, defaults);
      warmed := new Snapshot(cold.cfg, Some(detector(candidates)));
      var _ := CompareAndSwap(cold, warmed);
    }

    method Availability(detector: Agents -> Detected, defaults: Defaults) returns (out: Detected)
      modifies this
      ensures old(snap).avail.Some? ==>
        snap == old(snap) && out == Report(old(snap).cfg, old(snap).avail.value, defaults)
      ensures old(snap).avail.None? ==>
        && fresh(snap) && snap.cfg == old(snap).cfg && snap.avail == Some(detector(Asked(snap.cfg, defaults)))
        && out == Report(snap.cfg, snap.avail.value, defaults)
    {
      var s := snap;
      if s.avail.None? {
        s := Warm(s, detector, defaults);
      }
      out := map[];
      var left := Names(s.cfg);
      while left != {}
        invariant left <= Names(s.cfg)
        invariant out == Report(s.cfg, s.avail.value, defaults) - left
      {
        var name :| name in left;
        left := left - {name};
        var ac := ResolveAgent(s.cfg, name, defaults);
        if ac.Some? {
          out := out[name := Verdict(ac.value, name, s.avail.value)];
        }
      }
      assert out == Report(s.cfg, s.avail.value, defaults);
    }
  }
}
