/** Merging the built-in agent templates into a configuration: what an operator declared always
    stays, a template is there exactly while its command is found on the host. */
module AgentResolve {
  import opened GoText

  const EXEC := "exec"

  // The fields the resolution reads; the rest of an entry is carried along.
  datatype AgentConfig = AgentConfig(kind: string, command: string, rest: string)

  datatype DetectResult = DetectResult(available: bool, version: string, error: string)

  type Agents = map<string, AgentConfig>
  type Detected = map<string, DetectResult>

  const BUILTIN_EXEC := AgentConfig(EXEC, "", "")

  // A configuration's agents, and which of them were put there by a resolution.
  datatype View = View(agents: Agents, injected: set<string>)

  function Own(v: View): Agents { v.agents - v.injected }

  function Injectable(own: Agents, templates: Agents): Agents { templates - own.Keys }

  // What the detector is asked about.
  function Candidates(own: Agents, templates: Agents): Agents {
    (if EXEC in own then own else own[EXEC := BUILTIN_EXEC]) + Injectable(own, templates)
  }

  predicate Available(detected: Detected, key: string) { key in detected && detected[key].available }

  function Gated(detected: Detected, injectable: Agents): Agents {
    map key | key in injectable && Available(detected, key) :: injectable[key]
  }

  // No detector finds nothing.
  function Ask(detector: Option<Agents -> Detected>, candidates: Agents): Detected {
    if detector.Some? then detector.value(candidates) else map[]
  }

  function Resolved(v: View, templates: Agents, detector: Option<Agents -> Detected>): View {
    var own := Own(v);
    var gated := Gated(Ask(detector, Candidates(own, templates)), Injectable(own, templates));
    View(own + gated, gated.Keys)
  }

  class Config {
    var agents: Agents
    var injected: set<string>

    function Content(): View
      reads this
    {
      View(agents, injected)
    }

    constructor (v: View)
      ensures Content() == v
    {
      agents, injected := v.agents, v.injected;
    }
  }

  // Undoes the previous resolution.
  method Strip(cfg: Config)
    modifies cfg
    ensures cfg.Content() == View(Own(old(cfg.Content())), {})
  {
    var marked := cfg.injected;
    while marked != {}
      invariant marked <= cfg.injected == old(cfg.injected)
      invariant cfg.agents == old(cfg.agents) - (old(cfg.injected) - marked)
    {
      var key :| key in marked;
      cfg.agents := cfg.agents - {key};
      marked := marked - {key};
    }
    cfg.injected := {};
  }

  // The templates whose keys are free, and what the detector is asked about.
  method Collect(own: Agents, templates: Agents) returns (injectable: Agents, candidates: Agents)
    ensures injectable == Injectable(own, templates) && candidates == Candidates(own, templates)
  {
    candidates := own;
    if EXEC !in candidates {
      candidates := candidates[EXEC := BUILTIN_EXEC];
    }
    ghost var asked := candidates;
    injectable := map[];
    var left := templates.Keys;
    while left != {}
      invariant left <= templates.Keys
      invariant injectable == Injectable(own, templates) - left
      invariant candidates == asked + injectable
    {
      var key :| key in left;
      left := left - {key};
      if key !in own {
        injectable := injectable[key := templates[key]];
        candidates := candidates[key := templates[key]];
      }
    }
    assert injectable == Injectable(own, templates);
  }

  // The templates the detector found.
  method Inject(cfg: Config, injectable: Agents, found: Detected)
    requires cfg.injected == {} && cfg.agents.Keys !! injectable.Keys
    modifies cfg
    ensures cfg.Content() == View(old(cfg.agents) + Gated(found, injectable), Gated(found, injectable).Keys)
  {
    ghost var gated := Gated(found, injectable);
    var injected: set<string> := {};
    var left := injectable.Keys;
    while left != {}
      invariant left <= injectable.Keys
      invariant injected == gated.Keys - left
      invariant cfg.agents == old(cfg.agents) + (gated - left)
    {
      var key :| key in left;
      left := left - {key};
      if key in found && found[key].available {
        cfg.agents := cfg.agents[key := injectable[key]];
        injected := injected + {key};
      }
    }
    cfg.injected := injected;
    assert gated - left == gated;
  }

  /** The resolution, in place: the previous one is undone first, then every template whose key is
      free is gated on the detector's one answer. */
  method Resolve(cfg: Config?, templates: Agents, detector: Option<Agents -> Detected>)
    returns (detected: Option<Detected>)
    modifies cfg
    ensures cfg == null ==> detected.None?
    ensures cfg != null ==>
      && cfg.Content() == Resolved(old(cfg.Content()), templates, detector)
      && detected == Some(Ask(detector, Candidates(Own(old(cfg.Content())), templates)))
  {
    if cfg == null {
      return None;
    }
    Strip(cfg);
    var injectable, candidates := Collect(cfg.agents, templates);
    var found := Ask(detector, candidates);
    Inject(cfg, injectable, found);
    return Some(found);
  }

  /** Resolving again, with another detector, gives what resolving once with it would have: the
      gate applies every time, and nothing a template left behind turns into a declaration. The
      detector is asked about the same agents both times. */
  lemma ResolvingAgain(v: View, templates: Agents, first: Option<Agents -> Detected>,
                       second: Option<Agents -> Detected>)
    ensures var once := Resolved(v, templates, first);
      && Own(once) == Own(v)
      && Candidates(Own(once), templates) == Candidates(Own(v), templates)
      && Resolved(once, templates, second) == Resolved(v, templates, second)
  {
    var once := Resolved(v, templates, first);
    assert Own(once) == Own(v);
  }

  /** Every declared entry survives with its value whatever is detected, and a template's key is
      there exactly when it is undeclared and detected, and then is marked. */
  lemma KeysExactly(v: View, templates: Agents, detector: Option<Agents -> Detected>, key: string)
    ensures var out, own := Resolved(v, templates, detector), Own(v);
      var detected := Ask(detector, Candidates(own, templates));
      && (key in own ==> key in out.agents && out.agents[key] == own[key])
      && (key !in own ==> (key in out.agents <==> key in templates && Available(detected, key)))
      && (key !in own && key in out.agents ==> out.agents[key] == templates[key])
      && (key in out.injected <==> key in out.agents && key !in own)
  {
  }

  // Declared by the operator: there without any resolution.
  predicate Declared(v: View, key: string) { key in v.agents && key !in v.injected }

  /** The detector is asked about exactly the declared agents, with their own entries, the templates
      whose keys are free, with theirs, and exec, which is built in where neither has it. */
  lemma AsksExactly(v: View, templates: Agents, key: string)
    ensures var asked := Candidates(Own(v), templates);
      && (key in asked <==> Declared(v, key) || key in templates || key == EXEC)
      && (Declared(v, key) ==> asked[key] == v.agents[key])
      && (!Declared(v, key) && key in templates ==> asked[key] == templates[key])
      && (!Declared(v, key) && key !in templates && key == EXEC ==> asked[key] == AgentConfig("exec", "", ""))
  {
  }

  // A detector that looks at each agent by itself and reports only on what it was asked.
  function EachBy(verdict: (string, AgentConfig) -> Option<DetectResult>): Agents -> Detected {
    (asked: Agents) => map key | key in asked && verdict(key, asked[key]).Some? :: verdict(key, asked[key]).value
  }

  predicate FoundBy(verdict: (string, AgentConfig) -> Option<DetectResult>, key: string, entry: AgentConfig) {
    verdict(key, entry).Some? && verdict(key, entry).value.available
  }

  /** With such a detector the resolved agents are the declared ones as they were, and exactly the
      templates with a free key whose own entry it finds. */
  lemma TemplatesByVerdict(v: View, templates: Agents, verdict: (string, AgentConfig) -> Option<DetectResult>,
                           key: string)
    ensures var out := Resolved(v, templates, Some(EachBy(verdict)));
      && (Declared(v, key) ==> key in out.agents && out.agents[key] == v.agents[key] && key !in out.injected)
      && (!Declared(v, key) ==>
            (key in out.agents <==> key in templates && FoundBy(verdict, key, templates[key])) &&
            (key in out.agents ==> out.agents[key] == templates[key] && key in out.injected))
  {
    AsksExactly(v, templates, key);
    KeysExactly(v, templates, Some(EachBy(verdict)), key);
  }
}
