/** Every interleaving of reloads and availability requests over one registry: each store, each
    load, each detection, each compare-and-swap and each answer is one atomic step. */
module AgentProtocol {
  import opened GoText
  import opened AgentResolve
  import opened AgentRegistry

  datatype Snap = Snap(cfg: Option<Agents>, avail: Option<Detected>)

  // Where a request stands: it has loaded a cold snapshot, detected for it, or is ready to answer
  // from a snapshot, or has. A snapshot is named by the order of its allocation.
  datatype Request = Loaded(at: nat, since: nat) | Probed(at: nat, warmed: nat, since: nat)
    | Ready(from: nat, since: nat) | Answered(out: Detected, since: nat)

  // The snapshots allocated, the reload each belongs to, the one in place, the requests; and the
  // history: what each reload stored and what each detection found.
  datatype World = World(heap: seq<Snap>, born: seq<nat>, cur: nat, requests: map<nat, Request>, stored: seq<Snap>,
                         probes: set<(Agents, Detected)>)

  datatype Step = Reload(cfg: Option<Agents>) | ReloadWith(cfg: Option<Agents>, avail: Option<Detected>) | Load(id: nat)
    | Probe(id: nat, found: Detected) | Swap(id: nat) | Answer(id: nat)

  function Epoch(w: World): int { |w.stored| - 1 }

  function Start(first: Snap): World { World([first], [0], 0, map[], [first], {}) }

  ghost predicate Enabled(w: World, step: Step) {
    match step
    case Load(id) => id !in w.requests && w.cur < |w.heap|
    case Probe(id, _) => id in w.requests && w.requests[id].Loaded? && w.requests[id].at < |w.heap|
    case Swap(id) => id in w.requests && w.requests[id].Probed?
    case Answer(id) => id in w.requests && w.requests[id].Ready? && w.requests[id].from < |w.heap|
    case _ => true
  }

  function Store(w: World, s: Snap): World {
    w.(heap := w.heap + [s], born := w.born + [|w.stored|], cur := |w.heap|, stored := w.stored + [s])
  }

  function Next(w: World, step: Step, defaults: Defaults): World
    requires Enabled(w, step)
  {
    match step
    case Reload(cfg) => Store(w, Snap(cfg, None))
    case ReloadWith(cfg, avail) => Store(w, Snap(cfg, Some(Seed(avail))))
    case Load(id) =>
      var since := if |w.stored| == 0 then 0 else |w.stored| - 1;
      w.(requests := w.requests[id := if w.heap[w.cur].avail.None? then Loaded(w.cur, since) else Ready(w.cur, since)])
    case Probe(id, found) =>
      var r := w.requests[id];
      var cfg := w.heap[r.at].cfg;
      w.(heap := w.heap + [Snap(cfg, Some(found))], born := w.born + [r.since],
         requests := w.requests[id := Probed(r.at, |w.heap|, r.since)],
         probes := w.probes + {(Asked(cfg, defaults), found)})
    case Swap(id) =>
      var r := w.requests[id];
      w.(cur := if w.cur == r.at then r.warmed else w.cur, requests := w.requests[id := Ready(r.warmed, r.since)])
    case Answer(id) =>
      var r := w.requests[id];
      var s := w.heap[r.from];
      w.(requests := w.requests[id := Answered(Report(s.cfg, Seed(s.avail), defaults), r.since)])
  }

  // The availability was stored with this reload, or detected for its very configuration.
  ghost predicate Belongs(w: World, epoch: nat, avail: Detected, defaults: Defaults) {
    && epoch < |w.stored|
    && (if w.stored[epoch].avail.Some? then w.stored[epoch].avail == Some(avail)
        else (Asked(w.stored[epoch].cfg, defaults), avail) in w.probes)
  }

  // A snapshot carries the configuration of its reload, and only availability that belongs to it.
  ghost predicate SnapOk(w: World, i: nat, defaults: Defaults)
    requires i < |w.heap| == |w.born|
  {
    && w.born[i] < |w.stored| && w.heap[i].cfg == w.stored[w.born[i]].cfg
    && (if w.heap[i].avail.Some? then Belongs(w, w.born[i], w.heap[i].avail.value, defaults)
        else w.stored[w.born[i]].avail.None?)
  }

  ghost predicate RequestOk(w: World, r: Request, defaults: Defaults)
    requires |w.heap| == |w.born|
  {
    r.since < |w.stored| &&
    match r
    case Loaded(at, since) => at < |w.heap| && w.born[at] == since && w.heap[at].avail.None?
    case Probed(at, warmed, since) =>
      && at < |w.heap| && w.born[at] == since && w.heap[at].avail.None?
      && warmed < |w.heap| && w.born[warmed] == since && w.heap[warmed].avail.Some?
    case Ready(from, since) => from < |w.heap| && w.born[from] == since && w.heap[from].avail.Some?
    case Answered(out, since) =>
      exists avail :: Belongs(w, since, avail, defaults) && out == Report(w.stored[since].cfg, avail, defaults)
  }

  ghost predicate Inv(w: World, defaults: Defaults) {
    && |w.heap| == |w.born| && w.cur < |w.heap| && w.stored != []
    && w.born[w.cur] == |w.stored| - 1
    && (forall i :: 0 <= i < |w.heap| ==> SnapOk(w, i, defaults))
    && (forall id :: id in w.requests ==> RequestOk(w, w.requests[id], defaults))
  }

  // The history only grows.
  ghost predicate Grown(v: World, w: World) {
    v.heap <= w.heap && v.born <= w.born && v.stored <= w.stored && v.probes <= w.probes
  }

  lemma BelongsGrows(v: World, w: World, epoch: nat, avail: Detected, defaults: Defaults)
    requires Grown(v, w) && Belongs(v, epoch, avail, defaults)
    ensures Belongs(w, epoch, avail, defaults)
  {
    hide Asked;
  }

  lemma SnapGrows(v: World, w: World, i: nat, defaults: Defaults)
    requires |v.heap| == |v.born| && |w.heap| == |w.born| && Grown(v, w)
    requires i < |v.heap| && SnapOk(v, i, defaults)
    ensures SnapOk(w, i, defaults)
  {
    if v.heap[i].avail.Some? {
      BelongsGrows(v, w, v.born[i], v.heap[i].avail.value, defaults);
    }
    hide Belongs;
  }

  lemma RequestGrows(v: World, w: World, r: Request, defaults: Defaults)
    requires |v.heap| == |v.born| && |w.heap| == |w.born| && Grown(v, w) && RequestOk(v, r, defaults)
    ensures RequestOk(w, r, defaults)
  {
    hide Belongs, Report;
    if r.Answered? {
      var avail :| Belongs(v, r.since, avail, defaults) && r.out == Report(v.stored[r.since].cfg, avail, defaults);
      BelongsGrows(v, w, r.since, avail, defaults);
      assert Belongs(w, r.since, avail, defaults) && w.stored[r.since] == v.stored[r.since];
    }
  }

  lemma StoredIsOk(w: World, s: Snap, defaults: Defaults)
    requires |w.heap| == |w.born|
    ensures SnapOk(Store(w, s), |w.heap|, defaults)
  {
  }

  lemma LoadIsOk(w: World, id: nat, defaults: Defaults)
    requires Inv(w, defaults) && Enabled(w, Load(id))
    ensures var next := Next(w, Load(id), defaults); RequestOk(next, next.requests[id], defaults)
  {
  }

  lemma ProbeIsOk(w: World, id: nat, found: Detected, defaults: Defaults)
    requires Inv(w, defaults) && Enabled(w, Probe(id, found))
    ensures var next := Next(w, Probe(id, found), defaults);
      RequestOk(next, next.requests[id], defaults) && SnapOk(next, |w.heap|, defaults)
  {
    hide Asked;
    var r := w.requests[id];
    assert RequestOk(w, r, defaults) && SnapOk(w, r.at, defaults);
  }

  lemma SwapIsOk(w: World, id: nat, defaults: Defaults)
    requires Inv(w, defaults) && Enabled(w, Swap(id))
    ensures var next := Next(w, Swap(id), defaults);
      && RequestOk(next, next.requests[id], defaults)
      && next.cur < |next.heap| && next.born[next.cur] == |next.stored| - 1
  {
    assert RequestOk(w, w.requests[id], defaults);
  }

  lemma AnswerIsOk(w: World, id: nat, defaults: Defaults)
    requires Inv(w, defaults) && Enabled(w, Answer(id))
    ensures var next := Next(w, Answer(id), defaults); RequestOk(next, next.requests[id], defaults)
  {
    hide Asked, Report;
    var r := w.requests[id];
    assert RequestOk(w, r, defaults) && SnapOk(w, r.from, defaults);
    var next, s := Next(w, Answer(id), defaults), w.heap[r.from];
    assert Belongs(next, r.since, s.avail.value, defaults);
  }

  /** In every interleaving the registry points at a snapshot of the latest reload, with the
      availability that reload brought or one detected for its own configuration; and an answer is
      the report of one such pair, of the reload that was current when the request began. */
  lemma StepKeeps(w: World, step: Step, defaults: Defaults)
    requires Inv(w, defaults) && Enabled(w, step)
    ensures Inv(Next(w, step, defaults), defaults) && Grown(w, Next(w, step, defaults))
  {
    hide Asked, Report, SnapOk, RequestOk;
    var next := Next(w, step, defaults);
    forall i | 0 <= i < |w.heap|
      ensures SnapOk(next, i, defaults)
    {
      SnapGrows(w, next, i, defaults);
    }
    forall id | id in w.requests
      ensures RequestOk(next, w.requests[id], defaults)
    {
      RequestGrows(w, next, w.requests[id], defaults);
    }
    match step
    case Reload(cfg) => StoredIsOk(w, Snap(cfg, None), defaults);
    case ReloadWith(cfg, avail) => StoredIsOk(w, Snap(cfg, Some(Seed(avail))), defaults);
    case Load(id) => LoadIsOk(w, id, defaults);
    case Probe(id, found) => ProbeIsOk(w, id, found, defaults);
    case Swap(id) => SwapIsOk(w, id, defaults);
    case Answer(id) => AnswerIsOk(w, id, defaults);
  }

  /** A detection made for a snapshot that a reload has since replaced is dropped, even when the
      reload stored an equal configuration. */
  lemma LateWarmUpIsDropped(w: World, id: nat, defaults: Defaults)
    requires Inv(w, defaults) && Enabled(w, Swap(id)) && w.requests[id].since < Epoch(w)
    ensures Next(w, Swap(id), defaults).cur == w.cur
  {
    assert RequestOk(w, w.requests[id], defaults);
  }

  /** Once the current snapshot has its availability, nothing but a reload changes it. */
  lemma WarmStaysWarm(w: World, step: Step, defaults: Defaults)
    requires Inv(w, defaults) && Enabled(w, step) && w.heap[w.cur].avail.Some?
    requires !step.Reload? && !step.ReloadWith?
    ensures var next := Next(w, step, defaults); next.cur == w.cur && next.heap[next.cur] == w.heap[w.cur]
  {
    if step.Swap? {
      assert RequestOk(w, w.requests[step.id], defaults);
    }
  }

  ghost predicate Runnable(w: World, steps: seq<Step>, defaults: Defaults)
    decreases |steps|
  {
    steps == [] || (Enabled(w, steps[0]) && Runnable(Next(w, steps[0], defaults), steps[1..], defaults))
  }

  ghost function After(w: World, steps: seq<Step>, defaults: Defaults): World
    requires Runnable(w, steps, defaults)
    decreases |steps|
  {
    if steps == [] then w else After(Next(w, steps[0], defaults), steps[1..], defaults)
  }

  lemma {:induction false} RunKeeps(w: World, steps: seq<Step>, defaults: Defaults)
    requires Inv(w, defaults) && Runnable(w, steps, defaults)
    ensures Inv(After(w, steps, defaults), defaults) && Grown(w, After(w, steps, defaults))
    decreases |steps|
  {
    hide Inv, Next, Enabled;
    if steps != [] {
      StepKeeps(w, steps[0], defaults);
      RunKeeps(Next(w, steps[0], defaults), steps[1..], defaults);
    }
  }

  // The answer reports the configuration that was current when the request began, with availability
  // that belongs to it.
  ghost predicate AnswersOfItsReload(w: World, r: Request, defaults: Defaults)
    requires r.Answered?
  {
    r.since < |w.stored| &&
    exists avail :: Belongs(w, r.since, avail, defaults) && r.out == Report(w.stored[r.since].cfg, avail, defaults)
  }

  /** A request that loads remembers the reload that is current then, and keeps it to its answer. */
  lemma RequestsRememberTheirReload(w: World, step: Step, defaults: Defaults, id: nat)
    requires Inv(w, defaults) && Enabled(w, step)
    ensures var next := Next(w, step, defaults);
      && (step == Load(id) ==> id in next.requests && next.requests[id].since == Epoch(w))
      && (id in w.requests ==> id in next.requests && next.requests[id].since == w.requests[id].since)
  {
    hide Asked, Report;
  }

  /** Along every run of a registry, however it was built: it shows the configuration of the latest
      reload, keeps the availability that reload brought, and every answer pairs the configuration of
      the reload that was current when it was asked for with availability that belongs to it. */
  lemma EveryAnswerIsOfItsReload(first: Snap, steps: seq<Step>, defaults: Defaults, id: nat)
    requires Runnable(Start(first), steps, defaults)
    ensures var w := After(Start(first), steps, defaults);
      && w.cur < |w.heap| && w.stored != []
      && var latest := w.stored[|w.stored| - 1];
        && w.heap[w.cur].cfg == latest.cfg
        && (latest.avail.Some? ==> w.heap[w.cur] == latest)
        && (id in w.requests && w.requests[id].Answered? ==> AnswersOfItsReload(w, w.requests[id], defaults))
  {
    hide Asked, Report;
    assert Inv(Start(first), defaults);
    RunKeeps(Start(first), steps, defaults);
    var w := After(Start(first), steps, defaults);
    assert SnapOk(w, w.cur, defaults);
    if id in w.requests && w.requests[id].Answered? {
      assert RequestOk(w, w.requests[id], defaults);
    }
  }
}
