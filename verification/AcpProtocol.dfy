/** Every interleaving of calls, deliveries, cancellations and transport failure over the
    client: each critical section and each channel send is one atomic step. */
module AcpProtocol {
  import opened AcpClient
  import opened GoText

  // What travels over a call's channel.
  datatype Message = Response(id: string) | TransportError(err: string)

  datatype Outcome = Received(msg: Message) | Failed

  // Where a call stands: writing its request, waiting, waiting out the cancel grace, about to
  // drop its pending entry, or returned.
  datatype Phase = Writing | Waiting | Grace | Forgetting | Done(outcome: Outcome)

  // A send some delivery or failure still has to make.
  datatype Owed = Owed(ch: nat, msg: Message)

  datatype State = State(
    core: Core,
    calls: map<nat, Phase>,
    buffers: map<nat, seq<Message>>, // capacity one
    sent: map<nat, nat>,             // how many sends each channel got over its life
    owed: seq<Owed>)

  const CAPACITY := 1

  datatype Step =
    | Call
    | WriteOk(k: nat)
    | WriteFailed(k: nat)
    | Receive(k: nat)
    | Cancelled(k: nat, graceful: bool)
    | GraceOver(k: nat)
    | Forget(k: nat)
    | Deliver(id: string)
    | Fail(err: string, order: seq<nat>)
    | Send(i: nat)

  function Init(): State {
    State(Core(0, map[], None), map[], map[], map[], [])
  }

  ghost predicate InPhase(s: State, k: nat, p: Phase) {
    k in s.calls && s.calls[k] == p
  }

  ghost predicate Enabled(s: State, step: Step) {
    match step
    case Call => s.core.dead.None?
    case WriteOk(k) => InPhase(s, k, Writing)
    case WriteFailed(k) => InPhase(s, k, Writing)
    case Receive(k) => (InPhase(s, k, Waiting) || InPhase(s, k, Grace)) && k in s.buffers && s.buffers[k] != []
    case Cancelled(k, _) => InPhase(s, k, Waiting)
    case GraceOver(k) => InPhase(s, k, Grace)
    case Forget(k) => InPhase(s, k, Forgetting)
    case Deliver(_) => true
    case Fail(_, order) => Orders(order, s.core.pending)
    case Send(i) => i < |s.owed| && s.owed[i].ch in s.buffers && |s.buffers[s.owed[i].ch]| < CAPACITY
  }

  ghost function Next(s: State, step: Step): State
    requires Enabled(s, step)
  {
    match step
    case Call =>
      var k := s.core.nextID + 1;
      s.(core := Register(s.core), calls := s.calls[k := Writing], buffers := s.buffers[k := []],
        sent := s.sent[k := 0])
    case WriteOk(k) => s.(calls := s.calls[k := Waiting])
    case WriteFailed(k) => s.(calls := s.calls[k := Forgetting])
    case Receive(k) =>
      s.(calls := s.calls[k := Done(Received(s.buffers[k][0]))], buffers := s.buffers[k := s.buffers[k][1..]])
    case Cancelled(k, graceful) => s.(calls := s.calls[k := if graceful then Grace else Forgetting])
    case GraceOver(k) => s.(calls := s.calls[k := Forgetting])
    case Forget(k) => s.(core := Drop(s.core, Decimal(k)), calls := s.calls[k := Done(Failed)])
    case Deliver(id) =>
      if id in s.core.pending
      then s.(core := Drop(s.core, id), owed := s.owed + [Owed(s.core.pending[id], Response(id))])
      else s.(core := Drop(s.core, id))
    case Fail(err, order) => s.(core := Die(s.core, err), owed := s.owed + OweAll(order, err))
    case Send(i) =>
      var o := s.owed[i];
      s.(buffers := s.buffers[o.ch := s.buffers[o.ch] + [o.msg]],
         sent := s.sent[o.ch := (if o.ch in s.sent then s.sent[o.ch] else 0) + 1],
         owed := s.owed[..i] + s.owed[i + 1..])
  }

  ghost function OweAll(order: seq<nat>, err: string): (os: seq<Owed>)
    ensures |os| == |order|
    ensures forall i :: 0 <= i < |os| ==> os[i] == Owed(order[i], TransportError(err))
  {
    seq(|order|, i requires 0 <= i < |order| => Owed(order[i], TransportError(err)))
  }

  // A run: states from the initial one, each by an enabled step.
  ghost predicate IsRun(states: seq<State>, steps: seq<Step>) {
    && |states| == |steps| + 1
    && states[0] == Init()
    && forall i :: 0 <= i < |steps| ==> Enabled(states[i], steps[i]) && states[i + 1] == Next(states[i], steps[i])
  }

  ghost predicate Pends(s: State, k: nat) { Decimal(k) in s.core.pending }
  ghost predicate Owes(s: State, k: nat) { exists i :: 0 <= i < |s.owed| && s.owed[i].ch == k }

  ghost predicate Fits(m: Message, k: nat) { m.TransportError? || m.id == Decimal(k) }

  // Has not returned or given up.
  ghost predicate InFlight(s: State, k: nat) {
    k in s.calls && (s.calls[k].Writing? || s.calls[k].Waiting? || s.calls[k].Grace?)
  }

  ghost predicate Known(s: State) {
    && (forall k :: k in s.calls <==> 1 <= k <= s.core.nextID)
    && s.buffers.Keys == s.calls.Keys && s.sent.Keys == s.calls.Keys
    && OwnChannels(s.core.pending)
    && (forall id :: id in s.core.pending ==> s.core.pending[id] in s.calls)
    && (forall i :: 0 <= i < |s.owed| ==> s.owed[i].ch in s.calls)
  }

  // A channel's one message is still to be claimed, or owed, or sent.
  ghost predicate OneMessage(s: State) {
    && (forall i, j :: 0 <= i < j < |s.owed| ==> s.owed[i].ch != s.owed[j].ch)
    && (forall i :: 0 <= i < |s.owed| ==> !Pends(s, s.owed[i].ch))
    && (forall k :: k in s.sent ==> s.sent[k] <= 1)
    && (forall k :: k in s.sent && s.sent[k] == 1 ==> !Pends(s, k) && !Owes(s, k))
    && (forall k :: k in s.sent && k in s.buffers ==> |s.buffers[k]| <= s.sent[k])
  }

  ghost predicate RightMessage(s: State) {
    && (forall i :: 0 <= i < |s.owed| ==> Fits(s.owed[i].msg, s.owed[i].ch))
    && (forall k :: k in s.buffers ==> forall i :: 0 <= i < |s.buffers[k]| ==> Fits(s.buffers[k][i], k))
    && (forall k :: k in s.calls && s.calls[k].Done? && s.calls[k].outcome.Received? ==>
         Fits(s.calls[k].outcome.msg, k))
  }

  ghost predicate NobodyLost(s: State) {
    && (s.core.dead.Some? ==> s.core.pending == map[])
    && (forall k :: InFlight(s, k) ==> Pends(s, k) || Owes(s, k) || (k in s.buffers && s.buffers[k] != []))
  }

  ghost predicate Inv(s: State) {
    Known(s) && OneMessage(s) && RightMessage(s) && NobodyLost(s)
  }

  lemma DecimalsInjective()
    ensures forall m: nat, n: nat :: Decimal(m) == Decimal(n) ==> m == n
  {
    forall m: nat, n: nat | Decimal(m) == Decimal(n)
      ensures m == n
    {
      DecimalInjective(m, n);
    }
  }

  // The channels a failure takes out belong to the pending calls.
  lemma OrderIsPending(s: State, order: seq<nat>, i: nat)
    requires Known(s) && Orders(order, s.core.pending) && i < |order|
    ensures order[i] in s.calls && Pends(s, order[i])
  {
    assert order[i] in order;
    var id :| id in s.core.pending && s.core.pending[id] == order[i];
  }

  lemma {:induction false} KnownKept(s: State, step: Step)
    requires Inv(s) && Enabled(s, step)
    ensures Known(Next(s, step))
  {
    hide Decimal, OneMessage, RightMessage, NobodyLost;
    match step
    case Fail(err, order) => KnownAfterFail(s, err, order);
    case Send(i) => KnownAfterSend(s, i);
    case _ =>
  }

  lemma {:induction false} KnownAfterFail(s: State, err: string, order: seq<nat>)
    requires Known(s) && Orders(order, s.core.pending)
    ensures Known(Next(s, Fail(err, order)))
  {
    hide Decimal;
    var t := Next(s, Fail(err, order));
    forall i | 0 <= i < |t.owed|
      ensures t.owed[i].ch in t.calls
    {
      if i >= |s.owed| {
        OrderIsPending(s, order, i - |s.owed|);
      }
    }
  }

  lemma {:induction false} KnownAfterSend(s: State, i: nat)
    requires Known(s) && Enabled(s, Send(i))
    ensures Known(Next(s, Send(i)))
  {
    hide Decimal;
    var t := Next(s, Send(i));
    assert s.owed[i].ch in s.calls;
    assert forall j :: 0 <= j < |t.owed| ==> t.owed[j] in s.owed;
  }

  lemma {:induction false} OneMessageAfterFail(s: State, err: string, order: seq<nat>)
    requires Known(s) && OneMessage(s) && Orders(order, s.core.pending)
    ensures OneMessage(Next(s, Fail(err, order)))
  {
    hide Decimal;
    var t := Next(s, Fail(err, order));
    forall i | 0 <= i < |order|
      ensures Pends(s, order[i])
    {
      OrderIsPending(s, order, i);
    }
    forall k | k in t.sent && t.sent[k] == 1
      ensures !Owes(t, k)
    {
      assert !Pends(s, k) && !Owes(s, k);
    }
  }

  lemma {:induction false} OneMessageAfterSend(s: State, i: nat)
    requires Known(s) && OneMessage(s) && Enabled(s, Send(i))
    ensures OneMessage(Next(s, Send(i)))
  {
    hide Decimal;
    var t := Next(s, Send(i));
    assert forall j :: 0 <= j < |t.owed| ==> t.owed[j] == s.owed[if j < i then j else j + 1];
    var ch := s.owed[i].ch;
    assert Owes(s, ch) && s.sent[ch] == 0;
    forall k | k in t.sent && t.sent[k] == 1
      ensures !Owes(t, k)
    {
      if k != ch {
        assert !Owes(s, k);
      }
    }
  }

  lemma {:induction false} OneMessageAfterDeliver(s: State, id: string)
    requires Known(s) && OneMessage(s)
    ensures OneMessage(Next(s, Deliver(id)))
  {
    hide Decimal;
    var t := Next(s, Deliver(id));
    if id in s.core.pending {
      var ch := s.core.pending[id];
      assert Pends(s, ch);
      forall k | k in t.sent && t.sent[k] == 1
        ensures !Owes(t, k)
      {
        assert !Pends(s, k) && !Owes(s, k);
      }
    } else {
      assert Drop(s.core, id).pending == s.core.pending;
    }
  }

  lemma {:induction false} OneMessageAfterCall(s: State)
    requires Known(s) && OneMessage(s) && Enabled(s, Call)
    ensures OneMessage(Next(s, Call))
  {
    hide Decimal;
    DecimalsInjective();
  }

  lemma {:induction false} OneMessageKept(s: State, step: Step)
    requires Inv(s) && Enabled(s, step)
    ensures OneMessage(Next(s, step))
  {
    hide OneMessage, Decimal, RightMessage, NobodyLost;
    match step
    case Fail(err, order) => OneMessageAfterFail(s, err, order);
    case Send(i) => OneMessageAfterSend(s, i);
    case Deliver(id) => OneMessageAfterDeliver(s, id);
    case Call => OneMessageAfterCall(s);
    case _ => OneMessageAfterRest(s, step);
  }

  // The steps of one call beside its first: no send, nothing new pending or owed.
  lemma {:induction false} OneMessageAfterRest(s: State, step: Step)
    requires Known(s) && OneMessage(s) && Enabled(s, step)
    requires !step.Fail? && !step.Send? && !step.Deliver? && !step.Call?
    ensures OneMessage(Next(s, step))
  {
    hide Decimal;
  }

  lemma {:induction false} RightMessageKept(s: State, step: Step)
    requires Inv(s) && Enabled(s, step)
    ensures RightMessage(Next(s, step))
  {
    hide Decimal, NobodyLost, OneMessage;
  }

  // A call in flight has its message pending, owed or in its channel.
  ghost predicate Accounted(s: State, k: nat) {
    Pends(s, k) || Owes(s, k) || (k in s.buffers && s.buffers[k] != [])
  }

  lemma {:induction false} AccountedAfterFail(s: State, err: string, order: seq<nat>, k: nat)
    requires Known(s) && Accounted(s, k) && Orders(order, s.core.pending)
    ensures Accounted(Next(s, Fail(err, order)), k)
  {
    hide Decimal;
    var t := Next(s, Fail(err, order));
    if Pends(s, k) {
      var ch := s.core.pending[Decimal(k)];
      DecimalInjective(ch, k);
      assert ch in s.core.pending.Values;
      var i :| 0 <= i < |order| && order[i] == k;
      assert t.owed[|s.owed| + i].ch == k;
    } else if i :| 0 <= i < |s.owed| && s.owed[i].ch == k {
      assert t.owed[i].ch == k;
    }
  }

  lemma {:induction false} AccountedAfterSend(s: State, i: nat, k: nat)
    requires Known(s) && Accounted(s, k) && Enabled(s, Send(i))
    ensures Accounted(Next(s, Send(i)), k)
  {
    hide Decimal;
    var t := Next(s, Send(i));
    if j :| 0 <= j < |s.owed| && s.owed[j].ch == k {
      if j != i {
        assert t.owed[if j < i then j else j - 1].ch == k;
      }
    }
  }

  lemma {:induction false} AccountedAfterDeliver(s: State, id: string, k: nat)
    requires Known(s) && Accounted(s, k)
    ensures Accounted(Next(s, Deliver(id)), k)
  {
    hide Decimal;
    var t := Next(s, Deliver(id));
    if Pends(s, k) && id == Decimal(k) {
      DecimalInjective(s.core.pending[id], k);
      assert t.owed[|s.owed|].ch == k;
    } else if i :| 0 <= i < |s.owed| && s.owed[i].ch == k {
      assert t.owed[i].ch == k;
    }
  }

  lemma {:induction false} AccountedKept(s: State, step: Step, k: nat)
    requires Inv(s) && Enabled(s, step)
    requires InFlight(Next(s, step), k)
    ensures Accounted(Next(s, step), k)
  {
    hide Decimal, RightMessage, OneMessage;
    match step
    case Fail(err, order) => AccountedAfterFail(s, err, order, k);
    case Send(i) => AccountedAfterSend(s, i, k);
    case Deliver(id) => AccountedAfterDeliver(s, id, k);
    case Forget(j) =>
      if Decimal(k) == Decimal(j) {
        DecimalInjective(k, j);
      }
    case _ =>
  }

  lemma {:induction false} NobodyLostKept(s: State, step: Step)
    requires Inv(s) && Enabled(s, step)
    ensures NobodyLost(Next(s, step))
  {
    var t := Next(s, step);
    forall k | InFlight(t, k)
      ensures Accounted(t, k)
    {
      AccountedKept(s, step, k);
    }
    assert t.core.dead.Some? ==> t.core.pending == map[] by {
      hide Decimal, RightMessage, OneMessage, Known;
    }
  }

  lemma {:induction false} InvKept(s: State, step: Step)
    requires Inv(s) && Enabled(s, step)
    ensures Inv(Next(s, step))
  {
    hide Known, OneMessage, RightMessage, NobodyLost;
    KnownKept(s, step);
    OneMessageKept(s, step);
    RightMessageKept(s, step);
    NobodyLostKept(s, step);
  }

  /** Every state of every run keeps the invariant. */
  lemma {:induction false} RunsKeepInv(states: seq<State>, steps: seq<Step>, n: nat)
    requires IsRun(states, steps) && n < |states|
    ensures Inv(states[n])
  {
    hide Next;
    if n == 0 {
      assert Inv(Init());
    } else {
      RunsKeepInv(states, steps, n - 1);
      InvKept(states[n - 1], steps[n - 1]);
    }
  }

  /** In every interleaving: a channel gets at most one message over its life; a send that is
      owed never blocks on the channel's capacity; whatever a call receives carries its own id
      or is the transport error; once the transport is dead nothing is pending, and a call that
      has not given up has its message in its channel or owed to it. */
  lemma {:induction false} Correlation(states: seq<State>, steps: seq<Step>, n: nat)
    requires IsRun(states, steps) && n < |states|
    ensures var s := states[n];
      && (forall k :: k in s.sent ==> s.sent[k] <= 1)
      && (forall i :: 0 <= i < |s.owed| ==> Enabled(s, Send(i)))
      && (forall k :: k in s.calls && s.calls[k].Done? && s.calls[k].outcome.Received? ==>
           Fits(s.calls[k].outcome.msg, k))
      && (s.core.dead.Some? ==> s.core.pending == map[])
      && (s.core.dead.Some? ==> forall k :: InFlight(s, k) ==> Owes(s, k) || (k in s.buffers && s.buffers[k] != []))
  {
    hide Next, IsRun, Decimal;
    RunsKeepInv(states, steps, n);
    var s := states[n];
    forall i | 0 <= i < |s.owed|
      ensures Enabled(s, Send(i))
    {
      var ch := s.owed[i].ch;
      assert Owes(s, ch);
    }
  }

  // The error of the first failure among these steps.
  function FirstFailure(steps: seq<Step>): Option<string>
    decreases |steps|
  {
    if steps == [] then None
    else
      var before := FirstFailure(steps[..|steps| - 1]);
      if before.None? && steps[|steps| - 1].Fail? then Some(steps[|steps| - 1].err) else before
  }

  // The transport error, if the message is one, is the one the client died of.
  predicate OfDeath(m: Message, dead: Option<string>) { m.TransportError? ==> dead == Some(m.err) }

  ghost predicate ErrorsAgree(s: State) {
    && (forall i :: 0 <= i < |s.owed| ==> OfDeath(s.owed[i].msg, s.core.dead))
    && (forall k :: k in s.buffers ==> forall i :: 0 <= i < |s.buffers[k]| ==> OfDeath(s.buffers[k][i], s.core.dead))
    && (forall k :: k in s.calls && s.calls[k].Done? && s.calls[k].outcome.Received? ==>
         OfDeath(s.calls[k].outcome.msg, s.core.dead))
  }

  lemma ErrorsKept(s: State, step: Step)
    requires Inv(s) && Enabled(s, step) && ErrorsAgree(s)
    ensures ErrorsAgree(Next(s, step))
    ensures Next(s, step).core.dead == if step.Fail? && s.core.dead.None? then Some(step.err) else s.core.dead
  {
    hide Decimal, OneMessage, RightMessage, Known;
    if step.Fail? && s.core.dead.Some? {
      NothingLeftToFail(s, step.order);
    }
  }

  lemma NothingLeftToFail(s: State, order: seq<nat>)
    requires NobodyLost(s) && s.core.dead.Some? && Orders(order, s.core.pending)
    ensures order == []
  {
    if order != [] {
      HoldsOne(order);
    }
  }

  lemma HoldsOne(order: seq<nat>)
    requires order != []
    ensures exists k :: k in order
  {
    assert order[0] in order;
  }

  /** The client dies of the first failure of the transport, whatever fails later, and that error is the
      only transport error any call ever gets. */
  lemma {:induction false} FirstFailureIsReported(states: seq<State>, steps: seq<Step>, n: nat)
    requires IsRun(states, steps) && n < |states|
    ensures states[n].core.dead == FirstFailure(steps[..n]) && ErrorsAgree(states[n])
  {
    hide Next, ErrorsAgree, Enabled;
    if n == 0 {
      InitAgrees();
    } else {
      FirstFailureIsReported(states, steps, n - 1);
      RunsKeepInv(states, steps, n - 1);
      assert steps[..n][..n - 1] == steps[..n - 1] && steps[..n][n - 1] == steps[n - 1];
      ErrorsKept(states[n - 1], steps[n - 1]);
    }
  }

  lemma InitAgrees()
    ensures ErrorsAgree(Init())
  {
  }
}
