/** Request and response correlation of the JSON-RPC client: the state one lock guards, and
    the four critical sections that change it. */
module AcpClient {
  import opened GoText

  // What the lock guards. A request id is the call counter in decimal. A pending id maps to
  // the channel of the call that waits for it; a channel is named by the number of its call.
  datatype Core = Core(nextID: nat, pending: map<string, nat>, dead: Option<string>)

  function Register(c: Core): Core {
    c.(nextID := c.nextID + 1, pending := c.pending[Decimal(c.nextID + 1) := c.nextID + 1])
  }

  function Drop(c: Core, id: string): Core {
    c.(pending := c.pending - {id})
  }

  function Die(c: Core, err: string): Core {
    c.(pending := map[], dead := if c.dead.None? then Some(err) else c.dead)
  }

  // The channels of the pending calls, in some order.
  ghost predicate Orders(order: seq<nat>, pending: map<string, nat>) {
    && (forall k :: k in order <==> k in pending.Values)
    && (forall i, j :: 0 <= i < j < |order| ==> order[i] != order[j])
  }

  // Distinct ids wait on distinct channels.
  ghost predicate OwnChannels(pending: map<string, nat>) {
    forall id :: id in pending ==> id == Decimal(pending[id])
  }

  class Client {
    var nextID: nat
    var pending: map<string, nat>
    var dead: Option<string>

    function View(): Core
      reads this
    {
      Core(nextID, pending, dead)
    }

    constructor ()
      ensures View() == Core(0, map[], None)
    {
      nextID, pending, dead := 0, map[], None;
    }

    // The critical section of a call: a fresh id and channel, unless the transport is dead.
    method Call() returns (r: Option<nat>, err: string)
      modifies this
      ensures old(dead).Some? ==> r == None && err == old(dead).value && View() == old(View())
      ensures old(dead).None? ==> r == Some(nextID) && View() == Register(old(View()))
    {
      if dead.Some? {
        return None, dead.value;
      }
      nextID := nextID + 1;
      var id := Decimal(nextID);
      pending := pending[id := nextID];
      return Some(nextID), "";
    }

    method Forget(id: string)
      modifies this
      ensures View() == Drop(old(View()), id)
    {
      pending := pending - {id};
    }

    // The critical section of a delivery: the waiting channel, if any, is taken out.
    method Take(id: string) returns (ch: Option<nat>)
      modifies this
      ensures View() == Drop(old(View()), id)
      ensures ch == if id in old(pending) then Some(old(pending)[id]) else None
    {
      ch := if id in pending then Some(pending[id]) else None;
      pending := pending - {id};
    }

    // The critical section of a transport failure: every waiting channel is taken out.
    method Fail(err: string) returns (order: seq<nat>)
      requires OwnChannels(pending)
      modifies this
      ensures View() == Die(old(View()), err)
      ensures Orders(order, old(pending))
    {
      hide Decimal, Taken, Orders;
      if dead.None? {
        dead := Some(err);
      }
      order := [];
      NothingTaken(pending);
      while pending.Keys != {}
        invariant Taken(order, old(pending), pending)
        invariant dead == Die(old(View()), err).dead && nextID == old(nextID)
        decreases |pending.Keys|
      {
        var id :| id in pending.Keys;
        TakesOne(order, old(pending), pending, id);
        order := order + [pending[id]];
        ghost var keys := pending.Keys;
        pending := pending - {id};
        assert pending.Keys == keys - {id};
      }
      assert pending == map[];
      AllTaken(order, old(pending));
    }
  }

  // The channels taken so far: those of the pending calls no longer among the rest, each once.
  ghost predicate Taken(order: seq<nat>, pending: map<string, nat>, rest: map<string, nat>) {
    && (forall id :: id in rest ==> id in pending && rest[id] == pending[id])
    && (forall k :: k in order <==> k in pending.Values && Decimal(k) !in rest)
    && (forall i, j :: 0 <= i < j < |order| ==> order[i] != order[j])
  }

  lemma NothingTaken(pending: map<string, nat>)
    requires OwnChannels(pending)
    ensures Taken([], pending, pending)
  {
    hide Decimal;
  }

  lemma TakesOne(order: seq<nat>, pending: map<string, nat>, rest: map<string, nat>, id: string)
    requires OwnChannels(pending) && Taken(order, pending, rest) && id in rest
    ensures Taken(order + [rest[id]], pending, rest - {id})
  {
    hide Decimal;
    var k := rest[id];
    assert k in pending.Values && Decimal(k) == id && k !in order;
    forall l
      ensures l in order + [k] <==> l in pending.Values && Decimal(l) !in rest - {id}
    {
      if l in pending.Values && Decimal(l) == id {
        DecimalInjective(l, k);
      }
    }
  }

  lemma AllTaken(order: seq<nat>, pending: map<string, nat>)
    requires Taken(order, pending, map[])
    ensures Orders(order, pending)
  {
  }
}
