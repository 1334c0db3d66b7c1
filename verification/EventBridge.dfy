/** The push bridge: publishers put events into a bounded queue per module, one thread per
    module pushes them to the helper, and a module's stop shuts its channel down. */
module EventBridge {
  import opened Bytes

  const QUEUE_CAPACITY := 256

  datatype Offer = Accepted | Full | Closed

  /** The fields that the threads share. `pending` and `stopped` are read and written under
      one lock; `alive` is atomic. */
  datatype Shared = Shared(pending: seq<nat>, stopped: bool, alive: bool)

  // ---- the critical sections ----

  /** What `enqueue` does once it holds the lock. */
  function OfferOutcome(c: Shared): Offer
  {
    if c.stopped then Closed else if |c.pending| >= QUEUE_CAPACITY then Full else Accepted
  }

  function AfterOffer(c: Shared, e: nat): Shared
  {
    if OfferOutcome(c).Accepted? then c.(pending := c.pending + [e]) else c
  }

  function AfterStop(c: Shared): Shared { c.(pending := [], stopped := true) }

  function AfterTake(c: Shared): Shared { c.(pending := []) }

  /** One module's channel. Each method is one critical section. */
  class ModuleChannel {
    var pending: seq<nat>
    var stopped: bool
    var alive: bool
    var overflowReported: bool
    const accepts: nat -> bool

    constructor (accepts: nat -> bool)
      ensures Now() == Shared([], false, true) && !overflowReported && this.accepts == accepts
    {
      pending := [];
      stopped := false;
      alive := true;
      overflowReported := false;
      this.accepts := accepts;
    }

    function Now(): Shared
      reads this
    {
      Shared(pending, stopped, alive)
    }

    /** A channel that is alive and not stopped takes the event unless 256 are waiting. */
    method Enqueue(e: nat) returns (r: Offer)
      modifies this`pending
      ensures r.Accepted? <==> alive && !stopped && |old(pending)| < 256
      ensures r.Full? <==> alive && !stopped && |old(pending)| >= 256
      ensures pending == if r.Accepted? then old(pending) + [e] else old(pending)
      ensures alive ==> r == OfferOutcome(old(Now())) && Now() == AfterOffer(old(Now()), e)
    {
      if !alive { return Closed; }
      if stopped { return Closed; }
      if |pending| >= QUEUE_CAPACITY { return Full; }
      pending := pending + [e];
      return Accepted;
    }

    method Stop()
      modifies this`pending, this`stopped
      ensures stopped && pending == [] && Now() == AfterStop(old(Now()))
    {
      stopped := true;
      pending := [];
    }

    /** The pusher's turn at the lock: None means that it goes to sleep. */
    method Take() returns (batch: Option<seq<nat>>)
      modifies this`pending
      ensures batch.None? <==> old(pending) == [] && !old(stopped)
      ensures batch.Some? ==> batch.value == old(pending)
      ensures pending == [] && Now() == AfterTake(old(Now()))
    {
      if pending == [] && !stopped { return None; }
      batch := Some(pending);
      pending := [];
    }
  }

  // ---- routing ----

  ghost predicate Distinct(channels: seq<ModuleChannel>)
  {
    forall i, j :: 0 <= i < j < |channels| ==> channels[i] != channels[j]
  }

  /** A channel that wants the event and has room for it. */
  predicate Takes(wants: bool, c: Shared)
  {
    wants && c.alive && !c.stopped && |c.pending| < 256
  }

  /** A channel that wants the event while 256 others are waiting. */
  predicate Drops(wants: bool, c: Shared)
  {
    wants && c.alive && !c.stopped && |c.pending| >= 256
  }

  /** What one channel is after an event has been routed to it. */
  function Routed(wants: bool, c: Shared, e: nat): Shared
  {
    if Takes(wants, c) then c.(pending := c.pending + [e]) else c
  }

  /** One channel's turn. */
  method Deliver(c: ModuleChannel, e: nat) returns (full: bool)
    modifies c
    ensures c.Now() == Routed(c.accepts(e), old(c.Now()), e)
    ensures full <==> Drops(c.accepts(e), old(c.Now()))
  {
    full := false;
    if c.accepts(e) {
      var r := c.Enqueue(e);
      full := r.Full?;
      if full {
        c.overflowReported := true;
      }
    }
  }

  lemma OneOf(channels: seq<ModuleChannel>, k: nat)
    requires Distinct(channels) && k < |channels|
    ensures forall i :: 0 <= i < |channels| && i != k ==> channels[i] != channels[k]
  {
  }

  /** Publishing goes over a snapshot of the channels; each takes the event, drops it, or does
      not want it, and no channel affects another. The drops are counted. */
  method Route(channels: seq<ModuleChannel>, e: nat) returns (dropped: nat, ghost full: set<nat>)
    requires Distinct(channels)
    modifies channels
    ensures forall i :: 0 <= i < |channels| ==>
              channels[i].Now() == Routed(channels[i].accepts(e), old(channels[i].Now()), e)
    ensures forall i: nat :: i in full <==> i < |channels| && Drops(channels[i].accepts(e), old(channels[i].Now()))
    ensures dropped == |full|
  {
    hide Takes, Drops, Routed, Distinct;
    dropped, full := 0, {};
    for k := 0 to |channels|
      invariant forall i :: 0 <= i < k ==>
                  channels[i].Now() == Routed(channels[i].accepts(e), old(channels[i].Now()), e)
      invariant forall i :: k <= i < |channels| ==> channels[i].Now() == old(channels[i].Now())
      invariant forall i: nat :: i in full <==> i < k && Drops(channels[i].accepts(e), old(channels[i].Now()))
      invariant dropped == |full|
    {
      OneOf(channels, k);
      var isFull := Deliver(channels[k], e);
      if isFull {
        dropped, full := dropped + 1, full + {k};
      }
    }
  }

  /** The table of channels. */
  class Bridge {
    var modules: map<nat, ModuleChannel>
    /** Every channel ever registered. */
    ghost var known: set<ModuleChannel>

    /** A channel that is not in the table has been stopped. */
    ghost predicate Valid()
      reads this, known
    {
      && (forall id :: id in modules ==> modules[id] in known)
      && (forall id, other :: id in modules && other in modules && id != other ==> modules[id] != modules[other])
      && (forall c :: c in known && !Registered(c) ==> c.stopped && c.pending == [])
    }

    ghost predicate Registered(c: ModuleChannel)
      reads this
    {
      exists id :: id in modules && modules[id] == c
    }

    constructor ()
      ensures Valid() && modules == map[] && known == {}
    {
      modules := map[];
      known := {};
    }

    /** The table's critical sections; between them other threads may act. */
    method RemoveEntry(id: nat) returns (r: Option<ModuleChannel>)
      modifies this`modules
      ensures modules == old(modules) - {id}
      ensures r == if id in old(modules) then Some(old(modules)[id]) else None
    {
      r := if id in modules then Some(modules[id]) else None;
      modules := modules - {id};
    }

    method InsertEntry(id: nat, channel: ModuleChannel)
      modifies this`modules, this`known
      ensures modules == old(modules)[id := channel] && known == old(known) + {channel}
    {
      modules := modules[id := channel];
      known := known + {channel};
    }

    /** Undisturbed by other threads. */
    method Unregister(id: nat)
      requires Valid()
      modifies this`modules, known
      ensures Valid() && known == old(known)
      ensures modules == old(modules) - {id}
      ensures id in old(modules) ==> old(modules)[id].stopped && old(modules)[id].pending == []
      ensures forall c :: c in known && (id !in old(modules) || c != old(modules)[id]) ==> c.Now() == old(c.Now())
    {
      ghost var before := modules;
      var channel := RemoveEntry(id);
      if channel.None? {
        assert modules == before;
        return;
      }
      channel.value.Stop();
      forall c | c in known ensures Registered(c) || (c.stopped && c.pending == []) {
        if exists other :: other in before && other != id && before[other] == c {
          var other :| other in before && other != id && before[other] == c;
          assert other in modules && modules[other] == c;
        }
      }
    }

    /** Registering an id again first shuts the old channel down. Undisturbed by other threads. */
    method Register(id: nat, accepts: nat -> bool) returns (channel: ModuleChannel)
      requires Valid()
      modifies this, known
      ensures Valid() && fresh(channel) && known == old(known) + {channel}
      ensures modules == old(modules)[id := channel]
      ensures channel.Now() == Shared([], false, true) && channel.accepts == accepts
      ensures id in old(modules) ==> old(modules)[id].stopped && old(modules)[id].pending == []
      ensures forall c :: c in old(known) && (id !in old(modules) || c != old(modules)[id]) ==> c.Now() == old(c.Now())
    {
      Unregister(id);
      channel := new ModuleChannel(accepts);
      ghost var before := modules;
      InsertEntry(id, channel);
      assert id in modules && modules[id] == channel;
      forall c | c in known ensures Registered(c) || (c.stopped && c.pending == []) {
        if exists other :: other in before && before[other] == c {
          var other :| other in before && before[other] == c;
          assert other in modules && modules[other] == c;
        }
      }
    }
  }
}
