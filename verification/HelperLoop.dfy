/** The helper's side of a capability call as it is programmed: a loop over received frames that
    puts events off, and the queue that the main loop drains. It is proved to be the session's
    CapabilityRead action, taken once per frame. */
module HelperLoop {
  import opened Bytes
  import opened Session

  /** The session after its capability call has read `n` frames. */
  function AfterReads(s: State, n: nat): Option<State>
  {
    if n == 0 then Some(s)
    else match AfterReads(s, n - 1)
      case None => None
      case Some(t) => DoCapabilityRead(t)
  }

  lemma NextRead(s: State, n: nat, t: State)
    requires AfterReads(s, n) == Some(t)
    ensures AfterReads(s, n + 1) == DoCapabilityRead(t)
  {
  }

  /** The session when the frames before `k` have been read. */
  function At(s: State, inbox: seq<ToHelper>, k: nat, deferred: seq<nat>, dropped: nat): State
    requires k <= |inbox|
  {
    s.(toHelper := inbox[k..], deferred := deferred, dropped := dropped)
  }

  /** The call over. */
  function Ended(s: State, granted: bool): State
    requires s.helper.Working?
  {
    s.(helper := s.helper.(awaiting := None), refused := if granted then s.refused else s.refused + 1)
  }

  lemma ReadEvent(s: State, inbox: seq<ToHelper>, k: nat, deferred: seq<nat>, dropped: nat)
    requires s.helper.Working? && s.helper.awaiting.Some? && k < |inbox| && inbox[k].Event?
    ensures DoCapabilityRead(At(s, inbox, k, deferred, dropped))
            == Some(if |deferred| >= DEFERRED_CAPACITY then At(s, inbox, k + 1, deferred, dropped + 1)
                    else At(s, inbox, k + 1, deferred + [inbox[k].n], dropped))
  {
    assert inbox[k..][1..] == inbox[k + 1..];
  }

  lemma ReadOther(s: State, inbox: seq<ToHelper>, k: nat, deferred: seq<nat>, dropped: nat)
    requires s.helper.Working? && s.helper.awaiting.Some? && k < |inbox| && !inbox[k].Event?
    ensures DoCapabilityRead(At(s, inbox, k, deferred, dropped))
            == Some(Ended(At(s, inbox, k + 1, deferred, dropped), inbox[k] == CapResponse(s.helper.awaiting.value)))
  {
    assert inbox[k..][1..] == inbox[k + 1..];
  }

  /** How a call ends: with the awaited response, with anything else, or not yet. */
  datatype CallEnd = Granted | Refused | StillWaiting

  class HelperRuntime {
    var deferred: seq<nat>
    var dropped: nat
    var capabilitySeq: nat
    var outbox: seq<ToHost>

    constructor ()
      ensures deferred == [] && dropped == 0 && capabilitySeq == 0 && outbox == []
    {
      deferred := [];
      dropped := 0;
      capabilitySeq := 0;
      outbox := [];
    }

    /** What the session's state says of the runtime. */
    ghost predicate Shows(s: State)
      reads this
    {
      s.deferred == deferred && s.dropped == dropped && s.capSeq == capabilitySeq && s.toHost == outbox
    }

    /** Ids are unique in a session. */
    method NextCapabilityRequestId() returns (id: nat)
      modifies this`capabilitySeq
      ensures id == old(capabilitySeq) + 1 && capabilitySeq == id
    {
      capabilitySeq := capabilitySeq + 1;
      id := capabilitySeq;
    }

    /** A full queue drops the event instead of growing or blocking. */
    method DeferHostNotification(n: nat)
      modifies this`deferred, this`dropped
      ensures old(|deferred|) < DEFERRED_CAPACITY ==> deferred == old(deferred) + [n] && dropped == old(dropped)
      ensures old(|deferred|) >= DEFERRED_CAPACITY ==> deferred == old(deferred) && dropped == old(dropped) + 1
    {
      if |deferred| >= DEFERRED_CAPACITY {
        dropped := dropped + 1;
        return;
      }
      deferred := deferred + [n];
    }

    method DrainDeferred() returns (batch: seq<nat>)
      modifies this`deferred
      ensures batch == old(deferred) && deferred == []
    {
      batch := deferred;
      deferred := [];
    }

    /** Waits for the response to `awaited` among the frames that have come in. */
    method AwaitResponse(inbox: seq<ToHelper>, awaited: nat, ghost s: State) returns (taken: nat, end: CallEnd)
      requires s.helper.Working? && s.helper.awaiting == Some(awaited)
      requires s.toHelper == inbox && s.deferred == deferred && s.dropped == dropped
      modifies this`deferred, this`dropped
      ensures taken <= |inbox| && (end.StillWaiting? ==> taken == |inbox|)
      ensures end.Granted? <==> 0 < taken && inbox[taken - 1] == CapResponse(awaited)
      ensures AfterReads(s, taken)
              == Some(if end.StillWaiting? then At(s, inbox, taken, deferred, dropped)
                      else Ended(At(s, inbox, taken, deferred, dropped), end.Granted?))
    {
      taken := 0;
      assert s == At(s, inbox, 0, deferred, dropped);
      hide DoCapabilityRead, At, Ended;
      while taken < |inbox|
        invariant taken <= |inbox|
        invariant taken > 0 ==> inbox[taken - 1].Event?
        invariant AfterReads(s, taken) == Some(At(s, inbox, taken, deferred, dropped))
      {
        var frame := inbox[taken];
        NextRead(s, taken, At(s, inbox, taken, deferred, dropped));
        if frame.Event? {
          ReadEvent(s, inbox, taken, deferred, dropped);
          DeferHostNotification(frame.n);
          taken := taken + 1;
        } else {
          ReadOther(s, inbox, taken, deferred, dropped);
          return taken + 1, if frame == CapResponse(awaited) then Granted else Refused;
        }
      }
      return taken, StillWaiting;
    }

    /** A whole capability call: a fresh number, the request, then the receive loop. It is the
        session's CallCapability action and the reads that follow it. */
    method PluginCapability(inbox: seq<ToHelper>, ghost p: Plugin, ghost s: State) returns (id: nat, taken: nat, end: CallEnd)
      requires DoCallCapability(p, s).Some? && Shows(s) && s.toHelper == inbox
      modifies this
      ensures var t := DoCallCapability(p, s).value;
              && t.helper.awaiting == Some(id) && capabilitySeq == t.capSeq && outbox == t.toHost == old(outbox) + [CapRequest(id)]
              && taken <= |inbox| && (end.Granted? <==> 0 < taken && inbox[taken - 1] == CapResponse(id))
              && AfterReads(t, taken)
                 == Some(if end.StillWaiting? then At(t, inbox, taken, deferred, dropped)
                         else Ended(At(t, inbox, taken, deferred, dropped), end.Granted?))
    {
      id := NextCapabilityRequestId();
      outbox := outbox + [CapRequest(id)];
      taken, end := AwaitResponse(inbox, id, DoCallCapability(p, s).value);
    }
  }

  /** The loop is part of a run: reading `n` frames is `n` CapabilityRead actions. */
  lemma {:induction false} ReadsAreActions(p: Plugin, s: State, n: nat)
    ensures Run(p, s, seq(n, i => CapabilityRead)) == AfterReads(s, n)
  {
    var actions := seq(n, i => CapabilityRead);
    if n > 0 {
      assert actions[..n - 1] == seq(n - 1, i => CapabilityRead);
      ReadsAreActions(p, s, n - 1);
    }
  }
}
