/** Plugins compared: which of them have the same runs, and how a run comes to the handler of an
    event that may make capability calls. */
module SessionPlugins {
  import opened Bytes
  import opened Session

  /** Some event handler can come to make a capability call. Nothing is drained unless a call has
      put an event off, so that calls in drained events need other calls before them. */
  predicate EventHandlersCall(p: Plugin)
  {
    p.inDirect || (p.inDrained && p.inRequests)
  }

  /** The handler of a drained event can come to make a capability call. */
  predicate DrainedHandlersCall(p: Plugin)
  {
    p.inDrained && (p.inDirect || p.inRequests)
  }

  // ---- a plugin that may do more has all the runs of one that may do less ----

  predicate Covers(q: Plugin, p: Plugin)
  {
    (p.inRequests ==> q.inRequests) && (p.inDirect ==> q.inDirect) && (p.inDrained ==> q.inDrained)
  }

  lemma {:induction false} CoveredRuns(p: Plugin, q: Plugin, actions: seq<Action>)
    requires Covers(q, p) && Run(p, INITIAL, actions).Some?
    ensures Run(q, INITIAL, actions) == Run(p, INITIAL, actions)
    decreases |actions|
  {
    if actions != [] {
      CoveredRuns(p, q, actions[..|actions| - 1]);
      StepCovered(p, q, Run(p, INITIAL, actions[..|actions| - 1]).value, actions[|actions| - 1]);
    }
  }

  lemma StepCovered(p: Plugin, q: Plugin, s: State, a: Action)
    requires Covers(q, p) && Next(p, s, a).Some?
    ensures Next(q, s, a) == Next(p, s, a)
  {
  }

  // ---- without other calls nothing is drained ----

  ghost predicate NothingPutOff(s: State)
  {
    && s.deferred == [] && s.batch == []
    && (s.helper.Working? ==> !s.helper.drained && s.helper.awaiting.None?)
  }

  lemma {:induction false} NothingDrained(p: Plugin, actions: seq<Action>)
    requires !p.inRequests && !p.inDirect && Run(p, INITIAL, actions).Some?
    ensures NothingPutOff(Run(p, INITIAL, actions).value)
    ensures Run(IN_REQUESTS, INITIAL, actions) == Run(p, INITIAL, actions)
    decreases |actions|
  {
    if actions != [] {
      NothingDrained(p, actions[..|actions| - 1]);
      StepDrainsNothing(p, Run(p, INITIAL, actions[..|actions| - 1]).value, actions[|actions| - 1]);
    }
  }

  lemma StepDrainsNothing(p: Plugin, s: State, a: Action)
    requires !p.inRequests && !p.inDirect && NothingPutOff(s) && Next(p, s, a).Some?
    ensures NothingPutOff(Next(p, s, a).value)
    ensures Next(IN_REQUESTS, s, a) == Next(p, s, a)
  {
  }

  /** What holds of plugins that call in requests only holds of every plugin whose event handlers
      cannot come to make a call. */
  lemma RunsAsInRequests(p: Plugin, actions: seq<Action>)
    requires !EventHandlersCall(p) && Run(p, INITIAL, actions).Some?
    ensures Run(IN_REQUESTS, INITIAL, actions) == Run(p, INITIAL, actions)
  {
    hide Run, Next;
    if p.inRequests {
      CoveredRuns(p, IN_REQUESTS, actions);
    } else {
      NothingDrained(p, actions);
    }
  }

  lemma RunsAsNotDrained(p: Plugin, actions: seq<Action>)
    requires !DrainedHandlersCall(p) && Run(p, INITIAL, actions).Some?
    ensures Run(NOT_DRAINED, INITIAL, actions) == Run(p, INITIAL, actions)
  {
    hide Run, Next;
    if p.inDrained {
      NothingDrained(p, actions);
      CoveredRuns(IN_REQUESTS, NOT_DRAINED, actions);
    } else {
      CoveredRuns(p, NOT_DRAINED, actions);
    }
  }

  // ---- single steps of concrete runs, each extending a run ----

  predicate Fault(a: Action)
  {
    a.TimeOut? || a.Crash? || a.SendFails?
  }

  /** Every response that the actions come to can be sent. */
  predicate AllSent(p: Plugin, s: State, actions: seq<Action>)
    decreases |actions|
  {
    actions != [] ==>
      && AllSent(p, s, actions[..|actions| - 1])
      && (Run(p, s, actions[..|actions| - 1]).Some? ==>
            !Unsendable(Run(p, s, actions[..|actions| - 1]).value, actions[|actions| - 1]))
  }

  predicate Untroubled(actions: seq<Action>)
  {
    forall a :: a in actions ==> !Fault(a)
  }

  predicate Faultless(p: Plugin, actions: seq<Action>)
  {
    Untroubled(actions) && AllSent(p, INITIAL, actions)
  }

  /** Responses are sent or not whatever the plugin may call elsewhere. */
  lemma {:induction false} SentAsInRequests(p: Plugin, actions: seq<Action>)
    requires !EventHandlersCall(p) && Run(p, INITIAL, actions).Some?
    ensures AllSent(IN_REQUESTS, INITIAL, actions) <==> AllSent(p, INITIAL, actions)
    decreases |actions|
  {
    hide Next, Unsendable;
    if actions != [] {
      var before := actions[..|actions| - 1];
      SentAsInRequests(p, before);
      RunsAsInRequests(p, before);
    }
  }

  /** `r` leads to `s`. */
  ghost predicate Leads(p: Plugin, r: seq<Action>, s: State)
  {
    Run(p, INITIAL, r) == Some(s)
  }

  lemma Step(p: Plugin, r: seq<Action>, s: State, a: Action)
    requires Leads(p, r, s) && Next(p, s, a).Some?
    ensures Leads(p, r + [a], Next(p, s, a).value)
    ensures Faultless(p, r) && !Fault(a) && !Unsendable(s, a) ==> Faultless(p, r + [a])
  {
    RunThen(p, INITIAL, r, s, a);
    assert (r + [a])[..|r|] == r;
  }

  lemma EmptyRun(p: Plugin)
    ensures Leads(p, [], INITIAL) && Faultless(p, [])
  {
  }

  /** A request or an event arrives at an idle pipe. */
  lemma Sends(s: State)
    requires s.waiting.None? && s.toHelper == []
    ensures DoSend(s) == Some(s.(nextId := s.nextId + 1, sent := s.sent + 1, waiting := Some(s.nextId), toHelper := [Request(s.nextId)]))
  {
    assert s.toHelper + [Request(s.nextId)] == [Request(s.nextId)];
  }

  lemma Pushes(s: State)
    requires s.toHelper == []
    ensures DoPush(s) == Some(s.(pushed := s.pushed + 1, toHelper := [Event(s.pushed)]))
  {
    assert s.toHelper + [Event(s.pushed)] == [Event(s.pushed)];
  }

  lemma Calls(p: Plugin, s: State)
    requires s.helper.Working? && s.helper.awaiting.None? && MayCall(p, s.helper.job, s.helper.drained) && s.toHost == []
    ensures DoCallCapability(p, s)
            == Some(s.(capSeq := s.capSeq + 1, toHost := [CapRequest(s.capSeq + 1)],
                       helper := s.helper.(awaiting := Some(s.capSeq + 1))))
  {
    assert s.toHost + [CapRequest(s.capSeq + 1)] == [CapRequest(s.capSeq + 1)];
  }

  lemma PutsOff(s: State)
    requires s.helper.Working? && s.helper.awaiting.Some? && s.deferred == []
    requires |s.toHelper| == 1 && s.toHelper[0].Event?
    ensures DoCapabilityRead(s) == Some(s.(toHelper := [], deferred := [s.toHelper[0].n]))
  {
    assert s.deferred + [s.toHelper[0].n] == [s.toHelper[0].n];
    assert s.toHelper[1..] == [];
  }

  /** The host takes the capability request up, and answers it. */
  lemma Takes(s: State)
    requires s.ioAlive && s.answering.None? && s.toHost != [] && s.toHost[0].CapRequest?
    ensures DoIoRead(s) == Some(s.(toHost := s.toHost[1..], answering := Some(s.toHost[0].id)))
  {
  }

  lemma Grants(s: State)
    requires s.answering.Some? && !s.helper.Exited? && s.toHelper == []
    ensures DoIoAnswer(s) == Some(s.(answering := None, toHelper := [CapResponse(s.answering.value)]))
  {
    assert s.toHelper + [CapResponse(s.answering.value)] == [CapResponse(s.answering.value)];
  }

  lemma Granted(s: State)
    requires s.helper.Working? && s.helper.awaiting.Some? && s.toHelper == [CapResponse(s.helper.awaiting.value)]
    ensures DoCapabilityRead(s) == Some(s.(toHelper := [], helper := s.helper.(awaiting := None)))
  {
    assert s.toHelper[1..] == [];
  }

  lemma Refused(s: State)
    requires s.helper.Working? && s.helper.awaiting.Some? && |s.toHelper| == 1 && !s.toHelper[0].Event?
    requires s.toHelper[0] != CapResponse(s.helper.awaiting.value)
    ensures DoCapabilityRead(s) == Some(s.(toHelper := [], helper := s.helper.(awaiting := None), refused := s.refused + 1))
  {
    assert s.toHelper[1..] == [];
  }

  // ---- coming to an event handler ----

  /** The plugin handles an event, and nothing else is under way. */
  ghost predicate InHandler(s: State, drained: bool)
  {
    && s.helper.Working? && s.helper.job.ForEvent? && s.helper.drained == drained && s.helper.awaiting.None?
    && s.waiting.None? && s.replies == [] && s.ioAlive && s.answering.None? && s.toHelper == [] && s.toHost == []
    && s.deferred == [] && s.batch == []
  }

  /** A job in which a call puts the next event off, and is granted. */
  ghost predicate InJob(s: State)
  {
    && s.helper.Working? && s.helper.awaiting.None?
    && s.ioAlive && s.answering.None? && s.toHelper == [] && s.toHost == [] && s.deferred == [] && s.batch == []
  }

  lemma CallPutsOff(p: Plugin, r: seq<Action>, s: State) returns (r': seq<Action>, s': State)
    requires Leads(p, r, s) && InJob(s) && MayCall(p, s.helper.job, s.helper.drained)
    ensures Leads(p, r', s') && (Faultless(p, r) ==> Faultless(p, r'))
    ensures s' == s.(capSeq := s.capSeq + 1, pushed := s.pushed + 1, deferred := [s.pushed])
  {
    hide Leads, Faultless, DoCallCapability, DoPush, DoCapabilityRead, DoIoRead, DoIoAnswer;
    var c := s.capSeq + 1;
    Calls(p, s);
    var s1 := s.(capSeq := c, toHost := [CapRequest(c)], helper := s.helper.(awaiting := Some(c)));
    Step(p, r, s, CallCapability);
    Pushes(s1);
    var s2 := s1.(pushed := s.pushed + 1, toHelper := [Event(s.pushed)]);
    Step(p, r + [CallCapability], s1, Push);
    PutsOff(s2);
    var s3 := s2.(toHelper := [], deferred := [s.pushed]);
    Step(p, r + [CallCapability] + [Push], s2, CapabilityRead);
    Takes(s3);
    var s4 := s3.(toHost := [], answering := Some(c));
    assert s3.toHost[1..] == [];
    Step(p, r + [CallCapability] + [Push] + [CapabilityRead], s3, IoRead);
    Grants(s4);
    var s5 := s4.(answering := None, toHelper := [CapResponse(c)]);
    Step(p, r + [CallCapability] + [Push] + [CapabilityRead] + [IoRead], s4, IoAnswer(SHORT));
    Granted(s5);
    Step(p, r + [CallCapability] + [Push] + [CapabilityRead] + [IoRead] + [IoAnswer(SHORT)], s5, CapabilityRead);
    r' := r + [CallCapability] + [Push] + [CapabilityRead] + [IoRead] + [IoAnswer(SHORT)] + [CapabilityRead];
    s' := s5.(toHelper := [], helper := s.helper);
  }

  lemma ReachesDirect(p: Plugin) returns (r: seq<Action>, s: State)
    ensures Leads(p, r, s) && Faultless(p, r) && InHandler(s, false) && s.handled == [0] && s.pushed == 1 && s.returned == []
  {
    EmptyRun(p);
    Pushes(INITIAL);
    var s1 := INITIAL.(pushed := 1, toHelper := [Event(0)]);
    Step(p, [], INITIAL, Push);
    s := s1.(toHelper := [], helper := Working(ForEvent(0), false, None), handled := [0]);
    assert s1.toHelper[1..] == [] && s1.handled + [0] == [0];
    assert DoHelperRead(s1) == Some(s);
    Step(p, [] + [Push], s1, HelperRead);
    r := [] + [Push] + [HelperRead];
  }

  /** A direct handler's call has put event 1 off, which is then drained. */
  lemma DrainedAfterEvent(p: Plugin) returns (r: seq<Action>, s: State)
    requires p.inDirect
    ensures Leads(p, r, s) && Faultless(p, r) && InHandler(s, true) && s.handled == [0, 1] && s.pushed == 2
  {
    var r1, s1 := ReachesDirect(p);
    hide Leads, Faultless;
    var r2, s2 := CallPutsOff(p, r1, s1);
    s := s2.(deferred := [], helper := Working(ForEvent(1), true, None), handled := [0, 1]);
    assert s2.deferred[1..] == [] && s2.handled + [1] == [0, 1];
    assert DoFinish(s2, Success(0)) == Some(s);
    Step(p, r2, s2, Finish(Success(0), 64));
    r := r2 + [Finish(Success(0), 64)];
  }

  lemma RequestWorkedOn(p: Plugin) returns (r: seq<Action>, s: State)
    ensures Leads(p, r, s) && Faultless(p, r)
    ensures s == INITIAL.(nextId := 1, sent := 1, waiting := Some(0), helper := Working(ForRequest(0), false, None))
  {
    hide Leads, Faultless;
    EmptyRun(p);
    Sends(INITIAL);
    var s1 := INITIAL.(nextId := 1, sent := 1, waiting := Some(0), toHelper := [Request(0)]);
    Step(p, [], INITIAL, Send);
    s := s1.(toHelper := [], helper := Working(ForRequest(0), false, None));
    assert s1.toHelper[1..] == [] && DoHelperRead(s1) == Some(s);
    Step(p, [] + [Send], s1, HelperRead);
    r := [] + [Send] + [HelperRead];
  }

  /** The answer of a request returns to its caller. */
  lemma AnswerReturns(p: Plugin, r: seq<Action>, s: State, id: nat, v: nat) returns (r': seq<Action>, s': State)
    requires Leads(p, r, s) && s.ioAlive && s.answering.None? && s.replies == [] && s.waiting == Some(id)
    requires s.toHost == [Response(id, Success(v))]
    ensures Leads(p, r', s') && (Faultless(p, r) ==> Faultless(p, r'))
    ensures s' == s.(toHost := [], waiting := None, consumed := s.consumed + 1, returned := s.returned + [Returned(id, Ok(v))])
  {
    hide Leads, Faultless;
    var s1 := s.(toHost := [], replies := [Reply(id, Success(v))]);
    assert s.toHost[1..] == [] && s.replies + [Reply(id, Success(v))] == [Reply(id, Success(v))];
    assert DoIoRead(s) == Some(s1);
    Step(p, r, s, IoRead);
    s' := s1.(waiting := None, replies := [], consumed := s.consumed + 1, returned := s.returned + [Returned(id, Ok(v))]);
    assert s1.replies[1..] == [] && DoReceive(s1) == Some(s');
    Step(p, r + [IoRead], s1, Receive);
    r' := r + [IoRead] + [Receive];
  }

  /** A request's call has put event 0 off, which is then drained. */
  lemma DrainedAfterRequest(p: Plugin) returns (r: seq<Action>, s: State)
    requires p.inRequests
    ensures Leads(p, r, s) && Faultless(p, r) && InHandler(s, true) && s.handled == [0] && s.pushed == 1
  {
    var r1, s1 := RequestWorkedOn(p);
    var r2, s2 := CallPutsOff(p, r1, s1);
    var s3 := s2.(toHost := [Response(0, Success(5))], computed := map[0 := Success(5)], deferred := [],
                  helper := Working(ForEvent(0), true, None), handled := [0]);
    assert s2.deferred[1..] == [] && s2.handled + [0] == [0] && s2.toHost + [Response(0, Success(5))] == s3.toHost;
    assert DoFinish(s2, Success(5)) == Some(s3);
    Step(p, r2, s2, Finish(Success(5), 64));
    r, s := AnswerReturns(p, r2 + [Finish(Success(5), 64)], s3, 0, 5);
  }

  /** A plugin whose event handlers can come to make a call, about to make one. */
  lemma HandlerReached(p: Plugin) returns (r: seq<Action>, s: State)
    requires EventHandlersCall(p)
    ensures Leads(p, r, s) && Faultless(p, r)
    ensures s.helper.Working? && InHandler(s, s.helper.drained) && MayCall(p, s.helper.job, s.helper.drained)
  {
    if p.inDirect {
      r, s := ReachesDirect(p);
    } else {
      r, s := DrainedAfterRequest(p);
    }
  }

  lemma DrainedHandlerReached(p: Plugin) returns (r: seq<Action>, s: State)
    requires DrainedHandlersCall(p)
    ensures Leads(p, r, s) && InHandler(s, true) && MayCall(p, s.helper.job, true)
  {
    if p.inDirect {
      r, s := DrainedAfterEvent(p);
    } else {
      r, s := DrainedAfterRequest(p);
    }
  }

  /** From there: the handler's call reads the host's next request, which is lost. */
  lemma CallLosesRequest(p: Plugin, r: seq<Action>, s: State) returns (r': seq<Action>, s': State)
    requires Leads(p, r, s) && s.helper.Working? && InHandler(s, s.helper.drained)
    requires MayCall(p, s.helper.job, s.helper.drained)
    ensures Leads(p, r', s') && (Faultless(p, r) ==> Faultless(p, r'))
    ensures s' == s.(capSeq := s.capSeq + 1, toHost := [CapRequest(s.capSeq + 1)], refused := s.refused + 1,
                     nextId := s.nextId + 1, sent := s.sent + 1, waiting := Some(s.nextId))
  {
    hide Leads, Faultless, DoCallCapability, DoSend, DoCapabilityRead;
    var c := s.capSeq + 1;
    Calls(p, s);
    var s1 := s.(capSeq := c, toHost := [CapRequest(c)], helper := s.helper.(awaiting := Some(c)));
    Step(p, r, s, CallCapability);
    Sends(s1);
    var s2 := s1.(nextId := s.nextId + 1, sent := s.sent + 1, waiting := Some(s.nextId), toHelper := [Request(s.nextId)]);
    Step(p, r + [CallCapability], s1, Send);
    Refused(s2);
    Step(p, r + [CallCapability] + [Send], s2, CapabilityRead);
    r' := r + [CallCapability] + [Send] + [CapabilityRead];
    s' := s2.(toHelper := [], helper := s.helper, refused := s.refused + 1);
  }
}
