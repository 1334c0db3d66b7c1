/** Without time-outs, crashes and responses that cannot be sent, the session keeps requests and
    responses paired, whatever events are pushed in between, exactly when no event handler can make
    a capability call. */
module SessionProtocol {
  import opened Bytes
  import opened Session
  import opened SessionPlugins

  // ---- every run: one response per handled request, none for an event ----

  function Responses(frames: seq<ToHost>): nat
  {
    if frames == [] then 0 else Responses(frames[1..]) + (if frames[0].Response? then 1 else 0)
  }

  lemma {:induction false} ResponsesAppend(frames: seq<ToHost>, f: ToHost)
    ensures Responses(frames + [f]) == Responses(frames) + (if f.Response? then 1 else 0)
  {
    if frames != [] {
      assert (frames + [f])[1..] == frames[1..] + [f];
      ResponsesAppend(frames[1..], f);
    }
  }

  ghost predicate Balanced(s: State)
  {
    s.consumed + |s.replies| + Responses(s.toHost) == |s.computed|
  }

  lemma NewResult(m: map<nat, Outcome>, id: nat, outcome: Outcome)
    requires id !in m
    ensures |m[id := outcome]| == |m| + 1
  {
    assert m[id := outcome].Keys == m.Keys + {id};
  }

  lemma FinishBalanced(s: State, outcome: Outcome)
    requires Balanced(s) && Honest(s) && DoFinish(s, outcome).Some?
    ensures Balanced(DoFinish(s, outcome).value)
  {
    hide DoFinish, Responses, Ordered, RequestIds;
    FinishNeedsJob(s, outcome);
    FinishEffect(s, outcome);
    FinishConsumes(s, outcome);
    if s.helper.job.ForRequest? {
      OrderedAnswer(Unanswered(s), s.computed.Keys, s.nextId);
      assert Unanswered(s)[0] == s.helper.job.id;
      NewResult(s.computed, s.helper.job.id, outcome);
      ResponsesAppend(s.toHost, Response(s.helper.job.id, outcome));
    }
  }

  lemma FinishConsumes(s: State, outcome: Outcome)
    requires DoFinish(s, outcome).Some?
    ensures DoFinish(s, outcome).value.consumed == s.consumed
  {
  }

  lemma StepBalanced(p: Plugin, s: State, a: Action)
    requires Balanced(s) && Honest(s) && Next(p, s, a).Some?
    ensures Balanced(Next(p, s, a).value)
  {
    hide Honest;
    if Unsendable(s, a) { return; }
    match a
    case Finish(outcome, _) => FinishBalanced(s, outcome);
    case CallCapability => ResponsesAppend(s.toHost, CapRequest(s.capSeq + 1));
    case _ =>
  }

  /** Main result, for every plugin and every run: as many responses have left the helper as it
      has handled requests, but for one that cannot be sent, which ends it. An event never makes a
      frame. */
  lemma {:induction false} OneResponsePerRequest(p: Plugin, actions: seq<Action>)
    requires Run(p, INITIAL, actions).Some?
    ensures Balanced(Run(p, INITIAL, actions).value)
    decreases |actions|
  {
    hide Balanced, Honest, Next;
    if actions != [] {
      var before := actions[..|actions| - 1];
      OneResponsePerRequest(p, before);
      RunHonest(p, before);
      StepBalanced(p, Run(p, INITIAL, before).value, actions[|actions| - 1]);
    } else {
      InitialBalanced();
    }
  }

  lemma InitialBalanced()
    ensures Balanced(INITIAL)
  {
  }

  // ---- the conversation ----

  function NonEvents(frames: seq<ToHelper>): seq<ToHelper>
  {
    if frames == [] then []
    else (if frames[0].Event? then [] else [frames[0]]) + NonEvents(frames[1..])
  }

  lemma {:induction false} NonEventsAppend(frames: seq<ToHelper>, f: ToHelper)
    ensures NonEvents(frames + [f]) == NonEvents(frames) + (if f.Event? then [] else [f])
  {
    if frames != [] {
      assert (frames + [f])[1..] == frames[1..] + [f];
      NonEventsAppend(frames[1..], f);
    } else {
      assert NonEvents([]) == [];
    }
  }

  /** No request is being worked on. */
  predicate Quiet(h: Helper)
  {
    h.Reading? || (h.Working? && h.job.ForEvent? && h.awaiting.None?)
  }

  /** Where request `id` is. */
  datatype Stage = Sent | Computing | Asking | Granting | Granted | Answered | Replied

  /** Everything but events that is under way at each stage. */
  ghost predicate At(s: State, id: nat, stage: Stage)
  {
    var frames := NonEvents(s.toHelper);
    match stage
    case Sent => frames == [Request(id)] && Quiet(s.helper) && s.toHost == [] && s.answering.None? && s.replies == []
    case Computing =>
      frames == [] && s.helper == Working(ForRequest(id), false, None) && s.toHost == [] && s.answering.None? && s.replies == []
    case Asking =>
      frames == [] && s.helper == Working(ForRequest(id), false, Some(s.capSeq)) && s.toHost == [CapRequest(s.capSeq)]
      && s.answering.None? && s.replies == []
    case Granting =>
      frames == [] && s.helper == Working(ForRequest(id), false, Some(s.capSeq)) && s.toHost == []
      && s.answering == Some(s.capSeq) && s.replies == []
    case Granted =>
      frames == [CapResponse(s.capSeq)] && s.helper == Working(ForRequest(id), false, Some(s.capSeq)) && s.toHost == []
      && s.answering.None? && s.replies == []
    case Answered =>
      frames == [] && Quiet(s.helper) && id in s.computed && s.toHost == [Response(id, s.computed[id])]
      && s.answering.None? && s.replies == []
    case Replied =>
      frames == [] && Quiet(s.helper) && id in s.computed && s.toHost == []
      && s.answering.None? && s.replies == [Reply(id, s.computed[id])]
  }

  ghost predicate AtRest(s: State)
  {
    NonEvents(s.toHelper) == [] && Quiet(s.helper) && s.toHost == [] && s.answering.None? && s.replies == []
  }

  /** Request `k` has been answered with its own result, or with its own error. */
  ghost predicate OwnResult(s: State, k: nat)
    requires k < |s.returned|
  {
    && k in s.computed && s.returned[k].id == k
    && (forall v :: s.computed[k] == Success(v) <==> s.returned[k].answer == Ok(v))
    && (forall c :: s.computed[k] == Failure(c) <==> s.returned[k].answer == Remote(c))
  }

  ghost predicate Paired(s: State)
  {
    && s.ioAlive && s.refused == 0
    && (forall k :: 0 <= k < |s.returned| ==> OwnResult(s, k))
    && (s.waiting.None? ==> |s.returned| == s.nextId && AtRest(s))
    && (s.waiting.Some? ==> s.waiting.value == |s.returned| && s.nextId == |s.returned| + 1
                            && exists stage :: At(s, s.waiting.value, stage))
  }

  // ---- one step of the conversation ----

  /** Fields that only the caller and the capability calls change. */
  ghost predicate SameCaller(s: State, t: State)
  {
    && t.nextId == s.nextId && t.waiting == s.waiting && t.returned == s.returned && t.ioAlive == s.ioAlive
    && t.refused == s.refused
  }

  lemma ResultsKept(s: State, t: State)
    requires t.returned == s.returned && t.computed == s.computed
    ensures forall k :: 0 <= k < |s.returned| && OwnResult(s, k) ==> OwnResult(t, k)
  {
  }

  lemma SendPaired(s: State)
    requires Paired(s) && DoSend(s).Some?
    ensures Paired(DoSend(s).value)
  {
    var t := DoSend(s).value;
    NonEventsAppend(s.toHelper, Request(s.nextId));
    ResultsKept(s, t);
    assert At(t, s.nextId, Sent);
  }

  lemma ReceivePaired(s: State)
    requires Paired(s) && DoReceive(s).Some?
    ensures Paired(DoReceive(s).value)
    ensures DoReceive(s).value.waiting.None?
  {
    var t, id := DoReceive(s).value, s.waiting.value;
    var stage :| At(s, id, stage);
    assert stage == Replied;
    assert t.returned[..|s.returned|] == s.returned;
    assert OwnResult(t, id);
    forall k | 0 <= k < |t.returned| ensures OwnResult(t, k) {
      if k < id {
        assert OwnResult(s, k);
      }
    }
  }

  lemma PushPaired(s: State)
    requires Paired(s)
    ensures Paired(DoPush(s).value)
  {
    var t := DoPush(s).value;
    NonEventsAppend(s.toHelper, Event(s.pushed));
    ResultsKept(s, t);
    if s.waiting.Some? {
      var stage :| At(s, s.waiting.value, stage);
      assert At(t, s.waiting.value, stage);
    }
  }

  lemma IoReadPaired(s: State)
    requires Paired(s) && DoIoRead(s).Some?
    ensures Paired(DoIoRead(s).value)
  {
    var t := DoIoRead(s).value;
    var stage :| At(s, s.waiting.value, stage);
    ResultsKept(s, t);
    if stage == Asking {
      assert At(t, s.waiting.value, Granting);
    } else {
      assert stage == Answered;
      assert At(t, s.waiting.value, Replied);
    }
  }

  lemma IoAnswerPaired(s: State)
    requires Paired(s) && DoIoAnswer(s).Some?
    ensures Paired(DoIoAnswer(s).value)
  {
    var t := DoIoAnswer(s).value;
    var stage :| At(s, s.waiting.value, stage);
    assert stage == Granting;
    NonEventsAppend(s.toHelper, CapResponse(s.answering.value));
    ResultsKept(s, t);
    assert At(t, s.waiting.value, Granted);
  }

  lemma CallPaired(s: State)
    requires Paired(s) && DoCallCapability(IN_REQUESTS, s).Some?
    ensures Paired(DoCallCapability(IN_REQUESTS, s).value)
  {
    var t := DoCallCapability(IN_REQUESTS, s).value;
    var stage :| At(s, s.waiting.value, stage);
    assert stage == Computing;
    ResultsKept(s, t);
    assert At(t, s.waiting.value, Asking);
  }

  lemma CallFailsPaired(s: State)
    requires Paired(s) && DoCallFails(IN_REQUESTS, s).Some?
    ensures Paired(DoCallFails(IN_REQUESTS, s).value)
  {
    var t := DoCallFails(IN_REQUESTS, s).value;
    var stage :| At(s, s.waiting.value, stage);
    assert stage == Computing;
    ResultsKept(s, t);
    assert At(t, s.waiting.value, Computing);
  }

  lemma FirstFrame(frames: seq<ToHelper>)
    requires frames != []
    ensures NonEvents(frames) == (if frames[0].Event? then [] else [frames[0]]) + NonEvents(frames[1..])
  {
  }

  lemma HelperReadPaired(s: State)
    requires Paired(s) && DoHelperRead(s).Some?
    ensures Paired(DoHelperRead(s).value)
  {
    var t := DoHelperRead(s).value;
    FirstFrame(s.toHelper);
    ResultsKept(s, t);
    if s.waiting.Some? {
      var id := s.waiting.value;
      var stage :| At(s, id, stage);
      if s.toHelper[0].Event? {
        assert At(t, id, stage);
      } else {
        assert stage == Sent && NonEvents(s.toHelper)[0] == s.toHelper[0];
        assert At(t, id, Computing);
      }
    } else {
      assert s.toHelper[0].Event?;
    }
  }

  lemma CapabilityReadPaired(s: State)
    requires Paired(s) && DoCapabilityRead(s).Some?
    ensures Paired(DoCapabilityRead(s).value)
  {
    var t, id := DoCapabilityRead(s).value, s.waiting.value;
    FirstFrame(s.toHelper);
    ResultsKept(s, t);
    var stage :| At(s, id, stage);
    if s.toHelper[0].Event? {
      assert At(t, id, stage);
    } else {
      assert stage == Granted && NonEvents(s.toHelper)[0] == s.toHelper[0];
      assert At(t, id, Computing);
    }
  }

  /** What finishing a job leaves: no request in the helper. */
  lemma FinishQuiet(s: State, outcome: Outcome)
    requires DoFinish(s, outcome).Some?
    ensures Quiet(DoFinish(s, outcome).value.helper)
    ensures SameCaller(s, DoFinish(s, outcome).value)
    ensures DoFinish(s, outcome).value.answering == s.answering
  {
  }

  lemma FinishPaired(s: State, outcome: Outcome)
    requires Paired(s) && DoFinish(s, outcome).Some?
    ensures Paired(DoFinish(s, outcome).value)
  {
    hide DoFinish, RequestIds, NonEvents;
    FinishNeedsJob(s, outcome);
    FinishEffect(s, outcome);
    FinishQuiet(s, outcome);
    var t := DoFinish(s, outcome).value;
    if s.waiting.Some? {
      var id := s.waiting.value;
      var stage :| At(s, id, stage);
      if stage == Computing {
        assert At(t, id, Answered);
      } else {
        assert At(t, id, stage);
      }
      forall k | 0 <= k < |t.returned| ensures OwnResult(t, k) {
        assert OwnResult(s, k);
      }
    } else {
      ResultsKept(s, t);
    }
  }

  lemma StepPaired(s: State, a: Action)
    requires Paired(s) && Next(IN_REQUESTS, s, a).Some? && !Fault(a) && !Unsendable(s, a)
    ensures Paired(Next(IN_REQUESTS, s, a).value)
  {
    match a
    case Send => SendPaired(s);
    case Receive => ReceivePaired(s);
    case Push => PushPaired(s);
    case IoRead => IoReadPaired(s);
    case IoAnswer(_) => IoAnswerPaired(s);
    case HelperRead => HelperReadPaired(s);
    case CallCapability => CallPaired(s);
    case CallFails => CallFailsPaired(s);
    case CapabilityRead => CapabilityReadPaired(s);
    case Finish(outcome, _) => FinishPaired(s, outcome);
    case _ => NotExited(s);
  }

  lemma NotExited(s: State)
    requires Paired(s)
    ensures !s.helper.Exited? && s.ioAlive
  {
  }

  lemma LastFaultless(p: Plugin, actions: seq<Action>)
    requires actions != [] && Faultless(p, actions) && Run(p, INITIAL, actions).Some?
    ensures var before, a := actions[..|actions| - 1], actions[|actions| - 1];
            Faultless(p, before) && !Fault(a) && !Unsendable(Run(p, INITIAL, before).value, a)
  {
    hide Next, Unsendable;
    assert actions[|actions| - 1] in actions;
  }

  lemma {:induction false} RunPaired(actions: seq<Action>)
    requires Run(IN_REQUESTS, INITIAL, actions).Some? && Faultless(IN_REQUESTS, actions)
    ensures Paired(Run(IN_REQUESTS, INITIAL, actions).value)
    decreases |actions|
  {
    if actions != [] {
      hide Paired, Next, Faultless, Unsendable;
      var before := actions[..|actions| - 1];
      LastFaultless(IN_REQUESTS, actions);
      RunPaired(before);
      StepPaired(Run(IN_REQUESTS, INITIAL, before).value, actions[|actions| - 1]);
    } else {
      assert NonEvents([]) == [];
    }
  }

  // ---- progress ----

  /** Steps that the session takes by itself, new capability calls apart. */
  predicate Internal(a: Action)
  {
    a.Receive? || a.IoRead? || a.IoAnswer? || a.HelperRead? || a.CapabilityRead? || a.Finish?
  }

  function FrameWeight(f: ToHelper): nat
  {
    match f
    case Event(_) => 4
    case Request(_) => 8
    case CapResponse(_) => 1
  }

  function PipeWeight(frames: seq<ToHelper>): nat
  {
    if frames == [] then 0 else PipeWeight(frames[1..]) + FrameWeight(frames[0])
  }

  lemma {:induction false} PipeWeightAppend(frames: seq<ToHelper>, f: ToHelper)
    ensures PipeWeight(frames + [f]) == PipeWeight(frames) + FrameWeight(f)
  {
    if frames != [] {
      assert (frames + [f])[1..] == frames[1..] + [f];
      PipeWeightAppend(frames[1..], f);
    }
  }

  function HelperWeight(h: Helper): nat
  {
    if !h.Working? then 0 else if h.job.ForRequest? then 6 else 1
  }

  /** Work that is left in the session. */
  function Measure(s: State): nat
  {
    PipeWeight(s.toHelper) + 3 * |s.deferred| + 2 * |s.batch| + HelperWeight(s.helper)
    + 3 * |s.toHost| + (if s.answering.Some? then 2 else 0) + |s.replies|
  }

  lemma PipeTaken(frames: seq<ToHelper>)
    requires frames != []
    ensures PipeWeight(frames) == PipeWeight(frames[1..]) + FrameWeight(frames[0])
  {
  }

  lemma FinishLeavesLess(s: State, outcome: Outcome)
    requires DoFinish(s, outcome).Some?
    ensures Measure(DoFinish(s, outcome).value) < Measure(s)
  {
    hide PipeWeight;
  }

  lemma CapabilityReadLeavesLess(s: State)
    requires DoCapabilityRead(s).Some?
    ensures Measure(DoCapabilityRead(s).value) < Measure(s)
  {
    hide PipeWeight;
    PipeTaken(s.toHelper);
  }

  lemma HelperReadLeavesLess(s: State)
    requires DoHelperRead(s).Some?
    ensures Measure(DoHelperRead(s).value) < Measure(s)
  {
    hide PipeWeight;
    PipeTaken(s.toHelper);
  }

  lemma IoAnswerLeavesLess(s: State)
    requires DoIoAnswer(s).Some?
    ensures Measure(DoIoAnswer(s).value) < Measure(s)
  {
    hide PipeWeight;
    if !s.helper.Exited? {
      PipeWeightAppend(s.toHelper, CapResponse(s.answering.value));
    }
  }

  /** In every state, each internal step leaves less work. */
  lemma InternalStepsEnd(p: Plugin, s: State, a: Action)
    requires Internal(a) && Next(p, s, a).Some?
    ensures Measure(Next(p, s, a).value) < Measure(s)
  {
    hide PipeWeight;
    if Unsendable(s, a) { return; }
    match a
    case HelperRead => HelperReadLeavesLess(s);
    case CapabilityRead => CapabilityReadLeavesLess(s);
    case IoAnswer(_) => IoAnswerLeavesLess(s);
    case Finish(outcome, _) => FinishLeavesLess(s, outcome);
    case _ =>
  }

  lemma NonEventsNeedFrames(frames: seq<ToHelper>)
    requires NonEvents(frames) != []
    ensures frames != []
  {
  }

  /** No deadlock: while a request is waited for, some internal step is enabled. */
  lemma SomeStepEnabled(s: State) returns (a: Action)
    requires Paired(s) && s.waiting.Some?
    ensures Internal(a) && Next(IN_REQUESTS, s, a).Some? && !Unsendable(s, a)
  {
    hide NonEvents;
    var stage :| At(s, s.waiting.value, stage);
    match stage
    case Sent =>
      NonEventsNeedFrames(s.toHelper);
      a := if s.helper.Reading? then HelperRead else Finish(Success(0), 64);
    case Computing => a := Finish(Success(0), 64);
    case Asking => a := IoRead;
    case Granting => a := IoAnswer(SHORT);
    case Granted =>
      NonEventsNeedFrames(s.toHelper);
      a := CapabilityRead;
    case Answered => a := IoRead;
    case Replied => a := Receive;
  }

  lemma InternalFaultless(a: Action)
    requires Internal(a)
    ensures !Fault(a)
  {
  }

  /** A request that is waited for, and its caller: still waiting, or answered by its own result. */
  ghost predicate WaitsOrHasOwn(s: State, t: State)
  {
    if t.waiting.Some? then Paired(t) && t.waiting == s.waiting && t.returned == s.returned
    else |t.returned| == |s.returned| + 1 && OwnResult(t, |s.returned|)
  }

  lemma StepWaits(s: State, t: State, a: Action)
    requires WaitsOrHasOwn(s, t) && s.waiting.Some? && Internal(a) && Next(IN_REQUESTS, t, a).Some? && !Unsendable(t, a)
    requires t.waiting.None? ==> Honest(t)
    ensures WaitsOrHasOwn(s, Next(IN_REQUESTS, t, a).value)
  {
    hide At, Honest;
    if t.waiting.Some? {
      InternalFaultless(a);
      StepPaired(t, a);
      if a.Receive? {
        ReceivePaired(t);
      }
    } else {
      ResultKept(t, a, |s.returned|);
    }
  }

  /** What the plugin has computed for a request stays. */
  lemma ResultKept(t: State, a: Action, k: nat)
    requires Honest(t) && k < |t.returned| && OwnResult(t, k) && t.waiting.None?
    requires Internal(a) && Next(IN_REQUESTS, t, a).Some? && !Unsendable(t, a)
    ensures var u := Next(IN_REQUESTS, t, a).value; u.waiting.None? && u.returned == t.returned && OwnResult(u, k)
  {
    if a.Finish? {
      FinishKeepsResult(t, a.outcome, k);
    } else {
      hide Honest, OwnResult;
    }
  }

  lemma FinishKeepsResult(t: State, outcome: Outcome, k: nat)
    requires Honest(t) && k < |t.returned| && OwnResult(t, k) && DoFinish(t, outcome).Some?
    ensures var u := DoFinish(t, outcome).value; u.waiting == t.waiting && u.returned == t.returned && OwnResult(u, k)
  {
    FinishNeedsJob(t, outcome);
    FinishEffect(t, outcome);
    FinishQuiet(t, outcome);
    if t.helper.job.ForRequest? {
      NewJob(t);
    }
    hide Honest, DoFinish, RequestIds;
  }

  /** The request being worked on has no result yet. */
  lemma NewJob(t: State)
    requires Honest(t) && t.helper.Working? && t.helper.job.ForRequest?
    ensures t.helper.job.id !in t.computed
  {
    hide RequestIds;
    assert Unanswered(t)[0] == t.helper.job.id;
    assert t.helper.job.id !in t.computed.Keys;
  }

  lemma {:induction false} StepsWait(s: State, steps: seq<Action>)
    requires Paired(s) && Honest(s) && s.waiting.Some?
    requires (forall a :: a in steps ==> Internal(a)) && Run(IN_REQUESTS, s, steps).Some? && AllSent(IN_REQUESTS, s, steps)
    ensures var t := Run(IN_REQUESTS, s, steps).value; WaitsOrHasOwn(s, t) && Honest(t) && Measure(t) + |steps| <= Measure(s)
    decreases |steps|
  {
    hide Measure, Next, Paired, Honest, WaitsOrHasOwn, OwnResult, Unsendable;
    if steps == [] {
      StillWaits(s);
    } else {
      var before, a := steps[..|steps| - 1], steps[|steps| - 1];
      assert a in steps;
      StepsWait(s, before);
      var t := Run(IN_REQUESTS, s, before).value;
      StepWaits(s, t, a);
      StepHonest(IN_REQUESTS, t, a);
      InternalStepsEnd(IN_REQUESTS, t, a);
    }
  }

  lemma StillWaits(s: State)
    requires Paired(s) && s.waiting.Some?
    ensures WaitsOrHasOwn(s, s)
  {
  }

  // ---- main results ----

  /** Every request has returned its own result, every capability call has got the response that
      it awaited, and between requests nothing but events is under way in either direction. */
  ghost predicate Conversation(s: State)
  {
    && (forall k :: 0 <= k < |s.returned| ==> OwnResult(s, k))
    && s.refused == 0 && !Over(s)
    && |s.returned| == s.nextId - (if s.waiting.Some? then 1 else 0)
    && (s.waiting.None? ==> AtRest(s))
  }

  lemma PairedAfter(p: Plugin, actions: seq<Action>)
    requires !EventHandlersCall(p) && Run(p, INITIAL, actions).Some? && Faultless(p, actions)
    ensures Paired(Run(p, INITIAL, actions).value)
  {
    hide Run, AllSent, Untroubled, Paired;
    RunsAsInRequests(p, actions);
    SentAsInRequests(p, actions);
    RunPaired(actions);
  }

  /** In every run without time-outs, crashes, failing writes and responses that cannot be sent, with
      any number of capability calls inside requests and any events in between. */
  lemma ConversationHolds(p: Plugin, actions: seq<Action>)
    requires !EventHandlersCall(p) && Run(p, INITIAL, actions).Some? && Faultless(p, actions)
    ensures Conversation(Run(p, INITIAL, actions).value)
  {
    hide Run, Faultless;
    PairedAfter(p, actions);
    NotExited(Run(p, INITIAL, actions).value);
  }

  /** The host answers a call that is over by now: the helper's main loop ends on the response. */
  lemma StrayResponse(p: Plugin, r: seq<Action>, s: State) returns (r': seq<Action>, s': State)
    requires Leads(p, r, s) && s.helper.Reading? && s.ioAlive && s.answering.None?
    requires s.toHelper == [] && s.toHost == [CapRequest(s.capSeq)]
    ensures Leads(p, r', s') && (Faultless(p, r) ==> Faultless(p, r'))
    ensures s' == s.(toHost := [], helper := Exited)
  {
    hide Leads, Faultless, DoIoRead, DoIoAnswer, DoHelperRead;
    Takes(s);
    var s1 := s.(toHost := [], answering := Some(s.capSeq));
    assert s.toHost[1..] == [];
    Step(p, r, s, IoRead);
    Grants(s1);
    var s2 := s1.(answering := None, toHelper := [CapResponse(s.capSeq)]);
    Step(p, r + [IoRead], s1, IoAnswer(SHORT));
    s' := s2.(toHelper := [], helper := Exited);
    EndsOnStray(s2);
    Step(p, r + [IoRead] + [IoAnswer(SHORT)], s2, HelperRead);
    r' := r + [IoRead] + [IoAnswer(SHORT)] + [HelperRead];
  }

  lemma EndsOnStray(s: State)
    requires s.helper.Reading? && |s.toHelper| == 1 && s.toHelper[0].CapResponse?
    ensures DoHelperRead(s) == Some(s.(toHelper := [], helper := Exited))
  {
    assert s.toHelper[1..] == [];
  }

  /** With a plugin whose event handlers ask for capabilities no time-out is needed to break the
      session: the handler's call reads the host's next request and fails, that request is lost,
      and the helper then ends on the stray capability response. */
  lemma EventCallLosesRequest(p: Plugin) returns (actions: seq<Action>)
    requires EventHandlersCall(p)
    ensures Faultless(p, actions) && Run(p, INITIAL, actions).Some?
    ensures var s := Run(p, INITIAL, actions).value;
            && !Conversation(s) && s.helper.Exited?
            && s.waiting.Some? && s.waiting.value !in s.computed && s.replies == [] && s.toHost == []
  {
    var r0, s0 := HandlerReached(p);
    RunHonest(p, r0);
    assert s0.nextId !in s0.computed.Keys;
    hide Run, Faultless, Honest;
    var r1, s1 := CallLosesRequest(p, r0, s0);
    var s2 := s1.(helper := Reading);
    assert DoFinish(s1, Success(0)) == Some(s2);
    Step(p, r1, s1, Finish(Success(0), 64));
    var r3, s3 := StrayResponse(p, r1 + [Finish(Success(0), 64)], s2);
    actions := r3;
  }

  /** Main result: every faultless run keeps the conversation, exactly when no event handler can
      come to make a capability call. */
  lemma ConversationHoldsExactly(p: Plugin)
    ensures (forall actions :: Run(p, INITIAL, actions).Some? && Faultless(p, actions) ==> Conversation(Run(p, INITIAL, actions).value))
            <==> !EventHandlersCall(p)
  {
    hide Run, Faultless, Conversation;
    if EventHandlersCall(p) {
      var bad := EventCallLosesRequest(p);
    } else {
      forall actions | Run(p, INITIAL, actions).Some? && Faultless(p, actions)
        ensures Conversation(Run(p, INITIAL, actions).value)
      {
        ConversationHolds(p, actions);
      }
    }
  }

  /** The session's own steps do not depend on the plugin. */
  lemma {:induction false} InternalRuns(p: Plugin, s: State, steps: seq<Action>)
    requires forall a :: a in steps ==> Internal(a)
    ensures Run(p, s, steps) == Run(IN_REQUESTS, s, steps) && (AllSent(p, s, steps) <==> AllSent(IN_REQUESTS, s, steps))
    decreases |steps|
  {
    hide Next, Unsendable;
    if steps != [] {
      var before, a := steps[..|steps| - 1], steps[|steps| - 1];
      assert a in steps;
      InternalRuns(p, s, before);
      if Run(p, s, before).Some? {
        InternalStepSame(p, Run(p, s, before).value, a);
      }
    }
  }

  lemma InternalStepSame(p: Plugin, s: State, a: Action)
    requires Internal(a)
    ensures Next(p, s, a) == Next(IN_REQUESTS, s, a)
  {
  }

  /** Main result, liveness: from every state of those runs in which a request is waited for, every
      schedule of the session's own steps is bounded by the work left, and as long as it has
      not answered the request with its own result, it can go on with a response that can be sent. */
  lemma EveryScheduleAnswers(p: Plugin, actions: seq<Action>, steps: seq<Action>)
    requires !EventHandlersCall(p) && Run(p, INITIAL, actions).Some? && Faultless(p, actions)
    requires Run(p, INITIAL, actions).value.waiting.Some?
    requires (forall a :: a in steps ==> Internal(a)) && Run(p, Run(p, INITIAL, actions).value, steps).Some?
    requires AllSent(p, Run(p, INITIAL, actions).value, steps)
    ensures var s := Run(p, INITIAL, actions).value;
            var t := Run(p, s, steps).value;
            && |steps| <= Measure(s)
            && if t.waiting.Some? then
                 t.waiting == s.waiting && exists a :: Internal(a) && Next(p, t, a).Some? && !Unsendable(t, a)
               else |t.returned| == |s.returned| + 1 && OwnResult(t, |s.returned|)
  {
    PairedAfter(p, actions);
    RunHonest(p, actions);
    var s := Run(p, INITIAL, actions).value;
    hide Run, Measure, Paired, Honest, OwnResult, Next, Faultless, AllSent, Unsendable;
    InternalRuns(p, s, steps);
    StepsWait(s, steps);
    var t := Run(p, s, steps).value;
    if t.waiting.Some? {
      var a := SomeStepEnabled(t);
      InternalStepSame(p, t, a);
    }
  }

  // ---- responses that cannot be sent ----

  /** Nothing of the helper's can come to the caller any more. */
  ghost predicate Dead(s: State)
  {
    s.replies == [] && (!s.ioAlive || (s.helper.Exited? && forall f :: f in s.toHost ==> !f.Response?))
  }

  /** Between `s` and `t` a request has been answered by the helper. */
  ghost predicate GetsAnswer(s: State, t: State)
  {
    exists k :: |s.returned| <= k < |t.returned| && (t.returned[k].answer.Ok? || t.returned[k].answer.Remote?)
  }

  lemma StepDead(p: Plugin, s: State, t: State, a: Action)
    requires s.returned <= t.returned && Dead(t) && !GetsAnswer(s, t) && Next(p, t, a).Some?
    ensures var u := Next(p, t, a).value; s.returned <= u.returned && Dead(u) && !GetsAnswer(s, u)
  {
    var u := Next(p, t, a).value;
    assert t.returned <= u.returned && |u.returned| <= |t.returned| + 1;
    assert |u.returned| > |t.returned| ==>
        !u.returned[|t.returned|].answer.Ok? && !u.returned[|t.returned|].answer.Remote?;
  }

  /** A dead session stays dead, whatever happens. */
  lemma {:induction false} DeadSession(p: Plugin, s: State, later: seq<Action>)
    requires Dead(s) && Run(p, s, later).Some?
    ensures var t := Run(p, s, later).value; s.returned <= t.returned && Dead(t) && !GetsAnswer(s, t)
    decreases |later|
  {
    if later != [] {
      hide Next, Dead, GetsAnswer;
      var before := later[..|later| - 1];
      DeadSession(p, s, before);
      StepDead(p, s, Run(p, s, before).value, later[|later| - 1]);
    }
  }

  lemma UnsendableKills(s: State, a: Action)
    requires Paired(s) && Unsendable(s, a)
    ensures Dead(AfterUnsendable(s, a))
  {
    if s.waiting.Some? {
      var stage :| At(s, s.waiting.value, stage);
      assert stage == Computing || stage == Granting;
    }
  }

  /** A run in which nothing else goes wrong, but some response cannot be sent. */
  lemma {:induction false} UnsentKills(p: Plugin, actions: seq<Action>)
    requires !EventHandlersCall(p) && Run(p, INITIAL, actions).Some?
    requires Untroubled(actions) && !AllSent(p, INITIAL, actions)
    ensures Dead(Run(p, INITIAL, actions).value)
    decreases |actions|
  {
    hide Next, Unsendable, Paired, Dead, AfterUnsendable;
    var before, a := actions[..|actions| - 1], actions[|actions| - 1];
    var s := Run(p, INITIAL, before).value;
    if AllSent(p, INITIAL, before) {
      PairedAfter(p, before);
      UnsendableKills(s, a);
      UnsendableNext(p, s, a);
    } else {
      UnsentKills(p, before);
      DeadStep(p, s, a);
    }
  }

  lemma UnsendableNext(p: Plugin, s: State, a: Action)
    requires Unsendable(s, a)
    ensures Next(p, s, a) == Some(AfterUnsendable(s, a))
  {
  }

  lemma DeadStep(p: Plugin, s: State, a: Action)
    requires Dead(s) && Next(p, s, a).Some?
    ensures Dead(Next(p, s, a).value)
  {
    assert !GetsAnswer(s, s);
    StepDead(p, s, s, a);
  }

  /** A request that is waited for can be brought to its answer. */
  lemma {:induction false} RequestCompletes(p: Plugin, s: State) returns (later: seq<Action>)
    requires Paired(s) && Honest(s) && s.waiting.Some?
    ensures Run(p, s, later).Some? && GetsAnswer(s, Run(p, s, later).value)
    decreases Measure(s)
  {
    hide Next, Paired, Honest, WaitsOrHasOwn, Measure, GetsAnswer, Unsendable;
    var a := SomeStepEnabled(s);
    StillWaits(s);
    StepWaits(s, s, a);
    StepHonest(IN_REQUESTS, s, a);
    InternalStepsEnd(IN_REQUESTS, s, a);
    InternalStepSame(p, s, a);
    var t := Next(p, s, a).value;
    RunThen(p, s, [], s, a);
    assert [] + [a] == [a];
    WaitsOrAnswered(s, t);
    if t.waiting.Some? {
      var rest := RequestCompletes(p, t);
      RunConcat(p, s, [a], rest);
      AnswerLater(s, t, Run(p, t, rest).value);
      later := [a] + rest;
    } else {
      later := [a];
    }
  }

  lemma WaitsOrAnswered(s: State, t: State)
    requires WaitsOrHasOwn(s, t)
    ensures if t.waiting.Some? then Paired(t) && t.returned == s.returned else GetsAnswer(s, t)
  {
    if t.waiting.None? {
      assert t.returned[|s.returned|].answer.Ok? || t.returned[|s.returned|].answer.Remote?;
    }
  }

  lemma AnswerLater(s: State, t: State, u: State)
    requires t.returned == s.returned && GetsAnswer(t, u)
    ensures GetsAnswer(s, u)
  {
  }

  /** The caller sends a request, unless one is under way, and it is answered. */
  lemma NextRequestCompletes(p: Plugin, s: State) returns (later: seq<Action>)
    requires Paired(s) && Honest(s)
    ensures Run(p, s, later).Some? && GetsAnswer(s, Run(p, s, later).value)
  {
    hide Paired, Honest, GetsAnswer, Run;
    if s.waiting.Some? {
      later := RequestCompletes(p, s);
    } else {
      var t := DoSend(s).value;
      SendPaired(s);
      SendHonest(s);
      EmptyRunFrom(p, s);
      RunThen(p, s, [], s, Send);
      assert [] + [Send] == [Send];
      var rest := RequestCompletes(p, t);
      RunConcat(p, s, [Send], rest);
      AnswerLater(s, t, Run(p, t, rest).value);
      later := [Send] + rest;
    }
  }

  lemma EmptyRunFrom(p: Plugin, s: State)
    ensures Run(p, s, []) == Some(s)
  {
  }

  /** Main result: when nothing else goes wrong, the helper can still answer the caller exactly as
      long as every response has fitted into a frame. After one that has not, a result of the plugin
      as well as an answer of a capability, no run at all brings an answer. */
  lemma StillAnswersExactly(p: Plugin, actions: seq<Action>)
    requires !EventHandlersCall(p) && Run(p, INITIAL, actions).Some? && Untroubled(actions)
    ensures var s := Run(p, INITIAL, actions).value;
            (exists later :: Run(p, s, later).Some? && GetsAnswer(s, Run(p, s, later).value))
            <==> AllSent(p, INITIAL, actions)
  {
    hide Run, AllSent, Untroubled, Paired, Honest, Dead, GetsAnswer;
    var s := Run(p, INITIAL, actions).value;
    if AllSent(p, INITIAL, actions) {
      PairedAfter(p, actions);
      RunHonest(p, actions);
      var later := NextRequestCompletes(p, s);
    } else {
      UnsentKills(p, actions);
      forall later | Run(p, s, later).Some? ensures !GetsAnswer(s, Run(p, s, later).value) {
        DeadSession(p, s, later);
      }
    }
  }
}
