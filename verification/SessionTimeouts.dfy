/** Time-outs: a session recovers from one only if an event handler can make a capability call. */
module SessionTimeouts {
  import opened Bytes
  import opened Session
  import opened SessionPlugins

  /** Requests sent but not consumed, the one being waited for apart. */
  function Lag(s: State): int
  {
    s.sent - s.consumed - (if s.waiting.Some? then 1 else 0)
  }

  /** Whatever the plugin does, no step lowers it, and every unanswered request raises it. */
  lemma LagNeverDecreases(p: Plugin, s: State, a: Action)
    requires Next(p, s, a).Some?
    ensures Lag(Next(p, s, a).value) == Lag(s) + (if a.TimeOut? || a.Disconnect? then 1 else 0)
  {
  }

  // ---- requests and capability calls under way ----

  function ReplyIds(replies: seq<Reply>): (r: seq<nat>)
    ensures |r| == |replies|
  {
    seq(|replies|, i requires 0 <= i < |replies| => replies[i].id)
  }

  function ResponseIds(frames: seq<ToHost>): seq<nat>
  {
    if frames == [] then []
    else (if frames[0].Response? then [frames[0].id] else []) + ResponseIds(frames[1..])
  }

  lemma {:induction false} ResponseIdsAppend(frames: seq<ToHost>, f: ToHost)
    ensures ResponseIds(frames + [f]) == ResponseIds(frames) + (if f.Response? then [f.id] else [])
  {
    if frames != [] {
      assert (frames + [f])[1..] == frames[1..] + [f];
      ResponseIdsAppend(frames[1..], f);
    } else {
      assert ResponseIds([]) == [];
    }
  }

  lemma ResponseTaken(frames: seq<ToHost>)
    requires frames != []
    ensures ResponseIds(frames) == (if frames[0].Response? then [frames[0].id] else []) + ResponseIds(frames[1..])
    ensures Asked(frames) == Asked(frames[1..]) + (if frames[0].CapRequest? then 1 else 0)
  {
  }

  /** Capability requests on their way to the host, and their answers on the way back. */
  function Asked(frames: seq<ToHost>): nat
  {
    if frames == [] then 0 else Asked(frames[1..]) + (if frames[0].CapRequest? then 1 else 0)
  }

  function Granted(frames: seq<ToHelper>): nat
  {
    if frames == [] then 0 else Granted(frames[1..]) + (if frames[0].CapResponse? then 1 else 0)
  }

  lemma {:induction false} AskedAppend(frames: seq<ToHost>, f: ToHost)
    ensures Asked(frames + [f]) == Asked(frames) + (if f.CapRequest? then 1 else 0)
  {
    if frames != [] {
      assert (frames + [f])[1..] == frames[1..] + [f];
      AskedAppend(frames[1..], f);
    }
  }

  lemma {:induction false} GrantedAppend(frames: seq<ToHelper>, f: ToHelper)
    ensures Granted(frames + [f]) == Granted(frames) + (if f.CapResponse? then 1 else 0)
  {
    if frames != [] {
      assert (frames + [f])[1..] == frames[1..] + [f];
      GrantedAppend(frames[1..], f);
    }
  }

  lemma GrantedTaken(frames: seq<ToHelper>)
    requires frames != []
    ensures Granted(frames) == Granted(frames[1..]) + (if frames[0].CapResponse? then 1 else 0)
  {
  }

  /** The first frame that is no event is a capability response: the main loop will end on it. */
  predicate GrantFirst(frames: seq<ToHelper>)
  {
    frames != [] && (frames[0].CapResponse? || (frames[0].Event? && GrantFirst(frames[1..])))
  }

  lemma {:induction false} GrantFirstAppend(frames: seq<ToHelper>, f: ToHelper)
    requires GrantFirst(frames)
    ensures GrantFirst(frames + [f])
  {
    assert (frames + [f])[1..] == frames[1..] + [f];
    if frames[0].Event? {
      GrantFirstAppend(frames[1..], f);
    }
  }

  /** A pipe with responses and no request: a response is first. */
  lemma {:induction false} GrantFirstFrom(frames: seq<ToHelper>)
    requires RequestIds(frames) == [] && Granted(frames) > 0
    ensures GrantFirst(frames)
  {
    if frames[0].Event? {
      GrantFirstFrom(frames[1..]);
    }
  }

  /** Requests that the plugin works on or has answered, the oldest first, as far as anyone will
      pass the answer on. */
  function Past(s: State): seq<nat>
  {
    ReplyIds(s.replies)
    + (if !s.ioAlive then []
       else ResponseIds(s.toHost) + (if s.helper.Working? && s.helper.job.ForRequest? then [s.helper.job.id] else []))
  }

  /** All requests on their way through the session, the oldest first. */
  function InFlight(s: State): seq<nat>
  {
    Past(s) + (if Over(s) then [] else RequestIds(s.toHelper))
  }

  /** Calls whose answer nobody will wait for. */
  function Strays(s: State): int
  {
    Granted(s.toHelper) + (if s.answering.Some? then 1 else 0) + Asked(s.toHost)
    - (if s.helper.Working? && s.helper.awaiting.Some? then 1 else 0)
  }

  // ---- the invariant, for calls in requests ----

  ghost predicate InOrder(s: State)
  {
    && Increasing(InFlight(s))
    && (forall k :: 0 <= k < |InFlight(s)| ==> InFlight(s)[k] < s.nextId)
    && (s.waiting.Some? ==> s.waiting.value + 1 == s.nextId)
  }

  /** A call belongs to a request, and what the request has answered comes behind its calls. */
  ghost predicate CallsBelong(s: State)
  {
    && (s.helper.Working? && s.helper.awaiting.Some? ==> s.helper.job.ForRequest?)
    && (!Over(s) && s.toHost != [] && s.toHost[|s.toHost| - 1].CapRequest? ==> s.helper.Working? && s.helper.job.ForRequest?)
    && (!Over(s) && s.answering.Some? && ResponseIds(s.toHost) == [] ==> s.helper.Working? && s.helper.job.ForRequest?)
  }

  /** Every request that has been lost has left a stray call behind. */
  ghost predicate LossesCounted(s: State)
  {
    !Over(s) ==> Strays(s) >= 0 && |InFlight(s)| + Strays(s) == s.sent - s.consumed
  }

  /** Nothing older than the request being waited for is under way. */
  ghost predicate CaughtUp(s: State)
  {
    InFlight(s) == [] || (s.waiting.Some? && InFlight(s) == [s.waiting.value])
  }

  /** Whatever is sent stands behind a stray response. */
  ghost predicate Blocked(s: State)
  {
    Past(s) == [] && GrantFirst(s.toHelper)
  }

  ghost predicate StraysBlock(s: State)
  {
    !Over(s) && Strays(s) >= 1 && CaughtUp(s) ==> Blocked(s)
  }

  /** A session that is over has left no answer for a request sent after it fell behind. */
  ghost predicate NothingLeft(s: State)
  {
    Over(s) && Lag(s) >= 1 && CaughtUp(s) ==> InFlight(s) == []
  }

  ghost predicate Flow(s: State)
  {
    InOrder(s) && CallsBelong(s) && LossesCounted(s) && StraysBlock(s) && NothingLeft(s)
  }

  // ---- steps that leave what is under way alone ----

  ghost predicate SameTraffic(s: State, t: State)
  {
    && t.replies == s.replies && t.toHost == s.toHost && t.answering == s.answering
    && t.helper == s.helper && t.toHelper == s.toHelper && t.ioAlive == s.ioAlive
  }

  /** A frame for the helper that is no request. */
  lemma NoRequestAppended(s: State, t: State, f: ToHelper)
    requires t.toHelper == s.toHelper + [f] && !f.Request? && t.helper == s.helper && t.replies == s.replies && t.toHost == s.toHost
    requires t.ioAlive == s.ioAlive
    ensures Past(t) == Past(s) && InFlight(t) == InFlight(s)
    ensures Granted(t.toHelper) == Granted(s.toHelper) + (if f.CapResponse? then 1 else 0)
    ensures GrantFirst(s.toHelper) ==> GrantFirst(t.toHelper)
  {
    RequestIdsAppend(s.toHelper, f);
    GrantedAppend(s.toHelper, f);
    if GrantFirst(s.toHelper) {
      GrantFirstAppend(s.toHelper, f);
    }
  }

  lemma SendFlow(s: State)
    requires Flow(s) && DoSend(s).Some?
    ensures Flow(DoSend(s).value)
  {
    hide *;
    SendTraffic(s);
    SentLast(s, DoSend(s).value);
  }

  lemma SendTraffic(s: State)
    requires Flow(s) && DoSend(s).Some?
    ensures var t := DoSend(s).value;
            && InFlight(t) == InFlight(s) + (if Over(s) then [] else [s.nextId]) && (Over(t) <==> Over(s))
            && Strays(t) == Strays(s) && CallsBelong(t) && (Blocked(s) ==> Blocked(t))
            && s.waiting.None? && t.waiting == Some(s.nextId)
            && t.nextId == s.nextId + 1 && t.sent == s.sent + 1 && t.consumed == s.consumed
  {
    var t, f := DoSend(s).value, Request(s.nextId);
    RequestIdsAppend(s.toHelper, f);
    GrantedAppend(s.toHelper, f);
    if GrantFirst(s.toHelper) {
      GrantFirstAppend(s.toHelper, f);
    }
    hide RequestIds, Granted, GrantFirst, Asked, ResponseIds;
    assert Past(t) == Past(s);
  }

  lemma SentLast(s: State, t: State)
    requires Flow(s) && InFlight(t) == InFlight(s) + (if Over(s) then [] else [s.nextId]) && (Over(t) <==> Over(s))
    requires Strays(t) == Strays(s) && CallsBelong(t) && (Blocked(s) ==> Blocked(t))
    requires s.waiting.None? && t.waiting == Some(s.nextId)
    requires t.nextId == s.nextId + 1 && t.sent == s.sent + 1 && t.consumed == s.consumed
    ensures Flow(t)
  {
    hide InFlight, Strays, CallsBelong, Blocked, Over;
    if !Over(s) && CaughtUp(t) {
      assert InFlight(t)[|InFlight(t)| - 1] == s.nextId;
      assert |InFlight(t)| == 1;
    }
    assert InFlight(s) + [] == InFlight(s);
    assert InFlight(s) != [] ==> InFlight(s)[0] < s.nextId;
  }

  lemma PushFlow(s: State)
    requires Flow(s)
    ensures Flow(DoPush(s).value)
  {
    hide RequestIds, Granted, GrantFirst, Asked, ResponseIds, Past;
    NoRequestAppended(s, DoPush(s).value, Event(s.pushed));
  }

  lemma IoAnswerFlow(s: State)
    requires Flow(s) && !Over(s) && DoIoAnswer(s).Some?
    ensures Flow(DoIoAnswer(s).value)
  {
    hide RequestIds, Granted, GrantFirst, Asked, ResponseIds;
    NoRequestAppended(s, DoIoAnswer(s).value, CapResponse(s.answering.value));
  }

  /** No answer left means that a response to come is either a stray or not there. */
  lemma {:induction false} OnlyCallsAsked(frames: seq<ToHost>)
    requires frames != [] && ResponseIds(frames) == []
    ensures frames[|frames| - 1].CapRequest?
  {
    if |frames| > 1 {
      assert frames[1..] != [] && frames[1..][|frames| - 2] == frames[|frames| - 1];
      assert frames[0].CapRequest?;
      OnlyCallsAsked(frames[1..]);
    }
  }

  /** When nothing is in flight, all strays have come back, and block what will be sent. */
  lemma StraysCameBack(s: State)
    requires CallsBelong(s) && !Over(s) && InFlight(s) == [] && Strays(s) >= 1
    ensures Blocked(s)
  {
    hide RequestIds, Granted, GrantFirst, Asked, ResponseIds;
    assert Past(s) == [] && ResponseIds(s.toHost) == [] && RequestIds(s.toHelper) == [];
    assert !(s.helper.Working? && s.helper.job.ForRequest?);
    if s.toHost != [] {
      OnlyCallsAsked(s.toHost);
    }
    assert Asked(s.toHost) == 0 by { NothingAsked(); }
    GrantFirstFrom(s.toHelper);
  }

  lemma NothingAsked()
    ensures Asked([]) == 0
  {
  }

  lemma ReceiveFlow(s: State)
    requires Flow(s) && DoReceive(s).Some?
    ensures Flow(DoReceive(s).value)
  {
    hide RequestIds, Granted, GrantFirst, Asked, ResponseIds;
    var t := DoReceive(s).value;
    assert ReplyIds(t.replies) == ReplyIds(s.replies)[1..];
    assert InFlight(t) == InFlight(s)[1..];
    if !Over(t) && Strays(t) >= 1 && CaughtUp(t) {
      StraysCameBack(t);
    }
  }

  lemma IoReadFlow(s: State)
    requires Flow(s) && !Over(s) && DoIoRead(s).Some?
    ensures Flow(DoIoRead(s).value)
  {
    hide RequestIds, Granted, GrantFirst, Asked, ResponseIds;
    var t := DoIoRead(s).value;
    ResponseTaken(s.toHost);
    if s.toHost[0].Response? {
      assert ReplyIds(t.replies) == ReplyIds(s.replies) + [s.toHost[0].id];
    }
    assert Past(t) == Past(s);
    assert InFlight(t) == InFlight(s);
    if t.toHost != [] {
      assert t.toHost[|t.toHost| - 1] == s.toHost[|s.toHost| - 1];
    } else {
      assert s.toHost[|s.toHost| - 1] == s.toHost[0];
    }
    if ResponseIds(t.toHost) == [] && t.toHost != [] {
      OnlyCallsAsked(t.toHost);
    }
  }

  lemma CallFlow(s: State)
    requires Flow(s) && !Over(s) && DoCallCapability(IN_REQUESTS, s).Some?
    ensures Flow(DoCallCapability(IN_REQUESTS, s).value)
  {
    var t := DoCallCapability(IN_REQUESTS, s).value;
    hide RequestIds, Granted, GrantFirst, Asked, ResponseIds;
    ResponseIdsAppend(s.toHost, CapRequest(s.capSeq + 1));
    AskedAppend(s.toHost, CapRequest(s.capSeq + 1));
    assert InFlight(t) == InFlight(s);
    assert s.helper.job.id in Past(s);
  }

  lemma CallFailsFlow(s: State)
    requires Flow(s) && !Over(s) && DoCallFails(IN_REQUESTS, s).Some?
    ensures Flow(DoCallFails(IN_REQUESTS, s).value)
  {
    hide RequestIds, Granted, GrantFirst, Asked, ResponseIds;
    assert InFlight(DoCallFails(IN_REQUESTS, s).value) == InFlight(s);
  }

  lemma HelperReadFlow(s: State)
    requires Flow(s) && !Over(s) && DoHelperRead(s).Some?
    ensures Flow(DoHelperRead(s).value)
  {
    hide *;
    HelperReadTraffic(s);
    var t := DoHelperRead(s).value;
    if s.toHelper[0].CapResponse? {
      OverFlow(s, t);
    } else {
      FlowKept(s, t);
    }
  }

  lemma HelperReadJob(s: State)
    requires DoHelperRead(s).Some?
    ensures s.toHelper != [] && s.helper.Reading?
    ensures var t := DoHelperRead(s).value;
            && t.nextId == s.nextId && t.waiting == s.waiting && t.sent == s.sent && t.consumed == s.consumed
            && t.replies == s.replies && t.toHost == s.toHost && t.ioAlive == s.ioAlive && t.answering == s.answering
            && t.toHelper == s.toHelper[1..]
            && t.helper == match s.toHelper[0]
                           case Request(id) => Working(ForRequest(id), false, None)
                           case Event(n) => Working(ForEvent(n), false, None)
                           case CapResponse(_) => Exited
  {
  }

  lemma HelperReadTraffic(s: State)
    requires Flow(s) && !Over(s) && DoHelperRead(s).Some?
    ensures s.toHelper != []
    ensures var t := DoHelperRead(s).value;
            && t.nextId == s.nextId && t.waiting == s.waiting && t.sent == s.sent && t.consumed == s.consumed
            && t.replies == s.replies && t.toHost == s.toHost && t.ioAlive == s.ioAlive
            && (t.helper.Working? ==> t.helper.awaiting.None?)
            && (s.toHelper[0].CapResponse? ==> t.helper.Exited? && Over(t))
            && (!s.toHelper[0].CapResponse? ==>
                  CallsBelong(t) && !Over(t) && InFlight(t) == InFlight(s) && Strays(t) == Strays(s) && (Blocked(s) ==> Blocked(t)))
  {
    HelperReadJob(s);
    hide RequestIds, ResponseIds, DoHelperRead;
    FrameTaken(s.toHelper);
    GrantedTaken(s.toHelper);
    var t := DoHelperRead(s).value;
    if !s.toHelper[0].CapResponse? {
      assert InFlight(t) == InFlight(s);
    }
  }

  /** The newest request comes first only when it is alone. */
  lemma NewestAlone(s: State)
    requires InOrder(s)
    ensures InFlight(s) != [] && InFlight(s)[0] + 1 == s.nextId ==> InFlight(s) == [InFlight(s)[0]]
  {
    hide InFlight;
    assert |InFlight(s)| > 1 ==> InFlight(s)[0] < InFlight(s)[1] < s.nextId;
  }

  /** The session is over: of what was under way the oldest remains. */
  lemma OverFlow(s: State, t: State)
    requires Flow(s) && Over(t) && t.replies == s.replies && (t.ioAlive ==> s.ioAlive && t.toHost == s.toHost && t.helper.Exited?)
    requires t.nextId == s.nextId && t.waiting == s.waiting && t.sent == s.sent && t.consumed == s.consumed
    requires t.helper.Working? && t.helper.awaiting.Some? ==> t.helper.job.ForRequest?
    ensures Flow(t)
  {
    OverPrefix(s, t);
    hide RequestIds, Granted, GrantFirst, Asked, ResponseIds, InFlight, Past, Strays;
    NewestAlone(s);
  }

  lemma OverPrefix(s: State, t: State)
    requires Over(t) && t.replies == s.replies && (t.ioAlive ==> s.ioAlive && t.toHost == s.toHost && t.helper.Exited?)
    ensures InFlight(t) <= InFlight(s)
    ensures InFlight(t) != [] ==> Past(s) != [] && InFlight(t)[0] == InFlight(s)[0]
  {
    hide RequestIds, ResponseIds;
    assert InFlight(t) == InFlight(s)[..|InFlight(t)|];
  }

  /** What is left to the threads when the session is over. */
  lemma OverEffect(s: State, a: Action)
    requires Over(s) && CallsBelong(s) && Next(IN_REQUESTS, s, a).Some?
    requires a.IoAnswer? || a.IoEnd? || a.HelperRead? || a.CallCapability? || a.CallFails? || a.CapabilityRead? || a.Finish?
             || a.Crash?
    ensures var t := Next(IN_REQUESTS, s, a).value;
            && Over(t) && t.replies == s.replies && (t.ioAlive ==> s.ioAlive && t.toHost == s.toHost && t.helper.Exited?)
            && t.nextId == s.nextId && t.waiting == s.waiting && t.sent == s.sent && t.consumed == s.consumed
            && (t.helper.Working? && t.helper.awaiting.Some? ==> t.helper.job.ForRequest?)
  {
    hide RequestIds, Asked, Granted, ResponseIds;
  }

  lemma OverIoRead(s: State)
    requires Flow(s) && Over(s) && DoIoRead(s).Some?
    ensures Flow(DoIoRead(s).value)
  {
    hide RequestIds, Granted, GrantFirst, Asked, ResponseIds;
    var t := DoIoRead(s).value;
    ResponseTaken(s.toHost);
    if s.toHost[0].Response? {
      assert ReplyIds(t.replies) == ReplyIds(s.replies) + [s.toHost[0].id];
    }
    assert InFlight(t) == InFlight(s);
  }

  /** Once it is over it stays so, and nothing is added to what remains. */
  lemma OverStep(s: State, a: Action)
    requires Flow(s) && Over(s) && Next(IN_REQUESTS, s, a).Some?
    ensures Flow(Next(IN_REQUESTS, s, a).value)
  {
    FlowParts(s);
    hide Flow, CallsBelong, Over, DoHelperRead, DoCapabilityRead, DoFinish, DoIoAnswer, DoCallCapability;
    var t := Next(IN_REQUESTS, s, a).value;
    match a
    case Send => SendFlow(s);
    case SendFails => CallerFlow(s, t);
    case Receive => ReceiveFlow(s);
    case TimeOut => CallerFlow(s, t);
    case Disconnect => CallerFlow(s, t);
    case Push => PushFlow(s);
    case IoRead => OverIoRead(s);
    case _ =>
      OverEffect(s, a);
      OverFlow(s, t);
  }

  /** A call reads a frame: events are put off, a response changes nothing in the balance, and a
      request is lost. */
  lemma CapabilityReadFlow(s: State)
    requires Flow(s) && !Over(s) && DoCapabilityRead(s).Some?
    ensures Flow(DoCapabilityRead(s).value)
  {
    hide *;
    CallEnds(s);
    FlowParts(s);
    CapabilityReadTraffic(s);
    var t := DoCapabilityRead(s).value;
    if s.toHelper[0].Request? {
      OneLost(s, t, |Past(s)|);
    } else {
      FlowKept(s, t);
    }
  }

  lemma FlowParts(s: State)
    requires Flow(s)
    ensures CallsBelong(s)
  {
  }

  /** A request has been lost behind an older one. */
  lemma OneLost(s: State, t: State, k: nat)
    requires Flow(s) && CallsBelong(t) && !Over(s) && !Over(t)
    requires 0 < k < |InFlight(s)| && InFlight(t) == InFlight(s)[..k] + InFlight(s)[k + 1..] && Strays(t) == Strays(s) + 1
    requires t.nextId == s.nextId && t.waiting == s.waiting && t.sent == s.sent && t.consumed == s.consumed
    ensures Flow(t)
  {
    hide InFlight, Strays, CallsBelong, Blocked;
    RemovedKeepsOrder(s, t, k);
    assert InFlight(t)[0] == InFlight(s)[0] < InFlight(s)[k] < s.nextId;
  }

  lemma RemovedKeepsOrder(s: State, t: State, k: nat)
    requires InOrder(s) && k < |InFlight(s)| && InFlight(t) == InFlight(s)[..k] + InFlight(s)[k + 1..]
    requires t.nextId == s.nextId && t.waiting == s.waiting
    ensures InOrder(t)
  {
    hide InFlight;
  }

  /** What is under way after a call has read a frame. */
  lemma CapabilityReadTraffic(s: State)
    requires CallsBelong(s) && !Over(s) && DoCapabilityRead(s).Some?
    ensures var t := DoCapabilityRead(s).value;
            && CallsBelong(t) && !Over(t) && s.helper.job.ForRequest?
            && 0 < |Past(s)| <= |InFlight(t)| && |Past(s)| <= |InFlight(s)|
            && InFlight(t)[|Past(s)| - 1] == s.helper.job.id == InFlight(s)[|Past(s)| - 1]
            && (s.toHelper[0].Request? ==>
                  var k := |Past(s)|;
                  && Strays(t) == Strays(s) + 1 && k < |InFlight(s)|
                  && InFlight(t) == InFlight(s)[..k] + InFlight(s)[k + 1..])
            && (!s.toHelper[0].Request? ==> Strays(t) == Strays(s) && InFlight(t) == InFlight(s))
            && !Blocked(s)
  {
    CapabilityReadEffect(s);
    CallEnds(s);
    hide RequestIds, Granted, GrantFirst, Asked, ResponseIds, DoCapabilityRead;
    var t := DoCapabilityRead(s).value;
    FrameTaken(s.toHelper);
    GrantedTaken(s.toHelper);
    assert Past(t) == Past(s);
    var k := |Past(s)|;
    assert Past(s)[k - 1] == s.helper.job.id;
    if s.toHelper[0].Request? {
      assert InFlight(s)[k] == s.toHelper[0].id;
      assert InFlight(t) == InFlight(s)[..k] + InFlight(s)[k + 1..];
    } else {
      assert InFlight(t) == InFlight(s);
    }
  }

  /** What is under way has not changed. */
  lemma FlowKept(s: State, t: State)
    requires Flow(s) && CallsBelong(t) && !Over(s) && !Over(t)
    requires InFlight(t) == InFlight(s) && Strays(t) == Strays(s) && (Blocked(s) ==> Blocked(t))
    requires t.nextId == s.nextId && t.waiting == s.waiting && t.sent == s.sent && t.consumed == s.consumed
    ensures Flow(t)
  {
    hide InFlight, Strays, CallsBelong, Blocked;
  }

  lemma CallEnds(s: State)
    requires DoCapabilityRead(s).Some?
    ensures s.helper.Working? && s.helper.awaiting.Some?
    ensures var t := DoCapabilityRead(s).value;
            && t.helper.Working? && (t.helper.awaiting.Some? <==> s.toHelper[0].Event?)
            && t.sent == s.sent && t.consumed == s.consumed && t.waiting == s.waiting && t.answering == s.answering
            && t.helper.job == s.helper.job && t.nextId == s.nextId && s.toHelper != [] && t.ioAlive == s.ioAlive
  {
  }

  lemma FinishFlow(s: State, outcome: Outcome)
    requires Flow(s) && !Over(s) && DoFinish(s, outcome).Some?
    ensures Flow(DoFinish(s, outcome).value)
  {
    FinishNeedsJob(s, outcome);
    FinishEffect(s, outcome);
    FinishKeeps(s, outcome);
    FinishTraffic(s, outcome);
    hide DoFinish, InFlight, Strays, CallsBelong, Blocked;
    FlowKept(s, DoFinish(s, outcome).value);
  }

  lemma FinishTraffic(s: State, outcome: Outcome)
    requires CallsBelong(s) && !Over(s) && DoFinish(s, outcome).Some?
    ensures var t := DoFinish(s, outcome).value;
            CallsBelong(t) && !Over(t) && InFlight(t) == InFlight(s) && Strays(t) == Strays(s) && (Blocked(s) ==> Blocked(t))
  {
    FinishNeedsJob(s, outcome);
    FinishEffect(s, outcome);
    FinishKeeps(s, outcome);
    var t := DoFinish(s, outcome).value;
    hide DoFinish, RequestIds, Granted, GrantFirst, Asked, ResponseIds;
    if s.helper.job.ForRequest? {
      var f := Response(s.helper.job.id, outcome);
      ResponseIdsAppend(s.toHost, f);
      AskedAppend(s.toHost, f);
      assert s.helper.job.id in Past(s);
    }
    assert InFlight(t) == InFlight(s);
  }

  lemma FinishKeeps(s: State, outcome: Outcome)
    requires DoFinish(s, outcome).Some?
    ensures var t := DoFinish(s, outcome).value;
            && !t.helper.Exited? && !(t.helper.Working? && (t.helper.job.ForRequest? || t.helper.awaiting.Some?))
            && t.consumed == s.consumed && t.waiting == s.waiting && t.sent == s.sent && t.answering == s.answering
            && t.ioAlive == s.ioAlive
  {
  }

  /** Steps of the caller that send nothing. */
  lemma CallerFlow(s: State, t: State)
    requires Flow(s) && SameTraffic(s, t) && t.waiting.None?
    requires s.nextId <= t.nextId && t.sent == s.sent && t.consumed == s.consumed
    ensures Flow(t)
  {
    hide RequestIds, Granted, GrantFirst, Asked, ResponseIds;
    assert InFlight(t) == InFlight(s);
  }

  lemma StepFlow(s: State, a: Action)
    requires Flow(s) && Next(IN_REQUESTS, s, a).Some?
    ensures Flow(Next(IN_REQUESTS, s, a).value)
  {
    hide Flow;
    var t := Next(IN_REQUESTS, s, a).value;
    if Over(s) {
      OverStep(s, a);
      return;
    }
    FlowParts(s);
    if Unsendable(s, a) {
      OverFlow(s, t);
      return;
    }
    match a
    case Send => SendFlow(s);
    case SendFails => CallerFlow(s, t);
    case Receive => ReceiveFlow(s);
    case TimeOut => CallerFlow(s, t);
    case Disconnect => CallerFlow(s, t);
    case Push => PushFlow(s);
    case IoRead => IoReadFlow(s);
    case IoAnswer(_) => IoAnswerFlow(s);
    case HelperRead => HelperReadFlow(s);
    case CallCapability => CallFlow(s);
    case CallFails => CallFailsFlow(s);
    case CapabilityRead => CapabilityReadFlow(s);
    case Finish(outcome, _) => FinishFlow(s, outcome);
    case Crash => OverFlow(s, t);
  }

  // ---- nothing is answered after a time-out ----

  predicate OwnAnswer(r: Returned) { r.answer.Ok? || r.answer.Remote? }

  /** After the first time-out no request has had an answer of its own. */
  ghost predicate SilentAfterTimeOut(s: State)
  {
    forall j, k :: 0 <= j < k < |s.returned| && s.returned[j].answer.TimedOut? ==> !OwnAnswer(s.returned[k])
  }

  /** And the session lags behind. */
  ghost predicate Behind(s: State)
  {
    Lag(s) >= 0 && forall j :: 0 <= j < |s.returned| && s.returned[j].answer.TimedOut? ==> Lag(s) >= 1
  }

  /** A session that lags behind has no own answer for the request being waited for. */
  lemma LaggingGetsOthers(s: State)
    requires Flow(s) && Lag(s) >= 1 && DoReceive(s).Some?
    ensures s.replies[0].id != s.waiting.value
  {
    hide RequestIds, Granted, GrantFirst, Asked, ResponseIds;
    assert InFlight(s)[0] == Past(s)[0] == s.replies[0].id;
    NewestAlone(s);
  }

  lemma StepSilent(s: State, a: Action)
    requires Flow(s) && SilentAfterTimeOut(s) && Behind(s) && Next(IN_REQUESTS, s, a).Some?
    ensures SilentAfterTimeOut(Next(IN_REQUESTS, s, a).value) && Behind(Next(IN_REQUESTS, s, a).value)
  {
    hide Flow, Lag;
    LagNeverDecreases(IN_REQUESTS, s, a);
    var t := Next(IN_REQUESTS, s, a).value;
    if a.Receive? || a.TimeOut? || a.Disconnect? || a.SendFails? {
      assert t.returned[..|s.returned|] == s.returned && |t.returned| == |s.returned| + 1;
      if a.Receive? && Lag(s) >= 1 {
        LaggingGetsOthers(s);
      }
    } else {
      OthersReturnNothing(s, a);
      hide Next;
    }
  }

  lemma OthersReturnNothing(s: State, a: Action)
    requires Next(IN_REQUESTS, s, a).Some? && !a.Receive? && !a.TimeOut? && !a.Disconnect? && !a.SendFails?
    ensures Next(IN_REQUESTS, s, a).value.returned == s.returned
  {
  }

  lemma {:induction false} RunFlows(actions: seq<Action>)
    requires Run(IN_REQUESTS, INITIAL, actions).Some?
    ensures var s := Run(IN_REQUESTS, INITIAL, actions).value; Flow(s) && SilentAfterTimeOut(s) && Behind(s)
    decreases |actions|
  {
    if actions != [] {
      hide Flow, SilentAfterTimeOut, Behind, Next;
      var before := actions[..|actions| - 1];
      RunFlows(before);
      var s, a := Run(IN_REQUESTS, INITIAL, before).value, actions[|actions| - 1];
      StepFlow(s, a);
      StepSilent(s, a);
    } else {
      assert InFlight(INITIAL) == [];
    }
  }

  /** When no event handler can come to make a capability call: once a request of the session has
      timed out, no later one gets an answer of its own. */
  lemma NoAnswerAfterTimeOut(p: Plugin, actions: seq<Action>)
    requires !EventHandlersCall(p) && Run(p, INITIAL, actions).Some?
    ensures SilentAfterTimeOut(Run(p, INITIAL, actions).value)
  {
    hide Run, SilentAfterTimeOut;
    RunsAsInRequests(p, actions);
    RunFlows(actions);
  }

  // ---- with calls in event handlers a session can recover ----

  /** A second call of the same handler eats the stray response of the first, which has eaten a
      request: the pipes are level again, but for the stray response of the second. */
  lemma StrayEaten(p: Plugin, r: seq<Action>, s: State, c: nat) returns (r': seq<Action>, s': State)
    requires Leads(p, r, s) && s.helper.Working? && s.helper.awaiting.None? && MayCall(p, s.helper.job, s.helper.drained)
    requires s.ioAlive && s.answering.None? && s.toHelper == [] && s.toHost == [CapRequest(c)] && c <= s.capSeq
    ensures Leads(p, r', s')
    ensures s' == s.(capSeq := s.capSeq + 1, toHost := [CapRequest(s.capSeq + 1)], refused := s.refused + 1)
  {
    hide Leads, Faultless, DoCapabilityRead, DoIoRead, DoIoAnswer;
    var d := s.capSeq + 1;
    var s1 := s.(capSeq := d, toHost := [CapRequest(c), CapRequest(d)], helper := s.helper.(awaiting := Some(d)));
    assert s.toHost + [CapRequest(d)] == s1.toHost && DoCallCapability(p, s) == Some(s1);
    Step(p, r, s, CallCapability);
    Takes(s1);
    var s2 := s1.(toHost := [CapRequest(d)], answering := Some(c));
    assert s1.toHost[1..] == [CapRequest(d)];
    Step(p, r + [CallCapability], s1, IoRead);
    Grants(s2);
    var s3 := s2.(answering := None, toHelper := [CapResponse(c)]);
    Step(p, r + [CallCapability] + [IoRead], s2, IoAnswer(SHORT));
    Refused(s3);
    Step(p, r + [CallCapability] + [IoRead] + [IoAnswer(SHORT)], s3, CapabilityRead);
    r' := r + [CallCapability] + [IoRead] + [IoAnswer(SHORT)] + [CapabilityRead];
    s' := s3.(toHelper := [], helper := s.helper, refused := s.refused + 1);
  }

  /** A request overtakes the stray response, and is answered. */
  lemma NextAnswered(p: Plugin, r: seq<Action>, s: State, c: nat) returns (r': seq<Action>, s': State)
    requires Leads(p, r, s) && s.helper.Working? && s.helper.awaiting.None? && s.helper.job.ForEvent?
    requires s.ioAlive && s.answering.None? && s.toHelper == [] && s.toHost == [CapRequest(c)]
    requires s.waiting.None? && s.replies == [] && s.deferred == [] && s.batch == []
    ensures Leads(p, r', s') && s'.returned == s.returned + [Returned(s.nextId, Ok(7))]
  {
    hide Leads, Faultless, DoSend, DoIoRead, DoIoAnswer, DoCallCapability, DoCapabilityRead;
    var n := s.nextId;
    var s1 := s.(helper := Reading);
    assert DoFinish(s, Success(0)) == Some(s1);
    Step(p, r, s, Finish(Success(0), 64));
    Sends(s1);
    var s2 := s1.(nextId := n + 1, sent := s.sent + 1, waiting := Some(n), toHelper := [Request(n)]);
    Step(p, r + [Finish(Success(0), 64)], s1, Send);
    var s3 := s2.(toHelper := [], helper := Working(ForRequest(n), false, None));
    assert s2.toHelper[1..] == [] && DoHelperRead(s2) == Some(s3);
    Step(p, r + [Finish(Success(0), 64)] + [Send], s2, HelperRead);
    var s4 := s3.(toHost := [CapRequest(c), Response(n, Success(7))], computed := s.computed[n := Success(7)], helper := Reading);
    assert s3.toHost + [Response(n, Success(7))] == s4.toHost && DoFinish(s3, Success(7)) == Some(s4);
    Step(p, r + [Finish(Success(0), 64)] + [Send] + [HelperRead], s3, Finish(Success(7), 64));
    r', s' := AnswerBehindStray(p, r + [Finish(Success(0), 64)] + [Send] + [HelperRead] + [Finish(Success(7), 64)], s4, c, n);
  }

  lemma AnswerBehindStray(p: Plugin, r: seq<Action>, s: State, c: nat, n: nat) returns (r': seq<Action>, s': State)
    requires Leads(p, r, s) && !s.helper.Exited? && s.ioAlive && s.answering.None? && s.toHelper == []
    requires s.toHost == [CapRequest(c), Response(n, Success(7))] && s.waiting == Some(n) && s.replies == []
    ensures Leads(p, r', s') && s'.returned == s.returned + [Returned(n, Ok(7))]
  {
    hide Leads, Faultless, DoIoRead, DoIoAnswer;
    Takes(s);
    var s1 := s.(toHost := [Response(n, Success(7))], answering := Some(c));
    assert s.toHost[1..] == [Response(n, Success(7))];
    Step(p, r, s, IoRead);
    Grants(s1);
    Step(p, r + [IoRead], s1, IoAnswer(SHORT));
    r', s' := AnswerReturns(p, r + [IoRead] + [IoAnswer(SHORT)], s1.(answering := None, toHelper := [CapResponse(c)]), n, 7);
  }

  /** The handler of an event asks for a capability, reads the host's request instead, which times
      out, and asks again: then the next request is answered. */
  lemma CallsCanRecover(p: Plugin) returns (actions: seq<Action>)
    requires EventHandlersCall(p)
    ensures Run(p, INITIAL, actions).Some? && !SilentAfterTimeOut(Run(p, INITIAL, actions).value)
  {
    var r0, s0 := HandlerReached(p);
    var r1, s1 := CallLosesRequest(p, r0, s0);
    var s2 := s1.(waiting := None, returned := s1.returned + [Returned(s0.nextId, TimedOut)]);
    assert DoTimeOut(s1) == Some(s2);
    Step(p, r1, s1, TimeOut);
    var r3, s3 := StrayEaten(p, r1 + [TimeOut], s2, s0.capSeq + 1);
    var r4, s4 := NextAnswered(p, r3, s3, s3.capSeq);
    actions := r4;
    var n := |s1.returned|;
    assert s4.returned[n].answer.TimedOut? && s4.returned[n + 1].answer.Ok?;
  }

  /** Main result: after a time-out the session answers no request of its own any more, in every
      run, exactly when no event handler can come to make a capability call. */
  lemma TimeOutsAreFinalExactly(p: Plugin)
    ensures (forall actions :: Run(p, INITIAL, actions).Some? ==> SilentAfterTimeOut(Run(p, INITIAL, actions).value))
            <==> !EventHandlersCall(p)
  {
    hide Run, SilentAfterTimeOut;
    if EventHandlersCall(p) {
      var bad := CallsCanRecover(p);
    } else {
      forall actions | Run(p, INITIAL, actions).Some? ensures SilentAfterTimeOut(Run(p, INITIAL, actions).value) {
        NoAnswerAfterTimeOut(p, actions);
      }
    }
  }
}
