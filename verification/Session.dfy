/** The session of a host and one helper process, after the hello exchange: a caller that
    waits for one response at a time, the thread that reads the helper's frames and answers
    its capability requests, any number of event publishers, and the helper's main loop with
    the plugin inside. Two FIFO pipes connect them. Every action is one atomic step. */
module Session {
  import opened Bytes
  import Ipc

  const DEFERRED_CAPACITY := 256

  datatype Outcome = Success(value: nat) | Failure(code: nat)

  datatype ToHelper = Request(id: nat) | CapResponse(id: nat) | Event(n: nat)

  datatype ToHost = Response(id: nat, outcome: Outcome) | CapRequest(id: nat)

  datatype Reply = Reply(id: nat, outcome: Outcome)

  datatype Job = ForRequest(id: nat) | ForEvent(n: nat)

  /** What the helper is doing. `drained`: the job comes from the drained batch. */
  datatype Helper = Reading | Working(job: Job, drained: bool, awaiting: Option<nat>) | Exited

  datatype Answer = Ok(value: nat) | Remote(code: nat) | Mismatch(received: nat) | TimedOut | Gone | Unsent

  datatype Returned = Returned(id: nat, answer: Answer)

  /** In which of its jobs the plugin may make capability calls: while it works on a request, in
      the handler of an event read by the main loop, in the handler of a drained event. */
  datatype Plugin = Plugin(inRequests: bool, inDirect: bool, inDrained: bool)

  const IN_REQUESTS := Plugin(true, false, false)
  const NOT_DRAINED := Plugin(true, true, false)

  datatype State = State(
    nextId: nat,
    waiting: Option<nat>,
    replies: seq<Reply>,
    ioAlive: bool,
    answering: Option<nat>,
    toHelper: seq<ToHelper>,
    toHost: seq<ToHost>,
    helper: Helper,
    capSeq: nat,
    deferred: seq<nat>,
    batch: seq<nat>,
    // histories: requests sent; events pushed, given to the plugin, dropped; results; answers;
    // answers consumed; refused calls
    sent: nat,
    pushed: nat,
    handled: seq<nat>,
    dropped: nat,
    computed: map<nat, Outcome>,
    returned: seq<Returned>,
    consumed: nat,
    refused: nat)

  const INITIAL := State(0, None, [], true, None, [], [], Reading, 0, [], [], 0, 0, [], 0, map[], [], 0, 0)

  datatype Action =
    | Send | SendFails | Receive | TimeOut | Disconnect
    | Push
    | IoRead | IoAnswer(line: Ipc.Line) | IoEnd
    | HelperRead | CallCapability | CallFails | CapabilityRead | Finish(outcome: Outcome, length: nat)
    | Crash

  // ---- the host's caller ----

  function DoSend(s: State): Option<State>
  {
    if s.waiting.Some? then None
    else Some(s.(nextId := s.nextId + 1, sent := s.sent + 1, waiting := Some(s.nextId),
                 toHelper := s.toHelper + [Request(s.nextId)]))
  }

  /** The frame cannot be encoded or written: the number is used up, and nothing is sent. */
  function DoSendFails(s: State): Option<State>
  {
    if s.waiting.Some? then None
    else Some(s.(nextId := s.nextId + 1, returned := s.returned + [Returned(s.nextId, Unsent)]))
  }

  function AnswerTo(id: nat, reply: Reply): Answer
  {
    if reply.id != id then Mismatch(reply.id)
    else match reply.outcome
      case Success(v) => Ok(v)
      case Failure(c) => Remote(c)
  }

  function DoReceive(s: State): Option<State>
  {
    if s.waiting.None? || s.replies == [] then None
    else
      var id := s.waiting.value;
      Some(s.(waiting := None, replies := s.replies[1..], consumed := s.consumed + 1,
              returned := s.returned + [Returned(id, AnswerTo(id, s.replies[0]))]))
  }

  /** The deadline passes while nothing has arrived. */
  function DoTimeOut(s: State): Option<State>
  {
    if s.waiting.None? || s.replies != [] then None
    else Some(s.(waiting := None, returned := s.returned + [Returned(s.waiting.value, TimedOut)]))
  }

  function DoDisconnect(s: State): Option<State>
  {
    if s.waiting.None? || s.replies != [] || s.ioAlive then None
    else Some(s.(waiting := None, returned := s.returned + [Returned(s.waiting.value, Gone)]))
  }

  // ---- publishers ----

  function DoPush(s: State): Option<State>
  {
    Some(s.(pushed := s.pushed + 1, toHelper := s.toHelper + [Event(s.pushed)]))
  }

  // ---- the reading thread ----

  function DoIoRead(s: State): Option<State>
  {
    if !s.ioAlive || s.answering.Some? || s.toHost == [] then None
    else match s.toHost[0]
      case Response(id, outcome) => Some(s.(toHost := s.toHost[1..], replies := s.replies + [Reply(id, outcome)]))
      case CapRequest(id) => Some(s.(toHost := s.toHost[1..], answering := Some(id)))
  }

  function DoIoAnswer(s: State): Option<State>
  {
    if s.answering.None? then None
    else if s.helper.Exited? then Some(s.(answering := None, ioAlive := false))
    else Some(s.(answering := None, toHelper := s.toHelper + [CapResponse(s.answering.value)]))
  }

  function DoIoEnd(s: State): Option<State>
  {
    if s.ioAlive && s.answering.None? && s.toHost == [] && s.helper.Exited? then Some(s.(ioAlive := false)) else None
  }

  // ---- the helper ----

  /** The main loop reads a frame. A stray capability response is a protocol error. */
  function DoHelperRead(s: State): Option<State>
  {
    if s.helper != Reading || s.toHelper == [] then None
    else match s.toHelper[0]
      case Request(id) => Some(s.(toHelper := s.toHelper[1..], helper := Working(ForRequest(id), false, None)))
      case Event(n) => Some(s.(toHelper := s.toHelper[1..], helper := Working(ForEvent(n), false, None), handled := s.handled + [n]))
      case CapResponse(_) => Some(s.(toHelper := s.toHelper[1..], helper := Exited))
  }

  predicate MayCall(p: Plugin, job: Job, drained: bool)
  {
    if job.ForRequest? then p.inRequests else if drained then p.inDrained else p.inDirect
  }

  function DoCallCapability(p: Plugin, s: State): Option<State>
  {
    if !s.helper.Working? || s.helper.awaiting.Some? || !MayCall(p, s.helper.job, s.helper.drained) then None
    else
      var id := s.capSeq + 1;
      Some(s.(capSeq := id, toHost := s.toHost + [CapRequest(id)], helper := s.helper.(awaiting := Some(id))))
  }

  /** The capability request cannot be encoded or written: its number is used up, and the call ends
      with an error at once. */
  function DoCallFails(p: Plugin, s: State): Option<State>
  {
    if !s.helper.Working? || s.helper.awaiting.Some? || !MayCall(p, s.helper.job, s.helper.drained) then None
    else Some(s.(capSeq := s.capSeq + 1))
  }

  /** The capability call reads a frame: events are put off, the awaited response ends the
      call, and anything else ends it with an error. */
  function DoCapabilityRead(s: State): Option<State>
  {
    if !s.helper.Working? || s.helper.awaiting.None? || s.toHelper == [] then None
    else
      var rest := s.(toHelper := s.toHelper[1..]);
      var back := s.helper.(awaiting := None);
      match s.toHelper[0]
      case Event(n) =>
        if |s.deferred| >= DEFERRED_CAPACITY then Some(rest.(dropped := s.dropped + 1))
        else Some(rest.(deferred := s.deferred + [n]))
      case CapResponse(id) =>
        if id == s.helper.awaiting.value then Some(rest.(helper := back))
        else Some(rest.(helper := back, refused := s.refused + 1))
      case Request(_) => Some(rest.(helper := back, refused := s.refused + 1))
  }

  /** The next job of a drained batch, or back to reading. */
  function Continue(s: State): State
  {
    if s.batch == [] then s.(helper := Reading)
    else s.(helper := Working(ForEvent(s.batch[0]), true, None), batch := s.batch[1..], handled := s.handled + [s.batch[0]])
  }

  /** The plugin returns. A request is answered; an event never is. After a frame read by the
      main loop, but not after a drained event, the deferred events are drained. */
  function DoFinish(s: State, outcome: Outcome): Option<State>
  {
    if !s.helper.Working? || s.helper.awaiting.Some? then None
    else
      var answered := match s.helper.job
        case ForRequest(id) => s.(toHost := s.toHost + [Response(id, outcome)], computed := s.computed[id := outcome])
        case ForEvent(_) => s;
      if s.helper.drained then Some(Continue(answered))
      else Some(Continue(answered.(batch := s.deferred, deferred := [])))
  }

  function DoCrash(s: State): Option<State>
  {
    Some(s.(helper := Exited))
  }

  // ---- responses that cannot be sent ----

  /** A response of moderate length. */
  const SHORT := Ipc.Line(64, false)

  /** The step comes to a response that cannot be sent. The helper's results are JSON objects, so that
      only their length matters; what a capability answers is up to its dispatcher. The result of an
      event is not sent at all. */
  predicate Unsendable(s: State, a: Action)
  {
    match a
    case Finish(_, length) =>
      s.helper.Working? && s.helper.awaiting.None? && s.helper.job.ForRequest? && !Ipc.Sendable(Ipc.Line(length, false))
    case IoAnswer(line) => s.answering.Some? && !Ipc.Sendable(line)
    case _ => false
  }

  /** The thread that has the response to send ends: the helper, or the host's reading thread. */
  function AfterUnsendable(s: State, a: Action): State
  {
    if a.Finish? then s.(helper := Exited) else s.(answering := None, ioAlive := false)
  }

  function Next(p: Plugin, s: State, a: Action): Option<State>
  {
    if Unsendable(s, a) then Some(AfterUnsendable(s, a)) else Sending(p, s, a)
  }

  /** A step in which nothing is too long to be sent. */
  function Sending(p: Plugin, s: State, a: Action): Option<State>
  {
    match a
    case Send => DoSend(s)
    case SendFails => DoSendFails(s)
    case Receive => DoReceive(s)
    case TimeOut => DoTimeOut(s)
    case Disconnect => DoDisconnect(s)
    case Push => DoPush(s)
    case IoRead => DoIoRead(s)
    case IoAnswer(_) => DoIoAnswer(s)
    case IoEnd => DoIoEnd(s)
    case HelperRead => DoHelperRead(s)
    case CallCapability => DoCallCapability(p, s)
    case CallFails => DoCallFails(p, s)
    case CapabilityRead => DoCapabilityRead(s)
    case Finish(outcome, _) => DoFinish(s, outcome)
    case Crash => DoCrash(s)
  }

  /** The state that a run of actions leads to; None when one of them is not enabled. */
  function Run(p: Plugin, s: State, actions: seq<Action>): Option<State>
    decreases |actions|
  {
    if actions == [] then Some(s)
    else match Run(p, s, actions[..|actions| - 1])
      case None => None
      case Some(before) => Next(p, before, actions[|actions| - 1])
  }

  /** One of the two threads that answer is gone. */
  predicate Over(s: State)
  {
    s.helper.Exited? || !s.ioAlive
  }

  /** One more action. */
  lemma RunThen(p: Plugin, s: State, actions: seq<Action>, t: State, a: Action)
    requires Run(p, s, actions) == Some(t)
    ensures Run(p, s, actions + [a]) == Next(p, t, a)
  {
    assert (actions + [a])[..|actions|] == actions;
  }

  /** Two runs after each other. */
  lemma {:induction false} RunConcat(p: Plugin, s: State, first: seq<Action>, second: seq<Action>)
    ensures Run(p, s, first + second) == match Run(p, s, first)
                                         case None => None
                                         case Some(t) => Run(p, t, second)
    decreases |second|
  {
    hide Next;
    var all := first + second;
    if second == [] {
      assert all == first;
    } else {
      assert all[..|all| - 1] == first + second[..|second| - 1];
      RunConcat(p, s, first, second[..|second| - 1]);
    }
  }

  // ---- every run: an Ok answer is the helper's result for that request ----

  function RequestIds(frames: seq<ToHelper>): (r: seq<nat>)
  {
    if frames == [] then []
    else (if frames[0].Request? then [frames[0].id] else []) + RequestIds(frames[1..])
  }

  lemma {:induction false} RequestIdsAppend(frames: seq<ToHelper>, f: ToHelper)
    ensures RequestIds(frames + [f]) == RequestIds(frames) + (if f.Request? then [f.id] else [])
  {
    if frames != [] {
      assert (frames + [f])[1..] == frames[1..] + [f];
      RequestIdsAppend(frames[1..], f);
    } else {
      assert RequestIds([]) == [];
    }
  }

  ghost predicate Increasing(ids: seq<nat>)
  {
    forall i, j :: 0 <= i < j < |ids| ==> ids[i] < ids[j]
  }

  /** `ids` wait for an answer, `done` have theirs, `next` is the first unused number. */
  ghost predicate Ordered(ids: seq<nat>, done: set<nat>, next: nat)
  {
    && Increasing(ids)
    && (forall k :: 0 <= k < |ids| ==> ids[k] < next && forall d :: d in done ==> d < ids[k])
    && (forall d :: d in done ==> d < next)
  }

  lemma OrderedSend(ids: seq<nat>, done: set<nat>, next: nat)
    requires Ordered(ids, done, next)
    ensures Ordered(ids + [next], done, next + 1)
  {
  }

  lemma OrderedWithout(ids: seq<nat>, done: set<nat>, next: nat, k: nat)
    requires Ordered(ids, done, next) && k < |ids|
    ensures Ordered(ids[..k] + ids[k + 1..], done, next)
  {
  }

  lemma OrderedAnswer(ids: seq<nat>, done: set<nat>, next: nat)
    requires Ordered(ids, done, next) && ids != []
    ensures ids[0] !in done && Ordered(ids[1..], done + {ids[0]}, next)
  {
  }

  /** The request being worked on, then those still in the pipe. */
  function Unanswered(s: State): seq<nat>
  {
    (if s.helper.Working? && s.helper.job.ForRequest? then [s.helper.job.id] else []) + RequestIds(s.toHelper)
  }

  ghost predicate RepliesTrue(s: State)
  {
    && (forall k :: 0 <= k < |s.replies| ==>
          s.replies[k].id in s.computed && s.computed[s.replies[k].id] == s.replies[k].outcome)
    && (forall k :: 0 <= k < |s.toHost| && s.toHost[k].Response? ==>
          s.toHost[k].id in s.computed && s.computed[s.toHost[k].id] == s.toHost[k].outcome)
  }

  /** An Ok or Remote answer is what the helper has computed for that very request. */
  ghost predicate AnswerTrue(s: State, r: Returned)
  {
    && (r.answer.Ok? ==> r.id in s.computed && s.computed[r.id] == Success(r.answer.value))
    && (r.answer.Remote? ==> r.id in s.computed && s.computed[r.id] == Failure(r.answer.code))
  }

  ghost predicate AnswersTrue(s: State)
  {
    forall k :: 0 <= k < |s.returned| ==> AnswerTrue(s, s.returned[k])
  }

  /** Requests reach the helper in the order of their numbers and are answered at most once. */
  ghost predicate RequestsOrdered(s: State)
  {
    Ordered(Unanswered(s), s.computed.Keys, s.nextId)
  }

  ghost predicate Honest(s: State)
  {
    RequestsOrdered(s) && RepliesTrue(s) && AnswersTrue(s)
  }

  lemma FrameAppended(s: State, t: State, f: ToHelper)
    requires t.toHelper == s.toHelper + [f] && t.helper == s.helper
    ensures Unanswered(t) == Unanswered(s) + (if f.Request? then [f.id] else [])
  {
    RequestIdsAppend(s.toHelper, f);
  }

  lemma SendHonest(s: State)
    requires Honest(s) && DoSend(s).Some?
    ensures Honest(DoSend(s).value)
  {
    FrameAppended(s, DoSend(s).value, Request(s.nextId));
    OrderedSend(Unanswered(s), s.computed.Keys, s.nextId);
  }

  lemma SendFailsHonest(s: State)
    requires Honest(s) && DoSendFails(s).Some?
    ensures Honest(DoSendFails(s).value)
  {
    var t := DoSendFails(s).value;
    hide RequestIds;
    assert Unanswered(t) == Unanswered(s);
    assert t.returned[..|s.returned|] == s.returned;
  }

  lemma PushHonest(s: State)
    requires Honest(s)
    ensures Honest(DoPush(s).value)
  {
    FrameAppended(s, DoPush(s).value, Event(s.pushed));
  }

  lemma IoAnswerHonest(s: State)
    requires Honest(s) && DoIoAnswer(s).Some?
    ensures Honest(DoIoAnswer(s).value)
  {
    if !s.helper.Exited? {
      FrameAppended(s, DoIoAnswer(s).value, CapResponse(s.answering.value));
    }
  }

  /** Requests in the pipe, the first frame apart. */
  lemma FrameTaken(frames: seq<ToHelper>)
    requires frames != []
    ensures RequestIds(frames) == (if frames[0].Request? then [frames[0].id] else []) + RequestIds(frames[1..])
  {
  }

  lemma HelperReadHonest(s: State)
    requires Honest(s) && DoHelperRead(s).Some?
    ensures Honest(DoHelperRead(s).value)
  {
    FrameTaken(s.toHelper);
    assert Unanswered(DoHelperRead(s).value) == Unanswered(s);
  }

  /** A request that a capability call reads leaves the line of those to be answered. */
  lemma CapabilityReadHonest(s: State)
    requires Honest(s) && DoCapabilityRead(s).Some?
    ensures Honest(DoCapabilityRead(s).value)
  {
    hide Ordered, RepliesTrue, AnswersTrue, RequestIds, DoCapabilityRead;
    CapabilityReadEffect(s);
    var t := DoCapabilityRead(s).value;
    var mine := if s.helper.job.ForRequest? then [s.helper.job.id] else [];
    FrameTaken(s.toHelper);
    KeepsHistories(s, t);
    if s.toHelper[0].Request? {
      var k := |mine|;
      assert Unanswered(s)[..k] == mine && Unanswered(s)[k + 1..] == RequestIds(s.toHelper[1..]);
      OrderedWithout(Unanswered(s), s.computed.Keys, s.nextId, k);
    } else {
      assert Unanswered(t) == Unanswered(s);
    }
  }

  lemma CapabilityReadEffect(s: State)
    requires DoCapabilityRead(s).Some?
    ensures s.helper.Working? && s.toHelper != []
    ensures var t := DoCapabilityRead(s).value;
            && t.helper.Working? && t.helper.job == s.helper.job && t.toHelper == s.toHelper[1..]
            && t.nextId == s.nextId && t.replies == s.replies && t.returned == s.returned
            && t.toHost == s.toHost && t.computed == s.computed
  {
  }

  lemma KeepsHistories(s: State, t: State)
    requires RepliesTrue(s) && AnswersTrue(s)
    requires t.replies == s.replies && t.toHost == s.toHost && t.returned == s.returned && t.computed == s.computed
    ensures RepliesTrue(t) && AnswersTrue(t)
  {
  }

  /** A request is answered once: its number is new among the computed ones. */
  lemma ResultRecorded(s: State, t: State, id: nat, outcome: Outcome)
    requires RepliesTrue(s) && AnswersTrue(s) && id !in s.computed
    requires t.replies == s.replies && t.toHost == s.toHost + [Response(id, outcome)] && t.returned == s.returned
    requires t.computed == s.computed[id := outcome]
    ensures RepliesTrue(t) && AnswersTrue(t)
  {
  }

  /** What finishing a job changes. */
  lemma FinishEffect(s: State, outcome: Outcome)
    requires DoFinish(s, outcome).Some?
    ensures var t := DoFinish(s, outcome).value;
            && Unanswered(t) == RequestIds(s.toHelper)
            && t.nextId == s.nextId && t.replies == s.replies && t.returned == s.returned
            && t.toHelper == s.toHelper
            && (s.helper.job.ForEvent? ==> t.toHost == s.toHost && t.computed == s.computed)
            && (s.helper.job.ForRequest? ==>
                  t.toHost == s.toHost + [Response(s.helper.job.id, outcome)] && t.computed == s.computed[s.helper.job.id := outcome])
  {
    hide RequestIds;
  }

  lemma FinishHonest(s: State, outcome: Outcome)
    requires Honest(s) && DoFinish(s, outcome).Some?
    ensures Honest(DoFinish(s, outcome).value)
  {
    hide Ordered, RepliesTrue, AnswersTrue, RequestIds, DoFinish;
    assert s.helper.Working? by { FinishNeedsJob(s, outcome); }
    var t := DoFinish(s, outcome).value;
    FinishEffect(s, outcome);
    if s.helper.job.ForRequest? {
      var id := s.helper.job.id;
      assert Unanswered(s)[0] == id && Unanswered(s)[1..] == RequestIds(s.toHelper);
      OrderedAnswer(Unanswered(s), s.computed.Keys, s.nextId);
      assert t.computed.Keys == s.computed.Keys + {id};
      ResultRecorded(s, t, id, outcome);
    } else {
      assert Unanswered(s) == RequestIds(s.toHelper);
      KeepsHistories(s, t);
    }
  }

  lemma FinishNeedsJob(s: State, outcome: Outcome)
    requires DoFinish(s, outcome).Some?
    ensures s.helper.Working? && s.helper.awaiting.None?
  {
  }

  lemma CrashHonest(s: State)
    requires Honest(s)
    ensures Honest(DoCrash(s).value)
  {
    hide Ordered, RepliesTrue, AnswersTrue;
    var t := DoCrash(s).value;
    KeepsHistories(s, t);
    if s.helper.Working? && s.helper.job.ForRequest? {
      assert Unanswered(t) == Unanswered(s)[..0] + Unanswered(s)[0 + 1..];
      OrderedWithout(Unanswered(s), s.computed.Keys, s.nextId, 0);
    } else {
      assert Unanswered(t) == Unanswered(s);
    }
  }

  lemma UnsendableHonest(s: State, a: Action)
    requires Honest(s) && Unsendable(s, a)
    ensures Honest(AfterUnsendable(s, a))
  {
    hide Ordered, RequestIds;
    if a.Finish? {
      CrashHonest(s);
    } else {
      assert Unanswered(AfterUnsendable(s, a)) == Unanswered(s);
    }
  }

  lemma StepHonest(p: Plugin, s: State, a: Action)
    requires Honest(s) && Next(p, s, a).Some?
    ensures Honest(Next(p, s, a).value)
  {
    hide Ordered, RequestIds, DoHelperRead, DoCapabilityRead, DoFinish;
    var t := Next(p, s, a).value;
    if Unsendable(s, a) {
      UnsendableHonest(s, a);
      return;
    }
    match a
    case Send => SendHonest(s);
    case SendFails => SendFailsHonest(s);
    case Push => PushHonest(s);
    case IoAnswer(_) => IoAnswerHonest(s);
    case HelperRead => HelperReadHonest(s);
    case CapabilityRead => CapabilityReadHonest(s);
    case Finish(outcome, _) => FinishHonest(s, outcome);
    case Crash => CrashHonest(s);
    case _ => assert Unanswered(t) == Unanswered(s);
  }

  lemma {:induction false} RunHonest(p: Plugin, actions: seq<Action>)
    requires Run(p, INITIAL, actions).Some?
    ensures Honest(Run(p, INITIAL, actions).value)
    decreases |actions|
  {
    if actions != [] {
      RunHonest(p, actions[..|actions| - 1]);
      StepHonest(p, Run(p, INITIAL, actions[..|actions| - 1]).value, actions[|actions| - 1]);
    } else {
      assert Unanswered(INITIAL) == [];
    }
  }

  /** Main result, for every plugin and every run, time-outs and crashes included: a request
      that returns Ok or Remote returns what the helper computed for that very request. */
  lemma AnswerIsOwnResult(p: Plugin, actions: seq<Action>, k: nat)
    requires Run(p, INITIAL, actions).Some?
    ensures var s := Run(p, INITIAL, actions).value;
            k < |s.returned| ==>
              var id, answer := s.returned[k].id, s.returned[k].answer;
              && (answer.Ok? ==> id in s.computed && s.computed[id] == Success(answer.value))
              && (answer.Remote? ==> id in s.computed && s.computed[id] == Failure(answer.code))
  {
    RunHonest(p, actions);
  }

  // ---- every run: one answer per request, in order ----

  /** The requests up to the one being waited for have returned, each under its own number. */
  ghost predicate AnsweredInTurn(s: State)
  {
    && (forall k :: 0 <= k < |s.returned| ==> s.returned[k].id == k)
    && s.nextId == |s.returned| + (if s.waiting.Some? then 1 else 0)
    && (s.waiting.Some? ==> s.waiting.value == |s.returned|)
  }

  predicate Returns(a: Action)
  {
    a.SendFails? || a.TimeOut? || a.Disconnect? || a.Receive?
  }

  /** What request `id` returns when step `a` ends the waiting for it. */
  ghost predicate AnswerGiven(s: State, a: Action, id: nat, answer: Answer)
  {
    && (a.SendFails? <==> answer.Unsent?)
    && (a.TimeOut? <==> answer.TimedOut?)
    && (a.Disconnect? <==> answer.Gone?)
    && (answer.TimedOut? ==> s.replies == [])
    && (answer.Gone? ==> s.replies == [] && !s.ioAlive)
    && (a.Receive? ==>
          && s.replies != []
          && var reply := s.replies[0];
          && (forall v :: answer == Ok(v) <==> reply.id == id && reply.outcome == Success(v))
          && (forall c :: answer == Remote(c) <==> reply.id == id && reply.outcome == Failure(c))
          && (forall other :: answer == Mismatch(other) <==> reply.id == other != id))
  }

  /** A step returns nothing, or the one answer that is due. */
  ghost predicate ReturnsInTurn(s: State, a: Action, t: State)
  {
    if Returns(a) then
      && |t.returned| == |s.returned| + 1 && t.returned[..|s.returned|] == s.returned
      && t.returned[|s.returned|].id == |s.returned|
      && AnswerGiven(s, a, |s.returned|, t.returned[|s.returned|].answer)
    else t.returned == s.returned
  }

  lemma NothingReturns(p: Plugin, s: State, a: Action)
    requires Next(p, s, a).Some? && !Returns(a)
    ensures var t := Next(p, s, a).value;
            && t.returned == s.returned
            && (if a.Send? then s.waiting.None? && t.waiting == Some(s.nextId) && t.nextId == s.nextId + 1
                else t.waiting == s.waiting && t.nextId == s.nextId)
  {
  }

  lemma StepReturns(p: Plugin, s: State, a: Action)
    requires AnsweredInTurn(s) && Next(p, s, a).Some?
    ensures AnsweredInTurn(Next(p, s, a).value) && ReturnsInTurn(s, a, Next(p, s, a).value)
  {
    if !Returns(a) {
      hide Next, AnswerGiven;
      NothingReturns(p, s, a);
    }
  }

  lemma {:induction false} RunReturns(p: Plugin, actions: seq<Action>)
    requires Run(p, INITIAL, actions).Some?
    ensures AnsweredInTurn(Run(p, INITIAL, actions).value)
    decreases |actions|
  {
    if actions != [] {
      hide AnsweredInTurn, Next;
      RunReturns(p, actions[..|actions| - 1]);
      StepReturns(p, Run(p, INITIAL, actions[..|actions| - 1]).value, actions[|actions| - 1]);
    }
  }

  /** Main result, for every step of every run: requests return one by one and in the order of their
      numbers, and a reply that is consumed is returned as what it is: the result or the error that
      the helper has sent under the number of the request, or a mismatch exactly when it bears
      another number. */
  lemma AnsweredOnce(p: Plugin, actions: seq<Action>, a: Action)
    requires Run(p, INITIAL, actions).Some? && Next(p, Run(p, INITIAL, actions).value, a).Some?
    ensures var s := Run(p, INITIAL, actions).value;
            AnsweredInTurn(s) && ReturnsInTurn(s, a, Next(p, s, a).value)
  {
    RunReturns(p, actions);
    hide Run, Next;
    StepReturns(p, Run(p, INITIAL, actions).value, a);
  }

  // ---- every step: what ends a thread, and which numbers calls take ----

  /** The line of a response fits into a frame, and its result is not null. */
  predicate Fits(line: Ipc.Line)
  {
    line.length <= 8388608 && !line.nullResult
  }

  /** Main result: the helper ends by a crash, by a capability response that its main loop reads, and by a
      result too long to be sent, and by nothing else. The host's reading thread ends when the helper
      has ended and everything that it had sent is read, and when an answer cannot be sent or finds
      the helper gone. */
  lemma ThreadsEndExactly(p: Plugin, s: State, a: Action)
    requires Next(p, s, a).Some?
    ensures var t := Next(p, s, a).value;
            && (!s.helper.Exited? ==>
                  (t.helper.Exited?
                   <==> a.Crash?
                        || (a.HelperRead? && s.toHelper[0].CapResponse?)
                        || (a.Finish? && s.helper.job.ForRequest? && a.length > 8388608)))
            && (s.helper.Exited? ==> t.helper.Exited?)
            && (s.ioAlive ==> (!t.ioAlive <==> a.IoEnd? || (a.IoAnswer? && (s.helper.Exited? || !Fits(a.line)))))
            && (!s.ioAlive ==> !t.ioAlive)
            && (a.IoEnd? ==> s.helper.Exited? && s.toHost == [] && s.answering.None?)
  {
  }

  /** Main result: every capability call takes the next number, whether its request can be sent or not,
      and only calls take numbers; one that is sent is sent under its number, and waits for that. */
  lemma CallsNumbered(p: Plugin, s: State, a: Action)
    requires Next(p, s, a).Some?
    ensures var t := Next(p, s, a).value;
            && t.capSeq == s.capSeq + (if a.CallCapability? || a.CallFails? then 1 else 0)
            && (a.CallCapability? ==>
                  t.toHost == s.toHost + [CapRequest(t.capSeq)] && t.helper.Working? && t.helper.awaiting == Some(t.capSeq))
            && (a.CallFails? ==> t.toHost == s.toHost && t.helper == s.helper)
  {
  }

  // ---- a request that a capability call has read is lost ----

  /** Sent, not on its way to the plugin, and without a result. */
  ghost predicate Lost(s: State, id: nat)
  {
    id < s.nextId && id !in Unanswered(s) && id !in s.computed
  }

  lemma ReadIsLost(s: State, id: nat)
    requires Honest(s) && DoCapabilityRead(s).Some? && s.toHelper[0] == Request(id)
    ensures Lost(DoCapabilityRead(s).value, id)
  {
    var t := DoCapabilityRead(s).value;
    var mine := if s.helper.job.ForRequest? then [s.helper.job.id] else [];
    FrameTaken(s.toHelper);
    hide RequestIds;
    var k := |mine|;
    assert Unanswered(s)[k] == id;
    assert Unanswered(t) == Unanswered(s)[..k] + Unanswered(s)[k + 1..];
  }

  lemma HelperReadLoses(s: State, id: nat)
    requires Lost(s, id) && DoHelperRead(s).Some?
    ensures Lost(DoHelperRead(s).value, id)
  {
    FrameTaken(s.toHelper);
    hide RequestIds;
    assert Unanswered(DoHelperRead(s).value) == Unanswered(s);
  }

  lemma CapabilityReadLoses(s: State, id: nat)
    requires Lost(s, id) && DoCapabilityRead(s).Some?
    ensures Lost(DoCapabilityRead(s).value, id)
  {
    hide RequestIds, DoCapabilityRead;
    CapabilityReadEffect(s);
    FrameTaken(s.toHelper);
  }

  lemma FinishLoses(s: State, outcome: Outcome, id: nat)
    requires Lost(s, id) && DoFinish(s, outcome).Some?
    ensures Lost(DoFinish(s, outcome).value, id)
  {
    hide RequestIds, DoFinish;
    FinishNeedsJob(s, outcome);
    FinishEffect(s, outcome);
    if s.helper.job.ForRequest? {
      assert Unanswered(s)[0] == s.helper.job.id;
    }
  }

  lemma StepLoses(p: Plugin, s: State, a: Action, id: nat)
    requires Lost(s, id) && Next(p, s, a).Some?
    ensures Lost(Next(p, s, a).value, id)
  {
    hide RequestIds, DoHelperRead, DoCapabilityRead, DoFinish;
    var t := Next(p, s, a).value;
    if Unsendable(s, a) { return; }
    match a
    case Send => FrameAppended(s, t, Request(s.nextId));
    case Push => FrameAppended(s, t, Event(s.pushed));
    case IoAnswer(_) =>
      if !s.helper.Exited? {
        FrameAppended(s, t, CapResponse(s.answering.value));
      }
    case HelperRead => HelperReadLoses(s, id);
    case CapabilityRead => CapabilityReadLoses(s, id);
    case Finish(outcome, _) => FinishLoses(s, outcome, id);
    case _ =>
  }

  lemma {:induction false} RunLoses(p: Plugin, s: State, actions: seq<Action>, id: nat)
    requires Lost(s, id) && Run(p, s, actions).Some?
    ensures Lost(Run(p, s, actions).value, id)
    decreases |actions|
  {
    hide Lost, Next;
    if actions != [] {
      var before := actions[..|actions| - 1];
      RunLoses(p, s, before, id);
      StepLoses(p, Run(p, s, before).value, actions[|actions| - 1], id);
    }
  }

  /** Whatever follows, the plugin never gets a result for a lost request, and the caller never gets
      an Ok under its number. */
  lemma LostForGood(p: Plugin, before: seq<Action>, later: seq<Action>, id: nat)
    requires Run(p, INITIAL, before).Some? && Lost(Run(p, INITIAL, before).value, id)
    requires Run(p, INITIAL, before + later).Some?
    ensures var s := Run(p, INITIAL, before + later).value;
            id !in s.computed && forall r :: r in s.returned && r.id == id ==> !r.answer.Ok?
  {
    RunConcat(p, INITIAL, before, later);
    hide Run, Next;
    RunLoses(p, Run(p, INITIAL, before).value, later, id);
    RunHonest(p, before + later);
  }

  /** Main result: a request that a capability call reads is lost for good. */
  lemma ReadByCallIsLost(p: Plugin, before: seq<Action>, later: seq<Action>, id: nat)
    requires Run(p, INITIAL, before).Some? && DoCapabilityRead(Run(p, INITIAL, before).value).Some?
    requires Run(p, INITIAL, before).value.toHelper[0] == Request(id)
    requires Run(p, INITIAL, before + [CapabilityRead] + later).Some?
    ensures var s := Run(p, INITIAL, before + [CapabilityRead] + later).value;
            id !in s.computed && forall r :: r in s.returned && r.id == id ==> !r.answer.Ok?
  {
    var s := Run(p, INITIAL, before).value;
    RunThen(p, INITIAL, before, s, CapabilityRead);
    RunHonest(p, before);
    ReadIsLost(s, id);
    hide Run, Lost, DoCapabilityRead;
    LostForGood(p, before + [CapabilityRead], later, id);
  }

  lemma UnsendableLoses(s: State, a: Action)
    requires Honest(s) && Unsendable(s, a) && a.Finish?
    ensures Lost(AfterUnsendable(s, a), s.helper.job.id)
  {
    hide RequestIds;
    assert Unanswered(s)[0] == s.helper.job.id;
    assert Unanswered(AfterUnsendable(s, a)) == Unanswered(s)[1..];
  }

  /** Main result: so is one whose response is too long to be sent. */
  lemma UnsendableIsLost(p: Plugin, before: seq<Action>, a: Action, later: seq<Action>)
    requires Run(p, INITIAL, before).Some? && a.Finish? && Unsendable(Run(p, INITIAL, before).value, a)
    requires Run(p, INITIAL, before + [a] + later).Some?
    ensures var id, s := Run(p, INITIAL, before).value.helper.job.id, Run(p, INITIAL, before + [a] + later).value;
            id !in s.computed && forall r :: r in s.returned && r.id == id ==> !r.answer.Ok?
  {
    var s := Run(p, INITIAL, before).value;
    RunThen(p, INITIAL, before, s, a);
    RunHonest(p, before);
    UnsendableLoses(s, a);
    hide Run, Lost;
    LostForGood(p, before + [a], later, s.helper.job.id);
  }
}
