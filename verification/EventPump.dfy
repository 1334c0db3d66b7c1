/** Publishers, the pusher thread and shutdown on one channel, in any interleaving. An action
    is one critical section, one atomic access, or one push. */
module EventPump {
  import opened Bytes
  import opened EventBridge

  /** The pusher thread: asleep on the condition variable, about to lock, holding a batch,
      pushing its first event, or gone. */
  datatype Pusher = Asleep | Locking | Holding(batch: seq<nat>) | Pushing(batch: seq<nat>) | Gone

  datatype State = State(
    channel: Shared,
    pusher: Pusher,
    // the channel is in the table; publishers that have found it there and not looked at it yet
    listed: bool,
    holding: nat,
    // publishers between the `alive` check and the lock; wake-ups between unlock and notify
    entering: set<nat>,
    notifies: nat,
    joined: bool,
    // histories
    offered: nat,
    accepted: seq<nat>,
    full: nat,
    closed: nat,
    pushed: seq<nat>,
    pushedAtStop: nat)

  const INITIAL := State(Shared([], false, true), Locking, true, 0, {}, 0, false, 0, [], 0, 0, [], 0)

  datatype Action =
    | Find
    | Check
    | Enter(e: nat)
    | Notify
    | Lock
    | CheckStop
    | Push(works: bool)
    | Unlist
    | Stop
    | Join

  /** A publisher takes its snapshot of the table. */
  function DoFind(s: State): Option<State>
  {
    if s.listed then Some(s.(holding := s.holding + 1)) else None
  }

  /** A publisher reads `alive`. Events are numbered in the order of these reads. */
  function DoCheck(s: State): Option<State>
  {
    if s.holding == 0 then None
    else
      var t := s.(holding := s.holding - 1, offered := s.offered + 1);
      if s.channel.alive then Some(t.(entering := s.entering + {s.offered})) else Some(t.(closed := s.closed + 1))
  }

  function DoEnter(s: State, e: nat): Option<State>
  {
    if e !in s.entering then None
    else
      var t := s.(entering := s.entering - {e});
      match OfferOutcome(s.channel)
      case Closed => Some(t.(closed := s.closed + 1))
      case Full => Some(t.(full := s.full + 1))
      case Accepted =>
        Some(t.(channel := AfterOffer(s.channel, e), accepted := s.accepted + [e], notifies := s.notifies + 1))
  }

  function DoNotify(s: State): Option<State>
  {
    if s.notifies == 0 then None
    else Some(s.(notifies := s.notifies - 1, pusher := if s.pusher.Asleep? then Locking else s.pusher))
  }

  function DoLock(s: State): Option<State>
  {
    if !s.pusher.Locking? then None
    else if s.channel.pending == [] then Some(s.(pusher := if s.channel.stopped then Gone else Asleep))
    else Some(s.(pusher := Holding(s.channel.pending), channel := AfterTake(s.channel)))
  }

  /** Between two events of a batch the pusher looks whether it has been stopped. */
  function DoCheckStop(s: State): Option<State>
  {
    if !s.pusher.Holding? then None
    else if s.pusher.batch == [] then Some(s.(pusher := Locking))
    else if s.channel.stopped then Some(s.(pusher := Gone))
    else Some(s.(pusher := Pushing(s.pusher.batch)))
  }

  function DoPush(s: State, works: bool): Option<State>
  {
    if !s.pusher.Pushing? || s.pusher.batch == [] then None
    else if works then Some(s.(pusher := Holding(s.pusher.batch[1..]), pushed := s.pushed + [s.pusher.batch[0]]))
    else Some(s.(pusher := Gone, channel := s.channel.(alive := false)))
  }

  /** The table entry is removed. */
  function DoUnlist(s: State): Option<State>
  {
    if s.listed then Some(s.(listed := false)) else None
  }

  /** The first critical section of `shut_down`, which runs once the entry is gone; it then
      notifies. */
  function DoStop(s: State): Option<State>
  {
    if s.listed then None
    else Some(s.(channel := AfterStop(s.channel), notifies := s.notifies + 1,
            pushedAtStop := if s.channel.stopped then s.pushedAtStop else |s.pushed|))
  }

  /** The pusher is seen to have ended. (After five seconds `shut_down` gives up waiting.) */
  function DoJoin(s: State): Option<State>
  {
    if s.channel.stopped && s.pusher.Gone? then Some(s.(joined := true)) else None
  }

  function Next(s: State, a: Action): Option<State>
  {
    match a
    case Find => DoFind(s)
    case Check => DoCheck(s)
    case Enter(e) => DoEnter(s, e)
    case Notify => DoNotify(s)
    case Lock => DoLock(s)
    case CheckStop => DoCheckStop(s)
    case Push(works) => DoPush(s, works)
    case Unlist => DoUnlist(s)
    case Stop => DoStop(s)
    case Join => DoJoin(s)
  }

  function Run(s: State, actions: seq<Action>): Option<State>
    decreases |actions|
  {
    if actions == [] then Some(s)
    else match Run(s, actions[..|actions| - 1])
      case None => None
      case Some(before) => Next(before, actions[|actions| - 1])
  }

  // ---- invariants ----

  /** Taken from the queue and not pushed yet. */
  function InHand(p: Pusher): seq<nat>
  {
    if p.Holding? || p.Pushing? then p.batch else []
  }

  /** Pushed events, those in hand and those in the queue are the accepted ones, in order,
      up to what a stop or a failed push has thrown away at the end. */
  ghost predicate OnlyPrefixes(s: State)
  {
    && s.pushed + InHand(s.pusher) <= s.accepted
    && (!s.channel.stopped && !s.pusher.Gone? ==> s.pushed + InHand(s.pusher) + s.channel.pending == s.accepted)
    && (s.pusher.Pushing? ==> s.pusher.batch != [])
  }

  ghost predicate Bounded(s: State)
  {
    && |s.channel.pending| <= QUEUE_CAPACITY && |InHand(s.pusher)| <= QUEUE_CAPACITY
    && (s.channel.stopped ==> s.channel.pending == [])
  }

  /** Every publish is accepted, dropped as full, refused as closed, or still on its way. */
  ghost predicate Settled(s: State)
  {
    && |s.accepted| + s.full + s.closed + |s.entering| == s.offered
    && (forall e :: e in s.entering ==> e < s.offered)
  }

  /** After the stop only the event that the pusher had already decided to push gets out. */
  ghost predicate StopsSoon(s: State)
  {
    && (s.channel.stopped ==> s.pushedAtStop <= |s.pushed| <= s.pushedAtStop + 1)
    && (s.channel.stopped && s.pusher.Pushing? ==> |s.pushed| == s.pushedAtStop)
    && (s.joined ==> s.channel.stopped && s.pusher.Gone?)
  }

  /** While the pusher sleeps with work to do, a wake-up is on its way. */
  ghost predicate NoLostWakeUp(s: State)
  {
    s.pusher.Asleep? && (s.channel.pending != [] || s.channel.stopped) ==> s.notifies > 0
  }

  /** A stopped channel is not in the table, and one whose push has failed has no pusher. */
  ghost predicate InCodeOrder(s: State)
  {
    (s.channel.stopped ==> !s.listed) && (!s.channel.alive ==> s.pusher.Gone?)
  }

  ghost predicate Inv(s: State)
  {
    OnlyPrefixes(s) && Bounded(s) && Settled(s) && StopsSoon(s) && NoLostWakeUp(s) && InCodeOrder(s)
  }

  lemma EnterPrefixes(s: State, e: nat)
    requires OnlyPrefixes(s) && Bounded(s) && DoEnter(s, e).Some?
    ensures OnlyPrefixes(DoEnter(s, e).value)
  {
    assert s.pushed + InHand(s.pusher) + (s.channel.pending + [e]) == (s.pushed + InHand(s.pusher) + s.channel.pending) + [e];
  }

  lemma LockPrefixes(s: State)
    requires OnlyPrefixes(s) && Bounded(s) && DoLock(s).Some?
    ensures OnlyPrefixes(DoLock(s).value)
  {
    assert s.pushed + [] + s.channel.pending == s.pushed + s.channel.pending + [];
  }

  lemma PushPrefixes(s: State, works: bool)
    requires OnlyPrefixes(s) && Bounded(s) && DoPush(s, works).Some?
    ensures OnlyPrefixes(DoPush(s, works).value)
  {
    assert s.pushed + s.pusher.batch == (s.pushed + [s.pusher.batch[0]]) + s.pusher.batch[1..];
    assert s.pushed <= s.pushed + s.pusher.batch;
  }

  lemma StepPrefixes(s: State, a: Action)
    requires OnlyPrefixes(s) && Bounded(s) && Next(s, a).Some?
    ensures OnlyPrefixes(Next(s, a).value)
  {
    hide DoEnter, DoLock, DoPush;
    match a
    case Enter(e) => EnterPrefixes(s, e);
    case Lock => LockPrefixes(s);
    case Push(works) => PushPrefixes(s, works);
    case CheckStop => assert s.pushed <= s.pushed + InHand(s.pusher);
    case _ =>
  }

  lemma CheckSettled(s: State)
    requires Settled(s) && DoCheck(s).Some?
    ensures Settled(DoCheck(s).value)
  {
    assert s.offered !in s.entering;
  }

  lemma EnterSettled(s: State, e: nat)
    requires Settled(s) && DoEnter(s, e).Some?
    ensures Settled(DoEnter(s, e).value)
  {
  }

  lemma OthersCountNothing(s: State, a: Action)
    requires Next(s, a).Some? && !a.Check? && !a.Enter?
    ensures var t := Next(s, a).value;
            t.accepted == s.accepted && t.full == s.full && t.closed == s.closed && t.entering == s.entering && t.offered == s.offered
  {
  }

  lemma StepSettled(s: State, a: Action)
    requires Settled(s) && Next(s, a).Some?
    ensures Settled(Next(s, a).value)
  {
    hide DoCheck, DoEnter, DoLock, DoCheckStop, DoPush, DoStop, DoNotify, DoJoin, DoFind, DoUnlist;
    match a
    case Check => CheckSettled(s);
    case Enter(e) => EnterSettled(s, e);
    case _ => OthersCountNothing(s, a);
  }

  lemma StepInv(s: State, a: Action)
    requires Inv(s) && Next(s, a).Some?
    ensures Inv(Next(s, a).value)
  {
    hide OnlyPrefixes, Settled;
    StepPrefixes(s, a);
    StepSettled(s, a);
  }

  lemma {:induction false} RunInv(actions: seq<Action>)
    requires Run(INITIAL, actions).Some?
    ensures Inv(Run(INITIAL, actions).value)
    decreases |actions|
  {
    if actions != [] {
      hide Inv, Next;
      RunInv(actions[..|actions| - 1]);
      StepInv(Run(INITIAL, actions[..|actions| - 1]).value, actions[|actions| - 1]);
    }
  }

  // ---- main results ----

  /** Main result, for every interleaving: what the helper receives is a prefix of what was
      accepted, in order; until a stop or a failed push nothing accepted is lost. */
  lemma PushedIsPrefix(actions: seq<Action>)
    requires Run(INITIAL, actions).Some?
    ensures var s := Run(INITIAL, actions).value;
            && s.pushed <= s.accepted
            && (!s.channel.stopped && !s.pusher.Gone? ==> s.pushed + InHand(s.pusher) + s.channel.pending == s.accepted)
  {
    RunInv(actions);
    var s := Run(INITIAL, actions).value;
    assert s.pushed <= s.pushed + InHand(s.pusher);
  }

  /** Main result: the queue is bounded, a stopped channel is empty, and every publish is
      accounted for. */
  lemma EveryPublishCounted(actions: seq<Action>)
    requires Run(INITIAL, actions).Some?
    ensures var s := Run(INITIAL, actions).value;
            && |s.channel.pending| <= QUEUE_CAPACITY
            && (s.channel.stopped ==> s.channel.pending == [])
            && |s.accepted| + s.full + s.closed + |s.entering| == s.offered
  {
    RunInv(actions);
  }

  /** One publish of the run: `s` is the state in front of it, `t` the one behind it. */
  ghost predicate Decides(s: State, a: Action, t: State)
  {
    && (t.accepted == s.accepted || (a.Enter? && t.accepted == s.accepted + [a.e]))
    && (t.accepted != s.accepted <==> a.Enter? && !s.channel.stopped && |s.channel.pending| < 256)
    && (t.full != s.full <==> a.Enter? && !s.channel.stopped && |s.channel.pending| == 256)
    && (t.closed != s.closed <==> (a.Enter? && s.channel.stopped) || (a.Check? && !s.channel.alive))
    && (t.accepted != s.accepted ==> !t.channel.stopped && t.channel.pending == s.channel.pending + [a.e])
    && s.full <= t.full <= s.full + 1 && s.closed <= t.closed <= s.closed + 1
    && (t.channel.alive <==> s.channel.alive && a != Push(false))
    && (t.channel.stopped <==> s.channel.stopped || a.Stop?)
  }

  /** Main result, for every step of every run: a publisher that has found the channel alive has its
      event accepted exactly when the channel is not stopped and fewer than 256 events wait, and
      dropped as full exactly when 256 do. A channel ends by its stop or by a failed push only. */
  lemma PublishDecided(actions: seq<Action>, a: Action)
    requires Run(INITIAL, actions).Some? && Next(Run(INITIAL, actions).value, a).Some?
    ensures var s := Run(INITIAL, actions).value; Decides(s, a, Next(s, a).value)
  {
    RunInv(actions);
    hide Run, OnlyPrefixes, Settled;
    var s := Run(INITIAL, actions).value;
    assert a.Enter? ==> s.accepted + [a.e] != s.accepted;
  }

  /** Main result: whatever happens after the stop, at most one more event is pushed, and none
      once the shutdown has seen the pusher end. */
  lemma {:induction false} AtMostOnePushAfterStop(s: State, actions: seq<Action>)
    requires Inv(s) && s.channel.stopped && Run(s, actions).Some?
    ensures var t := Run(s, actions).value;
            && Inv(t) && t.channel.stopped && t.pushedAtStop == s.pushedAtStop
            && |t.pushed| <= s.pushedAtStop + 1
            && (s.joined ==> t.pushed == s.pushed && t.joined)
    decreases |actions|
  {
    if actions != [] {
      hide Inv, Next;
      var before := actions[..|actions| - 1];
      AtMostOnePushAfterStop(s, before);
      StepInv(Run(s, before).value, actions[|actions| - 1]);
      StoppedStep(Run(s, before).value, actions[|actions| - 1]);
    }
  }

  lemma StoppedStep(s: State, a: Action)
    requires Inv(s) && s.channel.stopped && Next(s, a).Some?
    ensures var t := Next(s, a).value;
            && t.channel.stopped && t.pushedAtStop == s.pushedAtStop
            && |t.pushed| <= s.pushedAtStop + 1
            && (s.joined ==> t.pushed == s.pushed && t.joined)
  {
  }

  /** Steps that the pusher still takes once it has been stopped. */
  function StepsLeft(p: Pusher): nat
  {
    match p
    case Gone => 0
    case Locking => 1
    case Holding(batch) => 2
    case Pushing(batch) => 3
    case Asleep => 2
  }

  predicate PushersOwn(a: Action) { a.Lock? || a.CheckStop? || a.Push? }

  /** Main result: a stopped pusher ends. It can always take a step of its own or is about to be
      woken, and each of those brings it nearer to its end. */
  lemma StoppedPusherEnds(s: State)
    requires Inv(s) && s.channel.stopped && !s.pusher.Gone?
    ensures exists a :: (PushersOwn(a) || a.Notify?) && Next(s, a).Some? && StepsLeft(Next(s, a).value.pusher) < StepsLeft(s.pusher)
    ensures forall a :: PushersOwn(a) && Next(s, a).Some? ==> StepsLeft(Next(s, a).value.pusher) < StepsLeft(s.pusher)
  {
    match s.pusher
    case Asleep => assert Next(s, Notify).Some?;
    case Locking => assert Next(s, Lock).Some?;
    case Holding(_) => assert Next(s, CheckStop).Some?;
    case Pushing(_) => assert Next(s, Push(true)).Some?;
    case Gone =>
  }

  // ---- every accepted event is pushed ----

  predicate RunsOn(s: State) { !s.channel.stopped && !s.pusher.Gone? }

  predicate Undisturbed(actions: seq<Action>)
  {
    forall a :: a in actions ==> !a.Stop? && a != Push(false)
  }

  function OwnSteps(actions: seq<Action>): nat
    decreases |actions|
  {
    if actions == [] then 0
    else OwnSteps(actions[..|actions| - 1]) + (if PushersOwn(actions[|actions| - 1]) then 1 else 0)
  }

  /** Steps that the pusher takes until accepted event `i` is pushed: two for each event up to it, and
      two more to lock the queue unless it is in hand already. */
  function StepsUntil(s: State, i: nat): nat
  {
    if i < |s.pushed| then 0
    else
      var place := i - |s.pushed| + 1;
      2 * place + (if place <= |InHand(s.pusher)| then 0 else 2) - (if s.pusher.Holding? then 0 else 1)
  }

  /** Each of the pusher's own steps counts, and nobody else's does any harm. */
  lemma StepTowards(s: State, a: Action, i: nat)
    requires Inv(s) && RunsOn(s) && |s.pushed| <= i < |s.accepted| && Next(s, a).Some? && !a.Stop? && a != Push(false)
    ensures var t := Next(s, a).value;
            && RunsOn(t) && s.accepted <= t.accepted
            && StepsUntil(t, i) + (if PushersOwn(a) then 1 else 0) <= StepsUntil(s, i)
  {
    InHandOrPending(s);
    hide Inv, OnlyPrefixes, Settled;
  }

  lemma InHandOrPending(s: State)
    requires Inv(s) && RunsOn(s)
    ensures |s.pushed| + |InHand(s.pusher)| + |s.channel.pending| == |s.accepted|
  {
    assert |s.pushed + InHand(s.pusher) + s.channel.pending| == |s.accepted|;
  }

  lemma StillRunsOn(s: State, a: Action)
    requires Inv(s) && RunsOn(s) && Next(s, a).Some? && !a.Stop? && a != Push(false)
    ensures var t := Next(s, a).value; RunsOn(t) && s.accepted <= t.accepted && |s.pushed| <= |t.pushed|
  {
    InHandOrPending(s);
    hide Inv, OnlyPrefixes, Settled;
  }

  /** The pusher can go on, or is about to be woken. */
  lemma CanGoOn(s: State)
    requires Inv(s) && RunsOn(s) && |s.pushed| < |s.accepted|
    ensures exists a :: (PushersOwn(a) || a.Notify?) && a != Push(false) && Next(s, a).Some?
  {
    InHandOrPending(s);
    match s.pusher
    case Asleep => assert Next(s, Notify).Some?;
    case Locking => assert Next(s, Lock).Some?;
    case Holding(_) => assert Next(s, CheckStop).Some?;
    case Pushing(_) => assert Next(s, Push(true)).Some?;
  }

  lemma {:induction false} RunTowards(s: State, actions: seq<Action>, i: nat)
    requires Inv(s) && RunsOn(s) && i < |s.accepted| && Run(s, actions).Some? && Undisturbed(actions)
    ensures var t := Run(s, actions).value;
            && Inv(t) && RunsOn(t) && s.accepted <= t.accepted
            && (|t.pushed| <= i ==> |s.pushed| <= i && StepsUntil(t, i) + OwnSteps(actions) <= StepsUntil(s, i))
    decreases |actions|
  {
    if actions != [] {
      hide Inv, Next, RunsOn, StepsUntil;
      var before, a := actions[..|actions| - 1], actions[|actions| - 1];
      assert a in actions;
      RunTowards(s, before, i);
      var t := Run(s, before).value;
      StepInv(t, a);
      StillRunsOn(t, a);
      if |Next(t, a).value.pushed| <= i {
        StepTowards(t, a, i);
      }
    }
  }

  /** Main result: while nothing is stopped and no push fails, every accepted event is pushed under its
      own number. In every schedule the pusher takes a bounded number of steps until then, whatever the
      publishers do in between, and it can always take the next one. */
  lemma AcceptedIsPushed(s: State, actions: seq<Action>, i: nat)
    requires Inv(s) && RunsOn(s) && i < |s.accepted| && Run(s, actions).Some? && Undisturbed(actions)
    ensures var t := Run(s, actions).value;
            if i < |t.pushed| then t.pushed[i] == s.accepted[i]
            else
              && OwnSteps(actions) < StepsUntil(s, i) <= 4 * QUEUE_CAPACITY + 2
              && exists a :: (PushersOwn(a) || a.Notify?) && a != Push(false) && Next(t, a).Some?
  {
    hide Run, Next, Settled, Undisturbed;
    RunTowards(s, actions, i);
    InHandOrPending(s);
    var t := Run(s, actions).value;
    if i < |t.pushed| {
      assert t.pushed <= t.pushed + InHand(t.pusher) <= t.accepted;
    } else {
      CanGoOn(t);
    }
  }

  lemma Then(actions: seq<Action>, s: State, a: Action)
    requires Run(INITIAL, actions) == Some(s)
    ensures Run(INITIAL, actions + [a]) == Next(s, a)
  {
    assert (actions + [a])[..|actions|] == actions;
  }

  const P1 := INITIAL.(holding := 1)
  const P2 := INITIAL.(offered := 1, entering := {0})
  const P3 := INITIAL.(offered := 1, channel := Shared([0], false, true), accepted := [0], notifies := 1)
  const P4 := P3.(pusher := Holding([0]), channel := Shared([], false, true))
  const P5 := P4.(pusher := Pushing([0]))
  const P6 := P5.(listed := false)

  lemma PushingSteps()
    ensures Next(INITIAL, Find) == Some(P1) && Next(P1, Check) == Some(P2) && Next(P2, Enter(0)) == Some(P3)
    ensures Next(P3, Lock) == Some(P4) && Next(P4, CheckStop) == Some(P5) && Next(P5, Unlist) == Some(P6)
  {
    assert {0} - {0} == {} && {} + {0} == {0};
    assert [] + [0 as nat] == [0];
  }

  lemma PushBehindStop()
    ensures DoStop(P6).Some?
    ensures var s := DoStop(P6).value;
            s.channel.stopped && s.pushed == [] && DoPush(s, true).Some? && DoPush(s, true).value.pushed == [0]
  {
    assert [] + [0 as nat] == [0];
  }

  /** The stop flag does let one event out: the pusher has checked it before the stop. */
  lemma OnePushAfterStop() returns (actions: seq<Action>)
    ensures Run(INITIAL, actions) == Some(P6) && DoStop(P6).Some?
    ensures var s := DoStop(P6).value;
            s.channel.stopped && s.pushed == [] && DoPush(s, true).Some? && DoPush(s, true).value.pushed == [0]
  {
    assert Run(INITIAL, []) == Some(INITIAL);
    hide Run, Next, DoStop, DoPush;
    PushingSteps();
    PushBehindStop();
    Then([], INITIAL, Find);
    Then([] + [Find], P1, Check);
    Then([] + [Find] + [Check], P2, Enter(0));
    Then([] + [Find] + [Check] + [Enter(0)], P3, Lock);
    Then([] + [Find] + [Check] + [Enter(0)] + [Lock], P4, CheckStop);
    Then([] + [Find] + [Check] + [Enter(0)] + [Lock] + [CheckStop], P5, Unlist);
    actions := [] + [Find] + [Check] + [Enter(0)] + [Lock] + [CheckStop] + [Unlist];
  }

  // ---- between the removal of the entry and the stop ----

  predicate StopFree(actions: seq<Action>)
  {
    forall a :: a in actions ==> !a.Stop?
  }

  /** Nothing is on its way to the helper any more. */
  predicate Quiet(s: State)
  {
    s.pusher.Gone? || (InHand(s.pusher) == [] && s.channel.pending == [] && s.entering == {} && s.holding == 0)
  }

  lemma QuietStep(s: State, a: Action)
    requires Inv(s) && !s.listed && Quiet(s) && Next(s, a).Some?
    ensures var t := Next(s, a).value; !t.listed && Quiet(t) && t.pushed == s.pushed
  {
  }

  lemma {:induction false} QuietStays(s: State, actions: seq<Action>)
    requires Inv(s) && !s.listed && Quiet(s) && Run(s, actions).Some?
    ensures var t := Run(s, actions).value; Inv(t) && !t.listed && Quiet(t) && t.pushed == s.pushed
    decreases |actions|
  {
    if actions != [] {
      hide Inv, Next, Quiet;
      var before := actions[..|actions| - 1];
      QuietStays(s, before);
      StepInv(Run(s, before).value, actions[|actions| - 1]);
      QuietStep(Run(s, before).value, actions[|actions| - 1]);
    }
  }

  /** How far the next event is from the helper. */
  function Distance(s: State): nat
  {
    if s.channel.pending == [] && InHand(s.pusher) == [] then (if s.entering == {} then 7 else 6)
    else match s.pusher
      case Pushing(_) => 0
      case Holding(batch) => if batch != [] then 1 else 4
      case Locking => 2
      case Asleep => 3
      case Gone => 5
  }

  /** The step that brings it nearer. */
  lemma OneNearer(s: State) returns (a: Action)
    requires Inv(s) && !s.channel.stopped && !Quiet(s) && !s.pusher.Pushing?
    ensures !a.Stop? && Next(s, a).Some?
    ensures var t := Next(s, a).value;
            !t.channel.stopped && !Quiet(t) && t.pushed == s.pushed && Distance(t) < Distance(s)
  {
    if s.channel.pending == [] && InHand(s.pusher) == [] {
      if s.entering == {} {
        a := Check;
        assert s.offered in Next(s, a).value.entering;
      } else {
        var e :| e in s.entering;
        a := Enter(e);
      }
    } else {
      a := match s.pusher
        case Holding(_) => CheckStop
        case Locking => Lock
        case Asleep => Notify
        case _ => Lock;
    }
  }

  lemma {:induction false} RunFirst(s: State, a: Action, rest: seq<Action>)
    requires Next(s, a).Some?
    ensures Run(s, [a] + rest) == Run(Next(s, a).value, rest)
    decreases |rest|
  {
    hide Next;
    var all := [a] + rest;
    if rest == [] {
      assert all[..0] == [] && Run(s, []) == Some(s);
    } else {
      assert all[..|all| - 1] == [a] + rest[..|rest| - 1];
      RunFirst(s, a, rest[..|rest| - 1]);
    }
  }

  lemma {:induction false} NextPush(s: State) returns (actions: seq<Action>)
    requires Inv(s) && !s.channel.stopped && !Quiet(s)
    ensures StopFree(actions) && Run(s, actions).Some? && |Run(s, actions).value.pushed| == |s.pushed| + 1
    decreases Distance(s)
  {
    if s.pusher.Pushing? {
      assert s.pusher.batch != [];
      actions := [Push(true)] + [];
      RunFirst(s, Push(true), []);
    } else {
      var a := OneNearer(s);
      hide Next, Inv, Quiet, Distance;
      StepInv(s, a);
      var rest := NextPush(Next(s, a).value);
      RunFirst(s, a, rest);
      actions := [a] + rest;
    }
  }

  /** Main result: the entry is removed before the channel is stopped, not after it. Once the entry is
      gone and until the stop, more events can be pushed exactly when one is still on its way: in the
      pusher's hand, in the queue, or with a publisher that has found the channel before. */
  lemma PushedAfterRemovalExactly(s: State)
    requires Inv(s) && !s.listed && !s.channel.stopped
    ensures (exists actions :: StopFree(actions) && Run(s, actions).Some? && |Run(s, actions).value.pushed| > |s.pushed|) <==> !Quiet(s)
  {
    if Quiet(s) {
      forall actions | StopFree(actions) && Run(s, actions).Some? ensures |Run(s, actions).value.pushed| <= |s.pushed| {
        QuietStays(s, actions);
      }
    } else {
      var actions := NextPush(s);
    }
  }

  /** Events accepted once the entry is gone are from publishers that had found the channel. */
  lemma {:induction false} LateEventsBounded(s: State, actions: seq<Action>)
    requires Inv(s) && !s.listed && Run(s, actions).Some?
    ensures var t := Run(s, actions).value;
            && Inv(t) && !t.listed
            && |t.accepted| + |t.entering| + t.holding <= |s.accepted| + |s.entering| + s.holding
    decreases |actions|
  {
    if actions != [] {
      hide Inv, Next;
      var before := actions[..|actions| - 1];
      LateEventsBounded(s, before);
      StepInv(Run(s, before).value, actions[|actions| - 1]);
      LateStep(Run(s, before).value, actions[|actions| - 1]);
    }
  }

  lemma LateStep(s: State, a: Action)
    requires Inv(s) && !s.listed && Next(s, a).Some?
    ensures var t := Next(s, a).value;
            !t.listed && |t.accepted| + |t.entering| + t.holding <= |s.accepted| + |s.entering| + s.holding
  {
  }

  /** An event that is accepted and pushed although the entry was gone before: its publisher had only
      found the channel. */
  lemma LatePush() returns (actions: seq<Action>)
    ensures Run(INITIAL, [Find, Unlist]).Some?
    ensures var s := Run(INITIAL, [Find, Unlist]).value;
            && !s.listed && s.accepted == []
            && StopFree(actions) && Run(s, actions).Some? && |Run(s, actions).value.pushed| == 1
  {
    assert Run(INITIAL, []) == Some(INITIAL);
    Then([], INITIAL, Find);
    Then([] + [Find], P1, Unlist);
    assert [] + [Find] + [Unlist] == [Find, Unlist];
    RunInv([Find, Unlist]);
    actions := NextPush(P1.(listed := false));
  }
}
