/** Pushed events: none is given to the plugin inside a capability call, and they reach it in
    the order in which they were sent. */
module SessionEvents {
  import opened Bytes
  import opened Session
  import opened SessionPlugins

  function EventsIn(frames: seq<ToHelper>): seq<nat>
  {
    if frames == [] then []
    else (if frames[0].Event? then [frames[0].n] else []) + EventsIn(frames[1..])
  }

  lemma {:induction false} EventsInAppend(frames: seq<ToHelper>, f: ToHelper)
    ensures EventsIn(frames + [f]) == EventsIn(frames) + (if f.Event? then [f.n] else [])
  {
    if frames != [] {
      assert (frames + [f])[1..] == frames[1..] + [f];
      EventsInAppend(frames[1..], f);
    } else {
      assert EventsIn([]) == [];
    }
  }

  lemma EventTaken(frames: seq<ToHelper>)
    requires frames != []
    ensures EventsIn(frames) == (if frames[0].Event? then [frames[0].n] else []) + EventsIn(frames[1..])
  {
  }

  /** Events given to the plugin, then those that wait, in the order of the queues. */
  function Line(s: State): seq<nat>
  {
    s.handled + s.batch + s.deferred + EventsIn(s.toHelper)
  }

  /** No event is lost or duplicated but those dropped when the deferred queue is full. */
  ghost predicate Counted(s: State)
  {
    && |Line(s)| + s.dropped == s.pushed
    && |s.deferred| <= DEFERRED_CAPACITY && |s.batch| <= DEFERRED_CAPACITY
    && (s.helper.Reading? ==> s.batch == [])
    && (s.helper.Working? && s.batch != [] ==> s.helper.drained)
  }

  ghost predicate InSendOrder(s: State)
  {
    && Increasing(Line(s))
    && (forall k :: 0 <= k < |Line(s)| ==> Line(s)[k] < s.pushed)
    && (s.deferred != [] && !s.helper.Exited? ==> s.helper.Working? && !s.helper.drained)
    && (s.helper.Working? && s.helper.drained ==> s.helper.job.ForEvent? && s.helper.awaiting.None?)
  }

  // ---- every plugin: the count ----

  lemma AppendKeepsLine(s: State, t: State, f: ToHelper)
    requires t.toHelper == s.toHelper + [f] && t.handled == s.handled && t.batch == s.batch && t.deferred == s.deferred
    ensures Line(t) == Line(s) + (if f.Event? then [f.n] else [])
  {
    EventsInAppend(s.toHelper, f);
  }

  /** What is read by a capability call moves into the deferred queue, at most. */
  lemma CapabilityReadLine(s: State)
    requires DoCapabilityRead(s).Some?
    ensures var t := DoCapabilityRead(s).value;
            && t.handled == s.handled && t.helper.Working? && t.helper.job == s.helper.job
            && t.helper.drained == s.helper.drained
            && t.batch == s.batch && t.pushed == s.pushed && |t.deferred| <= Max(|s.deferred|, DEFERRED_CAPACITY)
            && (t.dropped == s.dropped ==> Line(t) == Line(s))
            && (t.dropped != s.dropped ==>
                  var k := |s.handled| + |s.batch| + |s.deferred|;
                  t.dropped == s.dropped + 1 && k < |Line(s)| && Line(t) == Line(s)[..k] + Line(s)[k + 1..])
  {
    hide EventsIn;
    EventTaken(s.toHelper);
  }

  lemma HelperReadLine(s: State)
    requires DoHelperRead(s).Some? && s.batch == []
    ensures var t := DoHelperRead(s).value;
            && t.batch == [] && t.deferred == s.deferred && t.dropped == s.dropped && t.pushed == s.pushed
            && (t.helper.Working? ==> !t.helper.drained && t.helper.awaiting.None?) && !t.helper.Reading?
            && |Line(t)| == |Line(s)|
            && (s.deferred == [] || !s.toHelper[0].Event? ==> Line(t) == Line(s))
  {
    hide EventsIn;
    EventTaken(s.toHelper);
  }

  /** Draining a queue and starting its first job. */
  lemma FinishLine(s: State, outcome: Outcome)
    requires DoFinish(s, outcome).Some? && (s.batch != [] ==> s.helper.drained)
    ensures var t := DoFinish(s, outcome).value;
            && t.dropped == s.dropped && t.pushed == s.pushed && t.toHelper == s.toHelper
            && |Line(t)| == |Line(s)| && |t.deferred| <= |s.deferred| && |t.batch| <= Max(|s.batch|, |s.deferred|)
            && (t.helper.Reading? || (t.helper.Working? && t.helper.drained && t.helper.job.ForEvent? && t.helper.awaiting.None?))
            && (t.helper.Reading? ==> t.batch == [])
            && Line(t) == Line(s)
            && (!s.helper.drained ==> t.deferred == []) && (s.helper.drained ==> t.deferred == s.deferred)
  {
    hide EventsIn;
  }

  lemma StepCounted(p: Plugin, s: State, a: Action)
    requires Counted(s) && Next(p, s, a).Some?
    ensures Counted(Next(p, s, a).value)
  {
    hide EventsIn;
    var t := Next(p, s, a).value;
    if Unsendable(s, a) { return; }
    match a
    case Send => AppendKeepsLine(s, t, Request(s.nextId));
    case Push => AppendKeepsLine(s, t, Event(s.pushed));
    case IoAnswer(_) =>
      if !s.helper.Exited? {
        AppendKeepsLine(s, t, CapResponse(s.answering.value));
      }
    case HelperRead => HelperReadLine(s);
    case CapabilityRead => CapabilityReadLine(s);
    case Finish(outcome, _) => FinishLine(s, outcome);
    case _ =>
  }

  lemma {:induction false} RunCounted(p: Plugin, actions: seq<Action>)
    requires Run(p, INITIAL, actions).Some?
    ensures Counted(Run(p, INITIAL, actions).value)
    decreases |actions|
  {
    hide Counted, Next;
    if actions != [] {
      var before := actions[..|actions| - 1];
      RunCounted(p, before);
      StepCounted(p, Run(p, INITIAL, before).value, actions[|actions| - 1]);
    } else {
      StartCounted();
    }
  }

  lemma StartCounted()
    ensures Counted(INITIAL) && InSendOrder(INITIAL)
  {
    assert EventsIn([]) == [];
  }

  // ---- no calls in drained event handlers: the order ----

  lemma DroppedKeepsOrder(line: seq<nat>, k: nat)
    requires k < |line| && Increasing(line)
    ensures Increasing(line[..k] + line[k + 1..])
  {
  }

  lemma SameLine(s: State, t: State)
    requires InSendOrder(s) && Line(t) == Line(s) && t.pushed == s.pushed
    requires t.deferred == s.deferred && t.helper == s.helper
    ensures InSendOrder(t)
  {
    hide Line;
  }

  lemma PushOrder(s: State)
    requires InSendOrder(s)
    ensures InSendOrder(DoPush(s).value)
  {
    hide EventsIn;
    AppendKeepsLine(s, DoPush(s).value, Event(s.pushed));
  }

  lemma CapabilityReadOrder(s: State)
    requires InSendOrder(s) && DoCapabilityRead(s).Some?
    ensures InSendOrder(DoCapabilityRead(s).value)
  {
    CapabilityReadJob(s);
    hide Line, DoCapabilityRead;
    CapabilityReadLine(s);
    var k := |s.handled| + |s.batch| + |s.deferred|;
    if DoCapabilityRead(s).value.dropped != s.dropped {
      DroppedKeepsOrder(Line(s), k);
    }
  }

  lemma CapabilityReadJob(s: State)
    requires DoCapabilityRead(s).Some?
    ensures s.helper.Working? && s.helper.awaiting.Some?
  {
  }

  lemma HelperReadOrder(s: State)
    requires InSendOrder(s) && Counted(s) && DoHelperRead(s).Some?
    ensures InSendOrder(DoHelperRead(s).value)
  {
    assert s.helper.Reading? && s.batch == [] && s.deferred == [];
    hide Line, DoHelperRead;
    HelperReadLine(s);
  }

  lemma FinishOrder(s: State, outcome: Outcome)
    requires InSendOrder(s) && Counted(s) && DoFinish(s, outcome).Some?
    ensures InSendOrder(DoFinish(s, outcome).value)
  {
    FinishNeedsJob(s, outcome);
    hide Line, DoFinish;
    FinishLine(s, outcome);
  }

  lemma StepOrder(s: State, a: Action)
    requires InSendOrder(s) && Counted(s) && Next(NOT_DRAINED, s, a).Some?
    ensures InSendOrder(Next(NOT_DRAINED, s, a).value)
  {
    hide Line, EventsIn, Increasing, DoHelperRead, DoCapabilityRead, DoFinish;
    var t := Next(NOT_DRAINED, s, a).value;
    if Unsendable(s, a) {
      LineIs(s, t);
      return;
    }
    match a
    case Send =>
      AppendKeepsLine(s, t, Request(s.nextId));
      SameLine(s, t);
    case Push => PushOrder(s);
    case IoAnswer(_) =>
      if !s.helper.Exited? {
        AppendKeepsLine(s, t, CapResponse(s.answering.value));
      } else {
        LineIs(s, t);
      }
      SameLine(s, t);
    case HelperRead => HelperReadOrder(s);
    case CapabilityRead => CapabilityReadOrder(s);
    case Finish(outcome, _) => FinishOrder(s, outcome);
    case _ => LineIs(s, t);
  }

  lemma LineIs(s: State, t: State)
    requires t.handled == s.handled && t.batch == s.batch && t.deferred == s.deferred && t.toHelper == s.toHelper
    ensures Line(t) == Line(s)
  {
  }

  lemma {:induction false} RunOrder(actions: seq<Action>)
    requires Run(NOT_DRAINED, INITIAL, actions).Some?
    ensures InSendOrder(Run(NOT_DRAINED, INITIAL, actions).value)
    decreases |actions|
  {
    hide InSendOrder, Counted, Next;
    if actions != [] {
      var before := actions[..|actions| - 1];
      RunOrder(before);
      RunCounted(NOT_DRAINED, before);
      StepOrder(Run(NOT_DRAINED, INITIAL, before).value, actions[|actions| - 1]);
    } else {
      StartCounted();
    }
  }

  // ---- while a call is awaited ----

  /** Capability calls are numbered. */
  ghost predicate Numbered(s: State)
  {
    s.helper.Working? && s.helper.awaiting.Some? ==> s.helper.awaiting.value <= s.capSeq
  }

  /** The call that is awaited in `s` is over in `t`, or nothing has happened to the plugin since. */
  ghost predicate OverOrUntouched(s: State, t: State)
    requires s.helper.Working? && s.helper.awaiting.Some?
  {
    && s.helper.awaiting.value <= t.capSeq
    && (t.helper.Working? && t.helper.awaiting == s.helper.awaiting ==> t.helper == s.helper && t.handled == s.handled)
  }

  lemma StepUntouched(p: Plugin, s: State, t: State, a: Action)
    requires s.helper.Working? && s.helper.awaiting.Some? && OverOrUntouched(s, t) && Next(p, t, a).Some?
    ensures OverOrUntouched(s, Next(p, t, a).value)
  {
  }

  lemma {:induction false} RunUntouched(p: Plugin, s: State, actions: seq<Action>)
    requires s.helper.Working? && s.helper.awaiting.Some? && Numbered(s) && Run(p, s, actions).Some?
    ensures OverOrUntouched(s, Run(p, s, actions).value)
    decreases |actions|
  {
    hide Next;
    if actions != [] {
      var before := actions[..|actions| - 1];
      RunUntouched(p, s, before);
      StepUntouched(p, s, Run(p, s, before).value, actions[|actions| - 1]);
    }
  }

  lemma {:induction false} RunNumbered(p: Plugin, actions: seq<Action>)
    requires Run(p, INITIAL, actions).Some?
    ensures Numbered(Run(p, INITIAL, actions).value)
    decreases |actions|
  {
    hide Next;
    if actions != [] {
      RunNumbered(p, actions[..|actions| - 1]);
      StepNumbered(p, Run(p, INITIAL, actions[..|actions| - 1]).value, actions[|actions| - 1]);
    }
  }

  lemma StepNumbered(p: Plugin, s: State, a: Action)
    requires Numbered(s) && Next(p, s, a).Some?
    ensures Numbered(Next(p, s, a).value)
  {
  }

  // ---- main results ----

  /** In every run: the deferred queue stays bounded, and every pushed event is handled, waiting,
      or was dropped at a full queue. */
  lemma EventsAccounted(p: Plugin, actions: seq<Action>)
    requires Run(p, INITIAL, actions).Some?
    ensures var s := Run(p, INITIAL, actions).value;
            && |s.deferred| <= 256
            && |s.handled| + |s.batch| + |s.deferred| + |EventsIn(s.toHelper)| + s.dropped == s.pushed
  {
    hide EventsIn;
    RunCounted(p, actions);
  }

  /** What step `a` does with the event in front of the helper. */
  ghost predicate EventDecided(s: State, a: Action, t: State)
  {
    var event := s.toHelper != [] && s.toHelper[0].Event?;
    && (t.dropped != s.dropped <==> a.CapabilityRead? && event && |s.deferred| == 256)
    && (a.CapabilityRead? && event && |s.deferred| < 256 ==> t.deferred == s.deferred + [s.toHelper[0].n])
    && (a.CapabilityRead? && event && |s.deferred| == 256 ==> t.deferred == s.deferred && t.dropped == s.dropped + 1)
    && (a.HelperRead? && event ==> t.helper == Working(ForEvent(s.toHelper[0].n), false, None) && t.handled == s.handled + [s.toHelper[0].n])
  }

  /** Main result, for every step of every run: an event that a capability call reads is put off behind
      those put off before, and dropped exactly when 256 are; one that the main loop reads is given
      to the plugin at once. */
  lemma EventPutOffExactly(p: Plugin, actions: seq<Action>, a: Action)
    requires Run(p, INITIAL, actions).Some? && Next(p, Run(p, INITIAL, actions).value, a).Some?
    ensures var s := Run(p, INITIAL, actions).value; EventDecided(s, a, Next(p, s, a).value)
  {
    RunCounted(p, actions);
    hide Run, EventsIn, Line;
  }

  /** Main result, for every plugin and run: from any moment of a capability call to any later one,
      whatever happens in between, the plugin has been given no event and no other job, and
      neither the step that comes next nor the read that ends the call gives it one. */
  lemma NoReentry(p: Plugin, before: seq<Action>, during: seq<Action>, a: Action)
    requires Run(p, INITIAL, before + during).Some? && Run(p, INITIAL, before).Some?
    requires var s, t := Run(p, INITIAL, before).value, Run(p, INITIAL, before + during).value;
             s.helper.Working? && s.helper.awaiting.Some? && t.helper.Working? && t.helper.awaiting == s.helper.awaiting
    ensures var s, t := Run(p, INITIAL, before).value, Run(p, INITIAL, before + during).value;
            && t.handled == s.handled && t.helper == s.helper
            && (Next(p, t, a).Some? && !a.Crash? ==>
                  var u := Next(p, t, a).value;
                  && u.handled == s.handled && u.helper.Working? && u.helper.job == s.helper.job
                  && (u.helper.awaiting == s.helper.awaiting || (a.CapabilityRead? && u.helper.awaiting.None?)))
  {
    var s, t := Run(p, INITIAL, before).value, Run(p, INITIAL, before + during).value;
    hide Run, Next, Numbered;
    RunConcat(p, INITIAL, before, during);
    RunNumbered(p, before);
    RunUntouched(p, s, during);
    if Next(p, t, a).Some? && !a.Crash? {
      StepInCall(p, t, a);
    }
  }

  lemma StepInCall(p: Plugin, t: State, a: Action)
    requires t.helper.Working? && t.helper.awaiting.Some? && Next(p, t, a).Some? && !a.Crash?
    ensures var u := Next(p, t, a).value;
            && u.handled == t.handled && u.helper.Working? && u.helper.job == t.helper.job
            && (u.helper.awaiting == t.helper.awaiting || (a.CapabilityRead? && u.helper.awaiting.None?))
  {
  }

  /** When handlers of drained events cannot come to make a call, events reach the plugin in the
      order in which the host has sent them, whatever requests, time-outs and calls intervene. */
  lemma EventsInSendOrder(p: Plugin, actions: seq<Action>)
    requires !DrainedHandlersCall(p) && Run(p, INITIAL, actions).Some?
    ensures Increasing(Run(p, INITIAL, actions).value.handled)
  {
    RunsAsNotDrained(p, actions);
    RunOrder(actions);
    var s := Run(p, INITIAL, actions).value;
    hide Run;
    assert forall k :: 0 <= k < |s.handled| ==> Line(s)[k] == s.handled[k];
  }

  // ---- a later event overtakes when drained handlers make calls ----

  /** The next event is read by the main loop and handled before the one that was put off. */
  lemma ReadBeforeDrained(p: Plugin, r: seq<Action>, s: State, e: nat) returns (r': seq<Action>, s': State)
    requires Leads(p, r, s) && s.helper.Working? && s.helper.job.ForEvent? && s.helper.drained && s.helper.awaiting.None?
    requires s.toHelper == [] && s.deferred == [e] && s.batch == []
    ensures Leads(p, r', s') && s'.handled == s.handled + [s.pushed] + [e]
  {
    hide Leads, Faultless, DoPush;
    Pushes(s);
    var s1 := s.(pushed := s.pushed + 1, toHelper := [Event(s.pushed)]);
    Step(p, r, s, Push);
    var s2 := s1.(helper := Reading);
    assert DoFinish(s1, Success(0)) == Some(s2);
    Step(p, r + [Push], s1, Finish(Success(0), 64));
    var s3 := s2.(toHelper := [], helper := Working(ForEvent(s.pushed), false, None), handled := s.handled + [s.pushed]);
    assert s2.toHelper[1..] == [] && DoHelperRead(s2) == Some(s3);
    Step(p, r + [Push] + [Finish(Success(0), 64)], s2, HelperRead);
    s' := s3.(deferred := [], helper := Working(ForEvent(e), true, None), handled := s3.handled + [e]);
    assert s3.deferred[1..] == [] && DoFinish(s3, Success(0)) == Some(s');
    Step(p, r + [Push] + [Finish(Success(0), 64)] + [HelperRead], s3, Finish(Success(0), 64));
    r' := r + [Push] + [Finish(Success(0), 64)] + [HelperRead] + [Finish(Success(0), 64)];
  }

  /** The handler of a drained event asks for a capability while an event arrives: that event waits
      for the next drain, and one read in the meantime is handled first. */
  lemma LaterEventOvertakes(p: Plugin) returns (actions: seq<Action>)
    requires DrainedHandlersCall(p)
    ensures Run(p, INITIAL, actions).Some? && !Increasing(Run(p, INITIAL, actions).value.handled)
  {
    var r0, s0 := DrainedHandlerReached(p);
    var r1, s1 := CallPutsOff(p, r0, s0);
    var r2, s2 := ReadBeforeDrained(p, r1, s1, s0.pushed);
    actions := r2;
    var n := |s1.handled|;
    assert s2.handled[n] == s1.pushed > s2.handled[n + 1];
  }

  /** Main result: events reach the plugin in send order, in every run, exactly when the handlers
      of drained events cannot come to make a capability call. */
  lemma SendOrderExactly(p: Plugin)
    ensures (forall actions :: Run(p, INITIAL, actions).Some? ==> Increasing(Run(p, INITIAL, actions).value.handled))
            <==> !DrainedHandlersCall(p)
  {
    hide Run, Increasing;
    if DrainedHandlersCall(p) {
      var bad := LaterEventOvertakes(p);
    } else {
      forall actions | Run(p, INITIAL, actions).Some? ensures Increasing(Run(p, INITIAL, actions).value.handled) {
        EventsInSendOrder(p, actions);
      }
    }
  }
}
