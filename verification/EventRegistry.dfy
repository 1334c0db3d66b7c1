/** Registrations and removals of channels by several threads, in any interleaving. An action is
    one critical section: the removal of a table entry, the stop of a channel, the insertion of a
    new one. */
module EventRegistry {
  import opened Bytes

  /** What a thread has still to do: stop the channel that it has taken out of the table, and insert
      a new one under `id`. */
  datatype Stage = Idle | Stopping(channel: nat, id: nat, thenInsert: bool) | Inserting(id: nat)

  /** Channels are numbered in the order of their insertion. */
  datatype State = State(modules: map<nat, nat>, stopped: set<nat>, made: nat, stages: map<nat, Stage>)

  const INITIAL := State(map[], {}, 0, map[])

  /** `Remove` begins an `unregister`, or a `register` with `thenInsert`. */
  datatype Action = Remove(thread: nat, id: nat, thenInsert: bool) | Stop(thread: nat) | Insert(thread: nat)

  function StageOf(s: State, thread: nat): Stage
  {
    if thread in s.stages then s.stages[thread] else Idle
  }

  function Rest(id: nat, thenInsert: bool): Stage
  {
    if thenInsert then Inserting(id) else Idle
  }

  function DoRemove(s: State, thread: nat, id: nat, thenInsert: bool): Option<State>
  {
    if StageOf(s, thread) != Idle then None
    else
      var stage := if id in s.modules then Stopping(s.modules[id], id, thenInsert) else Rest(id, thenInsert);
      Some(s.(modules := s.modules - {id}, stages := s.stages[thread := stage]))
  }

  function DoStop(s: State, thread: nat): Option<State>
  {
    match StageOf(s, thread)
    case Stopping(channel, id, thenInsert) =>
      Some(s.(stopped := s.stopped + {channel}, stages := s.stages[thread := Rest(id, thenInsert)]))
    case _ => None
  }

  /** What stood under `id` is dropped, and not stopped. */
  function DoInsert(s: State, thread: nat): Option<State>
  {
    match StageOf(s, thread)
    case Inserting(id) => Some(s.(modules := s.modules[id := s.made], made := s.made + 1, stages := s.stages[thread := Idle]))
    case _ => None
  }

  function Next(s: State, a: Action): Option<State>
  {
    match a
    case Remove(thread, id, thenInsert) => DoRemove(s, thread, id, thenInsert)
    case Stop(thread) => DoStop(s, thread)
    case Insert(thread) => DoInsert(s, thread)
  }

  function Run(s: State, actions: seq<Action>): Option<State>
    decreases |actions|
  {
    if actions == [] then Some(s)
    else match Run(s, actions[..|actions| - 1])
      case None => None
      case Some(before) => Next(before, actions[|actions| - 1])
  }

  // ---- where a channel is ----

  predicate Listed(s: State, c: nat) { exists id :: id in s.modules && s.modules[id] == c }

  predicate BeingStopped(s: State, c: nat)
  {
    exists thread :: thread in s.stages && s.stages[thread].Stopping? && s.stages[thread].channel == c
  }

  /** Inserted once, and neither in the table nor stopped nor about to be: its thread runs on, and
      nothing will ever end it. */
  predicate Lost(s: State, c: nat)
  {
    c < s.made && !Listed(s, c) && c !in s.stopped && !BeingStopped(s, c)
  }

  ghost predicate Valid(s: State)
  {
    forall c: nat :: !Lost(s, c)
  }

  /** A channel is in one place only. */
  ghost predicate OnePlace(s: State)
  {
    && (forall id :: id in s.modules ==> s.modules[id] < s.made && s.modules[id] !in s.stopped && !BeingStopped(s, s.modules[id]))
    && (forall id, other :: id in s.modules && other in s.modules && s.modules[id] == s.modules[other] ==> id == other)
    && (forall c :: c in s.stopped ==> c < s.made)
    && (forall thread :: thread in s.stages && s.stages[thread].Stopping? ==> s.stages[thread].channel < s.made)
  }

  // ---- where it was before ----

  lemma ListedBefore(s: State, a: Action, c: nat)
    requires Next(s, a).Some?
    ensures Listed(Next(s, a).value, c) ==> Listed(s, c) || (a.Insert? && c == s.made)
  {
    var t := Next(s, a).value;
    if Listed(t, c) {
      var id :| id in t.modules && t.modules[id] == c;
      if id in s.modules && s.modules[id] == c {
        assert Listed(s, c);
      }
    }
  }

  lemma BeingStoppedBefore(s: State, a: Action, c: nat)
    requires Next(s, a).Some?
    ensures BeingStopped(Next(s, a).value, c) ==> BeingStopped(s, c) || (a.Remove? && a.id in s.modules && s.modules[a.id] == c)
  {
    var t := Next(s, a).value;
    if BeingStopped(t, c) {
      var u :| u in t.stages && t.stages[u].Stopping? && t.stages[u].channel == c;
      if u in s.stages && s.stages[u] == t.stages[u] {
        assert BeingStopped(s, c);
      }
    }
  }

  lemma StoppedBefore(s: State, a: Action, c: nat)
    requires Next(s, a).Some?
    ensures c in Next(s, a).value.stopped ==> c in s.stopped || BeingStopped(s, c)
  {
  }

  lemma BeingStoppedMade(s: State, c: nat)
    requires OnePlace(s) && BeingStopped(s, c)
    ensures c < s.made
  {
  }

  lemma StepOnePlace(s: State, a: Action)
    requires OnePlace(s) && Next(s, a).Some?
    ensures OnePlace(Next(s, a).value)
  {
    var t := Next(s, a).value;
    forall id | id in t.modules ensures !BeingStopped(t, t.modules[id]) && t.modules[id] !in t.stopped {
      var c := t.modules[id];
      BeingStoppedBefore(s, a, c);
      StoppedBefore(s, a, c);
      if BeingStopped(s, c) {
        BeingStoppedMade(s, c);
      }
    }
  }

  lemma {:induction false} RunOnePlace(actions: seq<Action>)
    requires Run(INITIAL, actions).Some?
    ensures OnePlace(Run(INITIAL, actions).value)
    decreases |actions|
  {
    if actions != [] {
      hide OnePlace, Next;
      RunOnePlace(actions[..|actions| - 1]);
      StepOnePlace(Run(INITIAL, actions[..|actions| - 1]).value, actions[|actions| - 1]);
    }
  }

  // ---- lost exactly by an insertion over another channel ----

  predicate Overwrites(s: State, a: Action)
  {
    a.Insert? && StageOf(s, a.thread).Inserting? && StageOf(s, a.thread).id in s.modules
  }

  /** A lost channel stays lost. */
  lemma LostForGood(s: State, a: Action, c: nat)
    requires Lost(s, c) && Next(s, a).Some?
    ensures Lost(Next(s, a).value, c)
  {
    hide Listed, BeingStopped;
    ListedBefore(s, a, c);
    BeingStoppedBefore(s, a, c);
    StoppedBefore(s, a, c);
    ListedIs(s, c);
  }

  lemma ListedIs(s: State, c: nat)
    ensures forall id :: id in s.modules && s.modules[id] == c ==> Listed(s, c)
  {
  }

  lemma ListedAfterInsert(s: State, thread: nat, c: nat)
    requires DoInsert(s, thread).Some? && StageOf(s, thread).Inserting?
    ensures Listed(DoInsert(s, thread).value, c) ==>
              c == s.made || exists other :: other in s.modules && other != StageOf(s, thread).id && s.modules[other] == c
  {
    var t := DoInsert(s, thread).value;
    if Listed(t, c) {
      var id :| id in t.modules && t.modules[id] == c;
      assert id != StageOf(s, thread).id ==> id in s.modules && s.modules[id] == c;
    }
  }

  /** The channel that is overwritten is lost. */
  lemma OverwrittenIsLost(s: State, a: Action)
    requires OnePlace(s) && Overwrites(s, a) && Next(s, a).Some?
    ensures Lost(Next(s, a).value, s.modules[StageOf(s, a.thread).id])
  {
    var c := s.modules[StageOf(s, a.thread).id];
    ListedAfterInsert(s, a.thread, c);
    BeingStoppedBefore(s, a, c);
    StoppedBefore(s, a, c);
  }

  /** No other step loses a channel. */
  lemma NothingElseLoses(s: State, a: Action, c: nat)
    requires OnePlace(s) && !Lost(s, c) && Next(s, a).Some? && !Overwrites(s, a)
    ensures !Lost(Next(s, a).value, c)
  {
    var t := Next(s, a).value;
    if c < s.made {
      if Listed(s, c) {
        var id :| id in s.modules && s.modules[id] == c;
        if a.Remove? && a.id == id {
          assert t.stages[a.thread].Stopping? && t.stages[a.thread].channel == c;
          assert BeingStopped(t, c);
        } else {
          assert id in t.modules && t.modules[id] == c;
          assert Listed(t, c);
        }
      } else if BeingStopped(s, c) {
        var u :| u in s.stages && s.stages[u].Stopping? && s.stages[u].channel == c;
        if a.Stop? && a.thread == u {
          assert c in t.stopped;
        } else {
          assert u in t.stages && t.stages[u] == s.stages[u];
          assert BeingStopped(t, c);
        }
      }
    } else if a.Insert? && c == s.made {
      assert t.modules[StageOf(s, a.thread).id] == c;
      assert Listed(t, c);
    }
  }

  /** No insertion of the run has found its id taken. */
  predicate NoneOverwritten(actions: seq<Action>)
    decreases |actions|
  {
    actions != [] ==>
      && NoneOverwritten(actions[..|actions| - 1])
      && (Run(INITIAL, actions[..|actions| - 1]).Some? ==>
            !Overwrites(Run(INITIAL, actions[..|actions| - 1]).value, actions[|actions| - 1]))
  }

  /** Main result, for every interleaving: no channel is lost exactly when no insertion finds its id
      taken by another one. */
  lemma {:induction false} ValidExactly(actions: seq<Action>)
    requires Run(INITIAL, actions).Some?
    ensures Valid(Run(INITIAL, actions).value) <==> NoneOverwritten(actions)
    decreases |actions|
  {
    hide Next, Overwrites, Lost, OnePlace;
    if actions == [] {
      NothingLostYet();
    } else {
      var before, a := actions[..|actions| - 1], actions[|actions| - 1];
      var s := Run(INITIAL, before).value;
      ValidExactly(before);
      RunOnePlace(before);
      StepLoses(s, a);
    }
  }

  lemma NothingLostYet()
    ensures Valid(INITIAL)
  {
  }

  lemma StepLoses(s: State, a: Action)
    requires OnePlace(s) && Next(s, a).Some?
    ensures Valid(Next(s, a).value) <==> Valid(s) && !Overwrites(s, a)
  {
    hide Next, Lost, OnePlace;
    if Overwrites(s, a) {
      OverwrittenIsLost(s, a);
    } else {
      forall c: nat ensures Lost(Next(s, a).value, c) <==> Lost(s, c) {
        if Lost(s, c) {
          LostForGood(s, a, c);
        } else {
          NothingElseLoses(s, a, c);
        }
      }
    }
  }

  // ---- serial registrations ----

  /** A thread is between the removal and the insertion of a registration of `id`. */
  predicate Registering(s: State, thread: nat, id: nat)
  {
    var stage := StageOf(s, thread);
    (stage.Stopping? && stage.thenInsert && stage.id == id) || (stage.Inserting? && stage.id == id)
  }

  predicate Busy(s: State, id: nat)
  {
    exists thread :: thread in s.stages && Registering(s, thread, id)
  }

  /** No registration begins while another one of the same id is under way. Removals may. */
  predicate Serial(actions: seq<Action>)
    decreases |actions|
  {
    actions != [] ==>
      && Serial(actions[..|actions| - 1])
      && (var a, s := actions[|actions| - 1], Run(INITIAL, actions[..|actions| - 1]);
          s.Some? && a.Remove? && a.thenInsert ==> !Busy(s.value, a.id))
  }

  /** A registration under way is the only one of its id, and the id is free. */
  ghost predicate OneAtATime(s: State)
  {
    forall thread, id: nat :: thread in s.stages && Registering(s, thread, id) ==>
      id !in s.modules && forall other :: other in s.stages && other != thread ==> !Registering(s, other, id)
  }

  lemma RegisteringBefore(s: State, a: Action, thread: nat, id: nat)
    requires Next(s, a).Some?
    ensures thread in Next(s, a).value.stages && Registering(Next(s, a).value, thread, id) ==>
              (thread in s.stages && Registering(s, thread, id)) || (a == Remove(thread, id, true))
  {
  }

  lemma SerialStep(s: State, a: Action)
    requires OneAtATime(s) && Next(s, a).Some? && (a.Remove? && a.thenInsert ==> !Busy(s, a.id))
    ensures OneAtATime(Next(s, a).value) && !Overwrites(s, a)
  {
    var t := Next(s, a).value;
    InsertingIsRegistering(s, a);
    forall thread, id: nat | thread in t.stages && Registering(t, thread, id)
      ensures id !in t.modules && forall other :: other in t.stages && other != thread ==> !Registering(t, other, id)
    {
      RegisteringBefore(s, a, thread, id);
      forall other | other in t.stages && other != thread ensures !Registering(t, other, id) {
        RegisteringBefore(s, a, other, id);
      }
      FreeAfter(s, a, thread, id);
    }
  }

  /** An id in the table was there before, or has been inserted by a thread that registered it. */
  lemma FreeAfter(s: State, a: Action, thread: nat, id: nat)
    requires Next(s, a).Some? && thread in Next(s, a).value.stages && Registering(Next(s, a).value, thread, id)
    ensures id in Next(s, a).value.modules ==>
              (id in s.modules && a != Remove(thread, id, true))
              || (a.Insert? && a.thread != thread && a.thread in s.stages && Registering(s, a.thread, id))
  {
  }

  lemma InsertingIsRegistering(s: State, a: Action)
    ensures Overwrites(s, a) ==> a.thread in s.stages && Registering(s, a.thread, StageOf(s, a.thread).id)
  {
  }

  lemma {:induction false} SerialNeverOverwrites(actions: seq<Action>)
    requires Run(INITIAL, actions).Some? && Serial(actions)
    ensures OneAtATime(Run(INITIAL, actions).value) && NoneOverwritten(actions)
    decreases |actions|
  {
    hide Next, OneAtATime, Overwrites, Busy;
    if actions == [] {
      NobodyYet();
    } else {
      var before := actions[..|actions| - 1];
      SerialNeverOverwrites(before);
      SerialStep(Run(INITIAL, before).value, actions[|actions| - 1]);
    }
  }

  lemma NobodyYet()
    ensures OneAtATime(INITIAL)
  {
  }

  /** Two registrations of one id, the second begun before the first has inserted. */
  const OVERLAPPING: seq<Action> := [Remove(0, 7, true), Remove(1, 7, true), Insert(0), Insert(1)]

  lemma OverlapLoses()
    ensures Run(INITIAL, OVERLAPPING).Some? && Lost(Run(INITIAL, OVERLAPPING).value, 0)
  {
    var r := OVERLAPPING;
    var s1 := State(map[], {}, 0, map[0 := Inserting(7)]);
    var s2 := s1.(stages := map[0 := Inserting(7), 1 := Inserting(7)]);
    var s3 := State(map[7 := 0], {}, 1, map[0 := Idle, 1 := Inserting(7)]);
    var s4 := State(map[7 := 1], {}, 2, map[0 := Idle, 1 := Idle]);
    assert r[..1][..0] == [] && r[..2][..1] == r[..1] && r[..3][..2] == r[..2] && r[..3] == r[..|r| - 1];
    assert Run(INITIAL, r[..1][..0]) == Some(INITIAL);
    assert INITIAL.modules - {7} == map[];
    assert s2.stages[0 := Idle] == s3.stages && s3.stages[1 := Idle] == s4.stages;
    assert s2.modules[7 := 0] == s3.modules && s3.modules[7 := 1] == s4.modules;
    assert Run(INITIAL, r[..1]) == Some(s1);
    assert Run(INITIAL, r[..2]) == Some(s2);
    assert Run(INITIAL, r[..3]) == Some(s3);
    assert Run(INITIAL, r) == Some(s4);
  }

  /** Corollary: with registrations of each id made serial, no run loses a channel. */
  lemma SerialLosesNothing(actions: seq<Action>)
    requires Run(INITIAL, actions).Some? && Serial(actions)
    ensures Valid(Run(INITIAL, actions).value)
  {
    SerialNeverOverwrites(actions);
    ValidExactly(actions);
  }

  // ---- beginning a registration ----

  /** Nothing new begins. */
  predicate Finishing(actions: seq<Action>)
  {
    forall a :: a in actions ==> !a.Remove?
  }

  lemma {:induction false} RunConcat(s: State, first: seq<Action>, second: seq<Action>)
    ensures Run(s, first + second) == match Run(s, first)
                                      case None => None
                                      case Some(t) => Run(t, second)
    decreases |second|
  {
    hide Next;
    var all := first + second;
    if second == [] {
      assert all == first;
    } else {
      assert all[..|all| - 1] == first + second[..|second| - 1];
      RunConcat(s, first, second[..|second| - 1]);
    }
  }

  lemma RunOne(s: State, a: Action)
    ensures Run(s, [a]) == Next(s, a)
  {
    assert [a][..0] == [] && Run(s, []) == Some(s);
  }

  /** A thread that registers `id` stops the old channel, if it has taken one out. */
  lemma ReadyToInsert(s: State, thread: nat, id: nat) returns (actions: seq<Action>)
    requires Registering(s, thread, id)
    ensures Finishing(actions) && Run(s, actions).Some?
    ensures var t := Run(s, actions).value;
            StageOf(t, thread) == Inserting(id) && forall other :: other != thread ==> StageOf(t, other) == StageOf(s, other)
  {
    if StageOf(s, thread).Stopping? {
      actions := [Stop(thread)];
      RunOne(s, Stop(thread));
    } else {
      actions := [];
    }
  }

  /** Two threads that register the same id: both insert, the second over the first. */
  lemma BothInsert(s: State, one: nat, other: nat, id: nat) returns (actions: seq<Action>)
    requires OnePlace(s) && one != other && Registering(s, one, id) && Registering(s, other, id)
    ensures Finishing(actions) && Run(s, actions).Some? && !Valid(Run(s, actions).value)
  {
    hide Next, Run, OnePlace, Lost, Registering;
    var first := ReadyToInsert(s, one, id);
    var s1 := Run(s, first).value;
    InsertingRegisters(s, s1, other, id);
    var second := ReadyToInsert(s1, other, id);
    var s2 := Run(s1, second).value;
    RunConcat(s, first, second);
    RunKeepsOnePlace(s, first + second);
    var s3 := InsertsOver(s2, one, other, id);
    RunConcat(s, first + second, [Insert(one), Insert(other)]);
    actions := first + second + [Insert(one), Insert(other)];
  }

  lemma InsertingRegisters(s: State, t: State, thread: nat, id: nat)
    requires Registering(s, thread, id) && StageOf(t, thread) == StageOf(s, thread)
    ensures Registering(t, thread, id)
  {
  }

  lemma InsertsOver(s: State, one: nat, other: nat, id: nat) returns (t: State)
    requires OnePlace(s) && one != other && StageOf(s, one) == Inserting(id) && StageOf(s, other) == Inserting(id)
    ensures Run(s, [Insert(one), Insert(other)]) == Some(t) && !Valid(t)
  {
    hide OnePlace, Lost;
    var s1 := DoInsert(s, one).value;
    StepOnePlace(s, Insert(one));
    OverwrittenIsLost(s1, Insert(other));
    t := DoInsert(s1, other).value;
    RunOne(s, Insert(one));
    RunOne(s1, Insert(other));
    RunConcat(s, [Insert(one)], [Insert(other)]);
    assert [Insert(one)] + [Insert(other)] == [Insert(one), Insert(other)];
  }

  lemma {:induction false} RunKeepsOnePlace(s: State, actions: seq<Action>)
    requires OnePlace(s) && Run(s, actions).Some?
    ensures OnePlace(Run(s, actions).value)
    decreases |actions|
  {
    if actions != [] {
      hide OnePlace, Next;
      RunKeepsOnePlace(s, actions[..|actions| - 1]);
      StepOnePlace(Run(s, actions[..|actions| - 1]).value, actions[|actions| - 1]);
    }
  }

  /** A registration begun while another one of its id is under way. */
  lemma OverlapCanLose(before: seq<Action>, thread: nat, id: nat) returns (later: seq<Action>)
    requires Run(INITIAL, before + [Remove(thread, id, true)]).Some?
    requires Busy(Run(INITIAL, before).value, id)
    ensures Finishing(later) && Run(INITIAL, before + [Remove(thread, id, true)] + later).Some?
    ensures !Valid(Run(INITIAL, before + [Remove(thread, id, true)] + later).value)
  {
    var a := Remove(thread, id, true);
    RunConcat(INITIAL, before, [a]);
    var s := Run(INITIAL, before).value;
    RunOne(s, a);
    var t := Next(s, a).value;
    RunOnePlace(before + [a]);
    var one :| one in s.stages && Registering(s, one, id);
    BeginsBeside(s, one, thread, id);
    hide Run, Next, Registering, OnePlace, Valid;
    later := BothInsert(t, one, thread, id);
    RunConcat(INITIAL, before + [a], later);
  }

  lemma BeginsBeside(s: State, one: nat, thread: nat, id: nat)
    requires Registering(s, one, id) && Next(s, Remove(thread, id, true)).Some?
    ensures var t := Next(s, Remove(thread, id, true)).value; one != thread && Registering(t, one, id) && Registering(t, thread, id)
  {
  }

  lemma {:induction false} FinishingIsSerial(actions: seq<Action>, later: seq<Action>)
    requires Serial(actions) && Finishing(later) && Run(INITIAL, actions + later).Some?
    ensures Serial(actions + later)
    decreases |later|
  {
    hide Next, Busy;
    var all := actions + later;
    if later == [] {
      assert all == actions;
    } else {
      assert all[..|all| - 1] == actions + later[..|later| - 1];
      assert later[|later| - 1] in later;
      FinishingIsSerial(actions, later[..|later| - 1]);
    }
  }

  /** Main result: as long as registrations have been serial, one more can be begun without a channel
      being lost on any way to its end, exactly when none of the same id is under way. */
  lemma SafeToBeginExactly(before: seq<Action>, thread: nat, id: nat)
    requires Serial(before) && Run(INITIAL, before + [Remove(thread, id, true)]).Some? && Run(INITIAL, before).Some?
    ensures (forall later :: Finishing(later) && Run(INITIAL, before + [Remove(thread, id, true)] + later).Some? ==>
               Valid(Run(INITIAL, before + [Remove(thread, id, true)] + later).value))
            <==> !Busy(Run(INITIAL, before).value, id)
  {
    var a := Remove(thread, id, true);
    var begun := before + [a];
    if Busy(Run(INITIAL, before).value, id) {
      var later := OverlapCanLose(before, thread, id);
    } else {
      assert begun[..|begun| - 1] == before;
      assert Serial(begun);
      hide Run, Valid, Serial, Finishing;
      forall later | Finishing(later) && Run(INITIAL, begun + later).Some? ensures Valid(Run(INITIAL, begun + later).value) {
        FinishingIsSerial(begun, later);
        SerialLosesNothing(begun + later);
      }
    }
  }
}
