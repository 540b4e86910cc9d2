/**
 The model arbiter: turns count themselves on one atomic counter, background calls wait until it
 reads zero, and the turn that brings it to zero wakes them.

 Every atomic access is its own step. The decrement and the wake-up that follows it are two steps,
 and so are a background call's first load, the making of its wake-up future, which catches every
 later notification, its enabling, its second load and its sleep, so a run is any interleaving of
 these among any number of turns and calls.
 */
module ModelArbiters {

  type TurnId = nat
  type CallId = nat

  /**
   A turn opening its stream, a turn whose stream is open, or a drop between its decrement to zero and
   its wake-up.
   */
  datatype TurnPc = Opening | Streaming | Notifying

  /** Where a background call stands in `yield_to_turns`, and after it. */
  datatype CallPc =
    | Checking
    | Enrolling
    | Armed(woken: bool)
    | Rechecking(woken: bool)
    | Sleeping(woken: bool)
    | Cleared
    | Dispatched

  datatype State = State(turnsPending: int, turns: map<TurnId, TurnPc>, calls: map<CallId, CallPc>)

  const INITIAL := State(0, map[], map[])

  datatype Step =
    | Enter(t: TurnId)
    | Open(t: TurnId)
    | Release(t: TurnId)
    | Notify(t: TurnId)
    | Begin(w: CallId)
    | Check(w: CallId)
    | Arm(w: CallId)
    | Enroll(w: CallId)
    | Recheck(w: CallId)
    | Wake(w: CallId)
    | Dispatch(w: CallId)
    | Cancel(w: CallId)

  predicate Live(pc: TurnPc) {
    pc.Opening? || pc.Streaming?
  }

  /** A turn may be released from any live point: an error, an early return, a cancelled or undrained stream. */
  predicate Enabled(s: State, step: Step) {
    match step
    case Enter(t) => t !in s.turns
    case Open(t) => t in s.turns && s.turns[t].Opening?
    case Release(t) => t in s.turns && Live(s.turns[t])
    case Notify(t) => t in s.turns && s.turns[t].Notifying?
    case Begin(w) => w !in s.calls
    case Check(w) => w in s.calls && s.calls[w].Checking?
    case Arm(w) => w in s.calls && s.calls[w].Enrolling?
    case Enroll(w) => w in s.calls && s.calls[w].Armed?
    case Recheck(w) => w in s.calls && s.calls[w].Rechecking?
    case Wake(w) => w in s.calls && s.calls[w] == Sleeping(true)
    case Dispatch(w) => w in s.calls && s.calls[w].Cleared?
    case Cancel(w) => w in s.calls
  }

  function Woken(pc: CallPc): CallPc {
    if pc.Armed? || pc.Rechecking? || pc.Sleeping? then pc.(woken := true) else pc
  }

  function WakeAll(calls: map<CallId, CallPc>): map<CallId, CallPc> {
    map w | w in calls :: Woken(calls[w])
  }

  function Apply(s: State, step: Step): State
    requires Enabled(s, step)
  {
    match step
    case Enter(t) => s.(turnsPending := s.turnsPending + 1, turns := s.turns[t := Opening])
    case Open(t) => s.(turns := s.turns[t := Streaming])
    case Release(t) =>
      s.(turnsPending := s.turnsPending - 1,
         turns := if s.turnsPending == 1 then s.turns[t := Notifying] else s.turns - {t})
    case Notify(t) => s.(turns := s.turns - {t}, calls := WakeAll(s.calls))
    case Begin(w) => s.(calls := s.calls[w := Checking])
    case Check(w) => s.(calls := s.calls[w := if s.turnsPending > 0 then Enrolling else Cleared])
    case Arm(w) => s.(calls := s.calls[w := Armed(false)])
    case Enroll(w) => s.(calls := s.calls[w := Rechecking(s.calls[w].woken)])
    case Recheck(w) =>
      s.(calls := s.calls[w := if s.turnsPending == 0 then Cleared else Sleeping(s.calls[w].woken)])
    case Wake(w) => s.(calls := s.calls[w := Checking])
    case Dispatch(w) => s.(calls := s.calls[w := Dispatched])
    case Cancel(w) => s.(calls := s.calls - {w})
  }

  predicate Legal(s: State, steps: seq<Step>)
    decreases steps
  {
    steps == [] || (Enabled(s, steps[0]) && Legal(Apply(s, steps[0]), steps[1..]))
  }

  function Exec(s: State, steps: seq<Step>): State
    requires Legal(s, steps)
    decreases steps
  {
    if steps == [] then s else Exec(Apply(s, steps[0]), steps[1..])
  }

  // ---------------------------------------------------------------------------------------------
  // The invariant: the counter counts guards, and no sleeper is forgotten
  // ---------------------------------------------------------------------------------------------

  function LiveTurns(s: State): set<TurnId> {
    set t | t in s.turns && Live(s.turns[t])
  }

  ghost predicate SomeoneWillNotify(s: State) {
    s.turnsPending > 0 || exists t :: t in s.turns && s.turns[t].Notifying?
  }

  ghost predicate Inv(s: State) {
    && s.turnsPending == |LiveTurns(s)|
    && (forall w :: w in s.calls && s.calls[w] == Sleeping(false) ==> SomeoneWillNotify(s))
  }

  /** Every step keeps the counter equal to the number of live guards. */
  lemma CounterFollowsGuards(s: State, step: Step)
    requires Inv(s) && Enabled(s, step)
    ensures Apply(s, step).turnsPending == |LiveTurns(Apply(s, step))|
  {
    hide LiveTurns, SomeoneWillNotify, Apply;
    match step
    case Enter(t) => EnterCounts(s, t);
    case Open(t) => OpenCounts(s, t);
    case Release(t) => ReleaseCounts(s, t);
    case Notify(t) => NotifyCounts(s, t);
    case _ => CallsDoNotCount(s, step);
  }

  lemma EnterCounts(s: State, t: TurnId)
    requires s.turnsPending == |LiveTurns(s)| && Enabled(s, Enter(t))
    ensures Apply(s, Enter(t)).turnsPending == |LiveTurns(Apply(s, Enter(t)))|
  {
    hide LiveTurns;
    TurnSet(s, Apply(s, Enter(t)), t, Opening);
  }

  lemma OpenCounts(s: State, t: TurnId)
    requires s.turnsPending == |LiveTurns(s)| && Enabled(s, Open(t))
    ensures Apply(s, Open(t)).turnsPending == |LiveTurns(Apply(s, Open(t)))|
  {
    hide LiveTurns;
    TurnSet(s, Apply(s, Open(t)), t, Streaming);
    assert LiveTurns(s) + {t} == LiveTurns(s);
  }

  lemma ReleaseCounts(s: State, t: TurnId)
    requires s.turnsPending == |LiveTurns(s)| && Enabled(s, Release(t))
    ensures Apply(s, Release(t)).turnsPending == |LiveTurns(Apply(s, Release(t)))|
  {
    hide LiveTurns;
    if s.turnsPending == 1 {
      TurnSet(s, Apply(s, Release(t)), t, Notifying);
    } else {
      TurnDropped(s, Apply(s, Release(t)), t);
    }
  }

  lemma NotifyCounts(s: State, t: TurnId)
    requires s.turnsPending == |LiveTurns(s)| && Enabled(s, Notify(t))
    ensures Apply(s, Notify(t)).turnsPending == |LiveTurns(Apply(s, Notify(t)))|
  {
    hide LiveTurns, WakeAll;
    TurnDropped(s, Apply(s, Notify(t)), t);
    assert LiveTurns(s) - {t} == LiveTurns(s);
  }

  lemma CallsDoNotCount(s: State, step: Step)
    requires s.turnsPending == |LiveTurns(s)| && Enabled(s, step)
    requires !step.Enter? && !step.Open? && !step.Release? && !step.Notify?
    ensures Apply(s, step).turnsPending == |LiveTurns(Apply(s, step))|
  {
    hide LiveTurns;
    TurnsKept(s, Apply(s, step));
  }

  lemma TurnSet(s: State, s': State, t: TurnId, pc: TurnPc)
    requires s'.turns == s.turns[t := pc]
    ensures LiveTurns(s') == if Live(pc) then LiveTurns(s) + {t} else LiveTurns(s) - {t}
    ensures t in LiveTurns(s) <==> t in s.turns && Live(s.turns[t])
  {
  }

  lemma TurnDropped(s: State, s': State, t: TurnId)
    requires s'.turns == s.turns - {t}
    ensures LiveTurns(s') == LiveTurns(s) - {t}
    ensures t in LiveTurns(s) <==> t in s.turns && Live(s.turns[t])
  {
  }

  lemma TurnsKept(s: State, s': State)
    requires s'.turns == s.turns
    ensures LiveTurns(s') == LiveTurns(s)
  {
  }

  lemma SleepersStayCovered(s: State, step: Step)
    requires Inv(s) && Enabled(s, step)
    ensures var s' := Apply(s, step);
            forall w :: w in s'.calls && s'.calls[w] == Sleeping(false) ==> SomeoneWillNotify(s')
  {
    var s' := Apply(s, step);
    if w :| w in s'.calls && s'.calls[w] == Sleeping(false) {
      if step.Release? {
        assert step.t in LiveTurns(s);
        if s.turnsPending == 1 {
          assert s'.turns[step.t].Notifying?;
        }
      } else if step.Open? || step.Enter? {
        assert SomeoneWillNotify(s);
        if t :| t in s.turns && s.turns[t].Notifying? {
          assert s'.turns[t].Notifying?;
        }
      }
    }
  }

  lemma {:induction false} EveryRunKeepsInvariant(s: State, steps: seq<Step>)
    requires Inv(s) && Legal(s, steps)
    ensures Inv(Exec(s, steps))
    decreases steps
  {
    if steps != [] {
      CounterFollowsGuards(s, steps[0]);
      SleepersStayCovered(s, steps[0]);
      EveryRunKeepsInvariant(Apply(s, steps[0]), steps[1..]);
    }
  }

  /**
   No lost wake-up: in every reachable state a call asleep and not yet woken has a turn still
   counted or a drop that has not yet notified; once there is neither, nobody sleeps. The counter
   never goes below zero, and is exactly the number of live guards.
   */
  lemma NoLostWakeup(steps: seq<Step>, s: State)
    requires Legal(INITIAL, steps) && s == Exec(INITIAL, steps)
    ensures s.turnsPending == |LiveTurns(s)|
    ensures s.turnsPending == |set t | t in s.turns && !s.turns[t].Notifying?|
    ensures s.turns == map[] ==> forall w :: w in s.calls ==> s.calls[w] != Sleeping(false)
    ensures (exists w :: w in s.calls && s.calls[w] == Sleeping(false)) ==>
              s.turnsPending > 0 || exists t :: t in s.turns && s.turns[t].Notifying?
  {
    assert LiveTurns(INITIAL) == {};
    EveryRunKeepsInvariant(INITIAL, steps);
    assert LiveTurns(s) == set t | t in s.turns && !s.turns[t].Notifying?;
    if s.turns == map[] {
      assert LiveTurns(s) == {};
    }
  }

  // ---------------------------------------------------------------------------------------------
  // Background never wedges behind turns that went away
  // ---------------------------------------------------------------------------------------------

  /** The steps a call takes by itself when no turn is left. */
  function OwnSteps(w: CallId, pc: CallPc): seq<Step> {
    match pc
    case Checking => [Check(w), Dispatch(w)]
    case Enrolling => [Arm(w), Enroll(w), Recheck(w), Dispatch(w)]
    case Armed(_) => [Enroll(w), Recheck(w), Dispatch(w)]
    case Rechecking(_) => [Recheck(w), Dispatch(w)]
    case Sleeping(_) => [Wake(w), Check(w), Dispatch(w)]
    case Cleared => [Dispatch(w)]
    case Dispatched => []
  }

  /** In a reachable state with no turn left, every call runs to its dispatch without anybody's help. */
  lemma {:induction false} NoWedge(s: State, w: CallId)
    requires Inv(s) && s.turns == map[] && w in s.calls
    ensures Legal(s, OwnSteps(w, s.calls[w]))
    ensures Exec(s, OwnSteps(w, s.calls[w])) == s.(calls := s.calls[w := Dispatched])
    decreases |OwnSteps(w, s.calls[w])|
  {
    assert LiveTurns(s) == {};
    var own := OwnSteps(w, s.calls[w]);
    if own == [] {
      assert s.calls[w := Dispatched] == s.calls;
    } else {
      var s' := Apply(s, own[0]);
      CounterFollowsGuards(s, own[0]);
      SleepersStayCovered(s, own[0]);
      assert own[1..] == OwnSteps(w, s'.calls[w]);
      NoWedge(s', w);
      assert s'.calls[w := Dispatched] == s.calls[w := Dispatched];
    }
  }

  // ---------------------------------------------------------------------------------------------
  // Priority: a dispatch saw an instant without turns
  // ---------------------------------------------------------------------------------------------

  /** Some instant of the run has no turn at the model. */
  predicate SawIdle(s: State, steps: seq<Step>)
    requires Legal(s, steps)
    decreases steps
  {
    s.turnsPending == 0 || (steps != [] && SawIdle(Apply(s, steps[0]), steps[1..]))
  }

  predicate PastTheGate(s: State, w: CallId) {
    w in s.calls && (s.calls[w].Cleared? || s.calls[w].Dispatched?)
  }

  lemma {:induction false} GateOpensOnlyWhenIdle(s: State, steps: seq<Step>, w: CallId)
    requires Legal(s, steps) && !PastTheGate(s, w) && PastTheGate(Exec(s, steps), w)
    requires Inv(s)
    ensures SawIdle(s, steps)
    decreases steps
  {
    if steps != [] {
      CounterFollowsGuards(s, steps[0]);
      SleepersStayCovered(s, steps[0]);
      if !PastTheGate(Apply(s, steps[0]), w) {
        GateOpensOnlyWhenIdle(Apply(s, steps[0]), steps[1..], w);
      }
    }
  }

  /**
   Over every run from the start, a call that is dispatched at the end of `during` saw, after its
   own `Begin`, an instant at which no turn guard was alive.
   */
  lemma DispatchFollowsAnIdleInstant(before: seq<Step>, s: State, w: CallId, during: seq<Step>)
    requires Legal(INITIAL, before) && s == Exec(INITIAL, before) && Enabled(s, Begin(w))
    requires Legal(Apply(s, Begin(w)), during)
    requires PastTheGate(Exec(Apply(s, Begin(w)), during), w)
    ensures SawIdle(Apply(s, Begin(w)), during)
    ensures exists n :: 0 <= n <= |during| && Legal(Apply(s, Begin(w)), during[..n])
                        && forall t :: t in Exec(Apply(s, Begin(w)), during[..n]).turns ==>
                             Exec(Apply(s, Begin(w)), during[..n]).turns[t].Notifying?
  {
    assert LiveTurns(INITIAL) == {};
    EveryRunKeepsInvariant(INITIAL, before);
    CounterFollowsGuards(s, Begin(w));
    SleepersStayCovered(s, Begin(w));
    GateOpensOnlyWhenIdle(Apply(s, Begin(w)), during, w);
    var n := IdleInstant(Apply(s, Begin(w)), during);
  }

  /** Which instant that is, and what no turn at the model means: every guard has been dropped. */
  lemma {:induction false} IdleInstant(s: State, steps: seq<Step>) returns (n: nat)
    requires Inv(s) && Legal(s, steps) && SawIdle(s, steps)
    ensures n <= |steps| && Legal(s, steps[..n])
    ensures forall t :: t in Exec(s, steps[..n]).turns ==> Exec(s, steps[..n]).turns[t].Notifying?
    decreases steps
  {
    if s.turnsPending == 0 {
      n := 0;
      assert LiveTurns(s) == {};
      assert forall t :: t in s.turns ==> (t in LiveTurns(s) <==> Live(s.turns[t]));
    } else {
      CounterFollowsGuards(s, steps[0]);
      SleepersStayCovered(s, steps[0]);
      n := IdleInstant(Apply(s, steps[0]), steps[1..]);
      n := n + 1;
      assert steps[..n][1..] == steps[1..][..n - 1];
    }
  }

  // ---------------------------------------------------------------------------------------------
  // What a step may touch
  // ---------------------------------------------------------------------------------------------

  /** No turn, and no call but `w`, is different. */
  ghost predicate OnlyCallMoved(s: State, s': State, w: CallId) {
    && s'.turnsPending == s.turnsPending && s'.turns == s.turns
    && forall v :: v != w ==>
         (v in s'.calls <==> v in s.calls) && (v in s.calls ==> s'.calls[v] == s.calls[v])
  }

  /** No call, and no turn but `t`, is different. */
  ghost predicate OnlyTurnMoved(s: State, s': State, t: TurnId) {
    && s'.calls == s.calls
    && forall u :: u != t ==>
         (u in s'.turns <==> u in s.turns) && (u in s.turns ==> s'.turns[u] == s.turns[u])
  }

  /** A call's step is its own affair: it moves that call along its loop and nothing else. */
  lemma CallSteps(s: State, step: Step, w: CallId)
    requires Enabled(s, step)
    requires step in {Begin(w), Check(w), Arm(w), Enroll(w), Recheck(w), Wake(w), Dispatch(w), Cancel(w)}
    ensures var s' := Apply(s, step);
            && OnlyCallMoved(s, s', w)
            && (w in s'.calls <==> !step.Cancel?)
            && (step.Begin? || step.Wake? ==> s'.calls[w] == Checking)
            && (step.Check? ==> s'.calls[w] == if s.turnsPending > 0 then Enrolling else Cleared)
            && (step.Arm? ==> s'.calls[w] == Armed(false))
            && (step.Enroll? ==> s'.calls[w] == Rechecking(s.calls[w].woken))
            && (step.Recheck? ==>
                  s'.calls[w] == if s.turnsPending == 0 then Cleared else Sleeping(s.calls[w].woken))
            && (step.Dispatch? ==> s'.calls[w] == Dispatched)
  {
  }

  /** A turn's step moves that turn and the counter; only the wake-up reaches the calls. */
  lemma TurnSteps(s: State, step: Step, t: TurnId)
    requires Enabled(s, step) && step in {Enter(t), Open(t), Release(t), Notify(t)}
    ensures var s' := Apply(s, step);
            && OnlyTurnMoved(s, s'.(calls := s.calls), t)
            && s'.turnsPending == s.turnsPending + (if step.Enter? then 1 else if step.Release? then -1 else 0)
            && (step.Enter? ==> t in s'.turns && s'.turns[t].Opening?)
            && (step.Open? ==> t in s'.turns && s'.turns[t].Streaming?)
            && (step.Release? ==> (t in s'.turns <==> s.turnsPending == 1))
            && (step.Release? && s.turnsPending == 1 ==> s'.turns[t].Notifying?)
            && (step.Notify? ==> t !in s'.turns)
            && (!step.Notify? ==> s'.calls == s.calls)
  {
  }

  /** A guard can be dropped while it lives, and a call started, dropped or carried on, whatever the others do. */
  lemma NobodyIsHeldUp(s: State)
    ensures forall t :: Enabled(s, Enter(t)) <==> t !in s.turns
    ensures forall t :: t in s.turns && !s.turns[t].Notifying? <==> Enabled(s, Release(t))
    ensures forall t :: t in s.turns && s.turns[t].Notifying? <==> Enabled(s, Notify(t))
    ensures forall w :: Enabled(s, Begin(w)) <==> w !in s.calls
    ensures forall w :: Enabled(s, Cancel(w)) <==> w in s.calls
    ensures forall w :: w in s.calls && !s.calls[w].Dispatched? && s.calls[w] != Sleeping(false) ==>
              Enabled(s, OwnSteps(w, s.calls[w])[0])
  {
  }

  // ---------------------------------------------------------------------------------------------
  // The arbiter as the program holds it
  // ---------------------------------------------------------------------------------------------

  /** The calls registered with the notifier and not yet notified. */
  function Registered(s: State): set<CallId> {
    set w | w in s.calls && s.calls[w] in {Armed(false), Rechecking(false), Sleeping(false)}
  }

  /** A counter and a wait list; each method is one atomic access. */
  class ModelArbiter {
    var turnsPending: nat
    var idle: set<CallId>
    ghost var state: State

    ghost predicate Valid()
      reads this
    {
      Inv(state) && turnsPending == state.turnsPending && idle == Registered(state)
    }

    constructor ()
      ensures Valid() && state == INITIAL
    {
      turnsPending, idle, state := 0, {}, INITIAL;
      assert LiveTurns(INITIAL) == {};
    }

    method EnterTurn(ghost t: TurnId)
      requires Valid() && Enabled(state, Enter(t))
      modifies this
      ensures Valid() && state == Apply(old(state), Enter(t))
      ensures turnsPending == old(turnsPending) + 1 && idle == old(idle)
      ensures OnlyTurnMoved(old(state), state, t) && t in state.turns && state.turns[t].Opening?
    {
      CounterFollowsGuards(state, Enter(t));
      SleepersStayCovered(state, Enter(t));
      turnsPending := turnsPending + 1;
      state := Apply(state, Enter(t));
    }

    /** The guard's decrement; the drop goes on to notify exactly when it took the last count. */
    method FetchSub(ghost t: TurnId) returns (last: bool)
      requires Valid() && Enabled(state, Release(t))
      modifies this
      ensures Valid() && state == Apply(old(state), Release(t))
      ensures last <==> t in state.turns && state.turns[t].Notifying?
      ensures last <==> LiveTurns(state) == {}
      ensures last <==> old(turnsPending) == 1
      ensures turnsPending == old(turnsPending) - 1 && idle == old(idle)
      ensures OnlyTurnMoved(old(state), state, t) && (t in state.turns <==> last)
    {
      CounterFollowsGuards(state, Release(t));
      SleepersStayCovered(state, Release(t));
      assert t in LiveTurns(state);
      last := turnsPending == 1;
      turnsPending := turnsPending - 1;
      state := Apply(state, Release(t));
    }

    method NotifyWaiters(ghost t: TurnId)
      requires Valid() && Enabled(state, Notify(t))
      modifies this
      ensures Valid() && state == Apply(old(state), Notify(t))
      ensures turnsPending == old(turnsPending) && idle == {}
      ensures OnlyTurnMoved(old(state), state.(calls := old(state).calls), t) && t !in state.turns
      ensures state.calls.Keys == old(state).calls.Keys
      ensures forall w :: w in state.calls ==>
                state.calls[w] == if w in old(idle) then old(state).calls[w].(woken := true) else old(state).calls[w]
    {
      CounterFollowsGuards(state, Notify(t));
      SleepersStayCovered(state, Notify(t));
      idle := {};
      state := Apply(state, Notify(t));
    }

    /** The load at the head of the wait loop. */
    method Load(ghost w: CallId) returns (clear: bool)
      requires Valid() && Enabled(state, Check(w))
      modifies this`state
      ensures Valid() && state == Apply(old(state), Check(w))
      ensures clear <==> PastTheGate(state, w)
      ensures clear <==> turnsPending == 0
      ensures OnlyCallMoved(old(state), state, w)
      ensures w in state.calls && state.calls[w] == if clear then Cleared else Enrolling
    {
      CounterFollowsGuards(state, Check(w));
      SleepersStayCovered(state, Check(w));
      clear := turnsPending == 0;
      state := Apply(state, Check(w));
      assert idle == Registered(state);
    }

    /** Making the future: from here on no notification is missed. */
    method Notified(w: CallId)
      requires Valid() && Enabled(state, Arm(w))
      modifies this
      ensures Valid() && state == Apply(old(state), Arm(w))
      ensures turnsPending == old(turnsPending) && idle == old(idle) + {w}
      ensures OnlyCallMoved(old(state), state, w)
      ensures w in state.calls && state.calls[w] == Armed(false)
    {
      CounterFollowsGuards(state, Arm(w));
      SleepersStayCovered(state, Arm(w));
      idle := idle + {w};
      state := Apply(state, Arm(w));
      assert idle == Registered(state);
    }

    /** Enabling it early: it keeps what it has caught and goes on catching. */
    method Enable(ghost w: CallId)
      requires Valid() && Enabled(state, Enroll(w))
      modifies this`state
      ensures Valid() && state == Apply(old(state), Enroll(w))
      ensures OnlyCallMoved(old(state), state, w)
      ensures w in state.calls && state.calls[w] == Rechecking(w !in idle)
    {
      CounterFollowsGuards(state, Enroll(w));
      SleepersStayCovered(state, Enroll(w));
      state := Apply(state, Enroll(w));
      assert idle == Registered(state);
    }

    /** The load after registering; a zero breaks the loop, which drops the registration. */
    method Reload(w: CallId) returns (clear: bool)
      requires Valid() && Enabled(state, Recheck(w))
      modifies this
      ensures Valid() && state == Apply(old(state), Recheck(w))
      ensures clear <==> PastTheGate(state, w)
      ensures clear <==> turnsPending == 0
      ensures turnsPending == old(turnsPending) && idle == if clear then old(idle) - {w} else old(idle)
      ensures OnlyCallMoved(old(state), state, w)
      ensures w in state.calls && state.calls[w] == if clear then Cleared else Sleeping(w !in idle)
    {
      CounterFollowsGuards(state, Recheck(w));
      SleepersStayCovered(state, Recheck(w));
      clear := turnsPending == 0;
      if clear {
        idle := idle - {w};
      }
      state := Apply(state, Recheck(w));
      assert idle == Registered(state);
    }

    /** A call dropped anywhere in its wait takes its registration with it. */
    method Drop(w: CallId)
      requires Valid() && Enabled(state, Cancel(w))
      modifies this
      ensures Valid() && state == Apply(old(state), Cancel(w))
      ensures turnsPending == old(turnsPending) && idle == old(idle) - {w}
      ensures OnlyCallMoved(old(state), state, w) && w !in state.calls
    {
      CounterFollowsGuards(state, Cancel(w));
      SleepersStayCovered(state, Cancel(w));
      idle := idle - {w};
      state := Apply(state, Cancel(w));
      assert idle == Registered(state);
    }

    /** A poll of the sleeping call: it may go round the loop exactly when it has been notified. */
    method Poll(w: CallId) returns (woken: bool)
      requires Valid() && w in state.calls && state.calls[w].Sleeping?
      modifies this`state
      ensures Valid()
      ensures woken <==> Enabled(old(state), Wake(w))
      ensures state == if woken then Apply(old(state), Wake(w)) else old(state)
      ensures woken <==> w !in idle
      ensures OnlyCallMoved(old(state), state, w)
      ensures w in state.calls && state.calls[w] == if woken then Checking else Sleeping(false)
    {
      woken := w !in idle;
      if woken {
        CounterFollowsGuards(state, Wake(w));
        SleepersStayCovered(state, Wake(w));
        state := Apply(state, Wake(w));
        assert idle == Registered(state);
      }
    }
  }
}
