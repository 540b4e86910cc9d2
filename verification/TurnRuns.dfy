/**
 Runs of the turn ledger: any number of conversations, any interleaving of arrivals, counter
 reads, admissions and exits. Each step is atomic, as every ledger operation runs under one lock.
 */
module TurnRuns {
  import opened ConversationTurns

  type ConversationId = string
  type Ledger = map<ConversationId, Room>

  datatype Step =
    | ArriveStep(c: ConversationId, now: Timestamp)
    | ObserveStep(c: ConversationId, epoch: Epoch)
    | CommitStep(c: ConversationId, epoch: Epoch)
    | ExitStep(c: ConversationId, epoch: Epoch, superseded: bool)

  ghost predicate Inv(l: Ledger) {
    forall c :: c in l ==> Consistent(l[c]) && l[c].holders != map[]
  }

  function RoomOf(l: Ledger, c: ConversationId): Room {
    if c in l then l[c] else EMPTY_ROOM
  }

  /** What a holder may do: a ticket may observe its epoch being served, a called one may commit, and any may leave. */
  predicate Enabled(l: Ledger, s: Step) {
    match s
    case ArriveStep(_, _) => true
    case ObserveStep(c, e) =>
      c in l && e in l[c].holders && l[c].holders[e].Waiting? && l[c].entry.serving == e
    case CommitStep(c, e) => c in l && e in l[c].holders && l[c].holders[e].Called?
    case ExitStep(c, e, _) => c in l && e in l[c].holders
  }

  function RoomStep(r: Room, s: Step): Room
    requires !s.ArriveStep? ==> s.epoch in r.holders
  {
    match s
    case ArriveStep(_, now) => Arrive(r, now)
    case ObserveStep(_, e) => Observe(r, e)
    case CommitStep(_, e) => Commit(r, e)
    case ExitStep(_, e, superseded) => Exit(r, e, superseded)
  }

  /** One step; the entry is removed once no holder is outstanding. */
  function Apply(l: Ledger, s: Step): Ledger
    requires Enabled(l, s)
  {
    var r := RoomStep(RoomOf(l, s.c), s);
    if r.entry.outstanding == 0 then l - {s.c} else l[s.c := r]
  }

  predicate Legal(l: Ledger, steps: seq<Step>)
    decreases steps
  {
    steps == [] || (Enabled(l, steps[0]) && Legal(Apply(l, steps[0]), steps[1..]))
  }

  function Exec(l: Ledger, steps: seq<Step>): Ledger
    requires Legal(l, steps)
    decreases steps
  {
    if steps == [] then l else Exec(Apply(l, steps[0]), steps[1..])
  }

  /** A run is its steps, one after another: each has to be possible when its turn comes. */
  lemma {:induction false} RunsCompose(l: Ledger, a: seq<Step>, b: seq<Step>)
    ensures Legal(l, []) && Exec(l, []) == l
    ensures forall s :: Legal(l, [s]) <==> Enabled(l, s)
    ensures forall s :: Enabled(l, s) ==> Exec(l, [s]) == Apply(l, s)
    ensures Legal(l, a + b) <==> Legal(l, a) && Legal(Exec(l, a), b)
    ensures Legal(l, a + b) ==> Exec(l, a + b) == Exec(Exec(l, a), b)
    decreases a
  {
    hide Apply, Enabled;
    forall s: Step ensures [s][1..] == [] && [s][0] == s {
    }
    if a == [] {
      assert a + b == b;
    } else {
      assert (a + b)[1..] == a[1..] + b;
      if Enabled(l, a[0]) {
        RunsCompose(Apply(l, a[0]), a[1..], b);
      }
    }
  }

  /** The ledger `n` steps into a run. */
  function At(l: Ledger, steps: seq<Step>, n: nat): Ledger
    requires n <= |steps| && Legal(l, steps)
  {
    RunsCompose(l, steps[..n], steps[n..]);
    assert steps == steps[..n] + steps[n..];
    Exec(l, steps[..n])
  }

  lemma AtStep(l: Ledger, steps: seq<Step>, n: nat)
    requires Legal(l, steps)
    ensures At(l, steps, 0) == l
    ensures 0 < n <= |steps| ==> At(l, steps, n) == At(Apply(l, steps[0]), steps[1..], n - 1)
  {
    if 0 < n <= |steps| {
      assert steps[..n][1..] == steps[1..][..n - 1];
    }
  }

  // ---------------------------------------------------------------------------------------------
  // The invariant over every run
  // ---------------------------------------------------------------------------------------------

  lemma RoomStepKeepsInvariant(l: Ledger, s: Step)
    requires Inv(l) && Enabled(l, s)
    ensures Consistent(RoomStep(RoomOf(l, s.c), s))
  {
    var r := RoomOf(l, s.c);
    match s
    case ArriveStep(_, now) =>
      EmptyRoomIsConsistent();
      ArriveKeepsInvariant(r, now);
    case ObserveStep(_, e) => ObserveKeepsInvariant(r, e);
    case CommitStep(_, e) => CommitKeepsInvariant(r, e);
    case ExitStep(_, e, superseded) => ExitKeepsInvariant(r, e, superseded);
  }

  lemma StepKeepsInvariant(l: Ledger, s: Step)
    requires Inv(l) && Enabled(l, s)
    ensures Inv(Apply(l, s))
  {
    hide Consistent, RoomStep;
    RoomStepKeepsInvariant(l, s);
    ServesALiveHolder(RoomStep(RoomOf(l, s.c), s));
  }

  lemma {:induction false} EveryRunIsConsistent(l: Ledger, steps: seq<Step>)
    requires Inv(l) && Legal(l, steps)
    ensures Inv(Exec(l, steps))
    decreases steps
  {
    if steps != [] {
      StepKeepsInvariant(l, steps[0]);
      EveryRunIsConsistent(Apply(l, steps[0]), steps[1..]);
    }
  }

  // ---------------------------------------------------------------------------------------------
  // An entry lives exactly as long as its holders
  // ---------------------------------------------------------------------------------------------

  function Change(s: Step, c: ConversationId): int {
    if s.c != c then 0 else if s.ArriveStep? then 1 else if s.ExitStep? then -1 else 0
  }

  /** Arrivals less exits of `c`: counted from the steps alone. */
  function Balance(steps: seq<Step>, c: ConversationId): int {
    if steps == [] then 0
    else
      Change(steps[0], c) + Balance(steps[1..], c)
  }

  function Outstanding(l: Ledger, c: ConversationId): int {
    RoomOf(l, c).entry.outstanding
  }

  lemma StepBalance(l: Ledger, s: Step, c: ConversationId)
    requires Inv(l) && Enabled(l, s)
    ensures Outstanding(Apply(l, s), c) == Outstanding(l, c) + Change(s, c)
  {
  }

  /** Over every run the holder count is arrivals less exits, and the entry is there exactly while it is positive. */
  lemma {:induction false} EntryLivesWhileHeld(l: Ledger, steps: seq<Step>, c: ConversationId)
    requires Inv(l) && Legal(l, steps)
    ensures Outstanding(Exec(l, steps), c) == Outstanding(l, c) + Balance(steps, c)
    ensures c in Exec(l, steps) <==> Outstanding(l, c) + Balance(steps, c) > 0
    decreases steps
  {
    if steps == [] {
      if c in l {
        ServesALiveHolder(l[c]);
      }
    } else {
      StepKeepsInvariant(l, steps[0]);
      StepBalance(l, steps[0], c);
      EntryLivesWhileHeld(Apply(l, steps[0]), steps[1..], c);
    }
  }

  // ---------------------------------------------------------------------------------------------
  // Conversations do not interfere
  // ---------------------------------------------------------------------------------------------

  function Only(steps: seq<Step>, c: ConversationId): seq<Step> {
    if steps == [] then []
    else if steps[0].c == c then [steps[0]] + Only(steps[1..], c)
    else Only(steps[1..], c)
  }

  ghost predicate AgreeOn(l: Ledger, l': Ledger, c: ConversationId) {
    (c in l <==> c in l') && (c in l ==> l[c] == l'[c])
  }

  /** A conversation ends a run exactly as if its own steps had run alone. */
  lemma {:induction false} Projection(l: Ledger, alone: Ledger, steps: seq<Step>, c: ConversationId)
    requires AgreeOn(l, alone, c)
    requires Legal(l, steps)
    ensures Legal(alone, Only(steps, c))
    ensures AgreeOn(Exec(l, steps), Exec(alone, Only(steps, c)), c)
    decreases steps
  {
    if steps != [] {
      var s, rest := steps[0], steps[1..];
      if s.c == c {
        assert Only(steps, c)[0] == s && Only(steps, c)[1..] == Only(rest, c);
        Projection(Apply(l, s), Apply(alone, s), rest, c);
      } else {
        Projection(Apply(l, s), alone, rest, c);
      }
    }
  }

  // ---------------------------------------------------------------------------------------------
  // Order
  // ---------------------------------------------------------------------------------------------

  /** The entry of `c` is never removed along the run. */
  predicate StaysOpen(l: Ledger, steps: seq<Step>, c: ConversationId)
    requires Legal(l, steps)
    decreases steps
  {
    c in l && (steps == [] || StaysOpen(Apply(l, steps[0]), steps[1..], c))
  }

  lemma {:induction false} StaysOpenIff(l: Ledger, steps: seq<Step>, c: ConversationId)
    requires Legal(l, steps)
    ensures StaysOpen(l, steps, c) <==> forall n :: 0 <= n <= |steps| ==> c in At(l, steps, n)
    decreases steps
  {
    hide At, Apply, Enabled;
    AtStep(l, steps, 0);
    if steps != [] {
      var l', rest := Apply(l, steps[0]), steps[1..];
      StaysOpenIff(l', rest, c);
      forall n | 0 < n <= |steps| ensures At(l, steps, n) == At(l', rest, n - 1) {
        AtStep(l, steps, n);
      }
      assert forall n :: 0 <= n <= |rest| ==> At(l', rest, n) == At(l, steps, n + 1);
    }
  }

  lemma RoomStepEvolves(r: Room, s: Step)
    requires Consistent(r) && (!s.ArriveStep? ==> s.epoch in r.holders)
    requires s.ObserveStep? ==> r.holders[s.epoch].Waiting?
    requires s.CommitStep? ==> r.holders[s.epoch].Called?
    ensures Evolves(r, RoomStep(r, s))
  {
    hide SlotLaw, After, Unanswered;
    match s
    case ArriveStep(_, now) => assert r.times <= r.times + [now];
    case _ =>
  }

  lemma StepEvolves(l: Ledger, s: Step, c: ConversationId)
    requires Inv(l) && Enabled(l, s) && c in l && c in Apply(l, s)
    ensures Evolves(l[c], Apply(l, s)[c])
  {
    hide Consistent, RoomStep;
    if s.c == c {
      RoomStepEvolves(l[c], s);
    } else {
      NothingEvolves(l[c]);
    }
  }

  lemma NothingEvolves(r: Room)
    ensures Evolves(r, r)
  {
  }

  lemma {:induction false} RunEvolves(l: Ledger, steps: seq<Step>, c: ConversationId)
    requires Inv(l) && Legal(l, steps) && StaysOpen(l, steps, c)
    ensures c in Exec(l, steps)
    ensures Evolves(l[c], Exec(l, steps)[c])
    decreases steps
  {
    if steps != [] {
      var l' := Apply(l, steps[0]);
      StepKeepsInvariant(l, steps[0]);
      RunEvolves(l', steps[1..], c);
      StepEvolves(l, steps[0], c);
      EvolvesTransitive(l[c], l'[c], Exec(l, steps)[c]);
    }
  }

  lemma LaterAdmissionIsHigher(r: Room, first: Epoch, r': Room, second: Epoch)
    requires Consistent(r) && first in r.holders && r.holders[first].Admitted?
    requires Consistent(r') && second in r'.holders && r'.holders[second].Called?
    requires Evolves(r, r')
    ensures first < second
    ensures forall x :: 0 <= x < second ==> x in r'.exited
  {
  }

  /**
   Two admissions of one entry come in arrival order, whatever ran between them, and by the time
   the later one commits every epoch below it has left.
   */
  lemma AdmissionsInArrivalOrder(l: Ledger, c: ConversationId, first: Epoch, l1: Ledger,
                                 between: seq<Step>, l2: Ledger, second: Epoch)
    requires Inv(l) && Enabled(l, CommitStep(c, first)) && l1 == Apply(l, CommitStep(c, first))
    requires Legal(l1, between) && StaysOpen(l1, between, c) && l2 == Exec(l1, between)
    requires Enabled(l2, CommitStep(c, second))
    ensures first < second
    ensures forall x :: 0 <= x < second ==> x in l2[c].exited
  {
    StepKeepsInvariant(l, CommitStep(c, first));
    EveryRunIsConsistent(l1, between);
    RunEvolves(l1, between, c);
    LaterAdmissionIsHigher(l1[c], first, l2[c], second);
  }

  // ---------------------------------------------------------------------------------------------
  // No stall
  // ---------------------------------------------------------------------------------------------

  /** Holder `e` of `c` is live before and after every step. */
  predicate StaysLive(l: Ledger, steps: seq<Step>, c: ConversationId, e: Epoch)
    requires Legal(l, steps)
    decreases steps
  {
    c in l && e in l[c].holders && (steps == [] || StaysLive(Apply(l, steps[0]), steps[1..], c, e))
  }

  lemma {:induction false} StaysLiveIff(l: Ledger, steps: seq<Step>, c: ConversationId, e: Epoch)
    requires Legal(l, steps)
    ensures StaysLive(l, steps, c, e) <==>
            forall n :: 0 <= n <= |steps| ==> c in At(l, steps, n) && e in At(l, steps, n)[c].holders
    decreases steps
  {
    hide At, Apply, Enabled;
    AtStep(l, steps, 0);
    if steps != [] {
      var l', rest := Apply(l, steps[0]), steps[1..];
      StaysLiveIff(l', rest, c, e);
      forall n | 0 < n <= |steps| ensures At(l, steps, n) == At(l', rest, n - 1) {
        AtStep(l, steps, n);
      }
      assert forall n :: 0 <= n <= |rest| ==> At(l', rest, n) == At(l, steps, n + 1);
    }
  }

  function ExitsBelow(steps: seq<Step>, c: ConversationId, e: Epoch): nat {
    if steps == [] then 0
    else
      ExitsBelow(steps[1..], c, e)
      + (if steps[0].c == c && steps[0].ExitStep? && steps[0].epoch < e then 1 else 0)
  }

  lemma RoomStepShortensTheLine(r: Room, s: Step, e: Epoch)
    requires Consistent(r) && e in r.holders && (!s.ArriveStep? ==> s.epoch in r.holders)
    ensures |Ahead(RoomStep(r, s), e)| + (if s.ExitStep? && s.epoch < e then 1 else 0) == |Ahead(r, e)|
  {
    if s.ExitStep? {
      ExitShortensTheLine(r, s.epoch, s.superseded, e);
    } else {
      assert Ahead(RoomStep(r, s), e) == Ahead(r, e);
    }
  }

  lemma StepShortensTheLine(l: Ledger, s: Step, c: ConversationId, e: Epoch)
    requires Inv(l) && Enabled(l, s)
    requires c in l && e in l[c].holders && c in Apply(l, s)
    ensures |Ahead(Apply(l, s)[c], e)| + (if s.c == c && s.ExitStep? && s.epoch < e then 1 else 0)
         == |Ahead(l[c], e)|
  {
    hide Consistent, RoomStep, Ahead;
    if s.c == c {
      RoomStepShortensTheLine(l[c], s, e);
    }
  }

  /**
   The line ahead of a waiting holder shrinks by exactly the exits below it, so it is served after
   exactly as many of them as were ahead: nothing stalls it, early leavers included.
   */
  lemma {:induction false} LineShrinksByExits(l: Ledger, steps: seq<Step>, c: ConversationId, e: Epoch)
    requires Inv(l) && Legal(l, steps) && StaysLive(l, steps, c, e)
    ensures c in Exec(l, steps) && e in Exec(l, steps)[c].holders
    ensures |Ahead(Exec(l, steps)[c], e)| + ExitsBelow(steps, c, e) == |Ahead(l[c], e)|
    ensures Exec(l, steps)[c].entry.serving == e <==> ExitsBelow(steps, c, e) == |Ahead(l[c], e)|
    decreases steps
  {
    if steps != [] {
      StepKeepsInvariant(l, steps[0]);
      StepShortensTheLine(l, steps[0], c, e);
      LineShrinksByExits(Apply(l, steps[0]), steps[1..], c, e);
    }
    EveryRunIsConsistent(l, steps);
    ServedWhenNobodyIsAhead(Exec(l, steps)[c], e);
  }

  /** While anybody holds the conversation, the served holder is live and has a step to take. */
  lemma ServedHolderCanMove(l: Ledger, c: ConversationId)
    requires Inv(l) && c in l
    ensures l[c].entry.serving in l[c].holders
    ensures Enabled(l, ExitStep(c, l[c].entry.serving, false))
    ensures l[c].holders[l[c].entry.serving].Waiting? ==> Enabled(l, ObserveStep(c, l[c].entry.serving))
    ensures l[c].holders[l[c].entry.serving].Called? ==> Enabled(l, CommitStep(c, l[c].entry.serving))
  {
    ServesALiveHolder(l[c]);
  }

  // ---------------------------------------------------------------------------------------------
  // The burst anchor
  // ---------------------------------------------------------------------------------------------

  /** The step is no exit of `c`, or one of an admission that ends superseded. */
  predicate PrunesNothing(l: Ledger, s: Step, c: ConversationId) {
    s.ExitStep? && s.c == c ==>
      s.superseded && c in l && s.epoch in l[c].holders && l[c].holders[s.epoch].Admitted?
  }

  /** No step of the run prunes an arrival of `c`: every exit of `c` is a superseded admission. */
  predicate OnlySupersededExits(l: Ledger, steps: seq<Step>, c: ConversationId)
    requires Legal(l, steps)
    decreases steps
  {
    steps == [] || (PrunesNothing(l, steps[0], c) && OnlySupersededExits(Apply(l, steps[0]), steps[1..], c))
  }

  lemma {:induction false} OnlySupersededExitsIff(l: Ledger, steps: seq<Step>, c: ConversationId)
    requires Legal(l, steps)
    ensures OnlySupersededExits(l, steps, c) <==>
            forall n :: 0 <= n < |steps| ==> PrunesNothing(At(l, steps, n), steps[n], c)
    decreases steps
  {
    AtStep(l, steps, 0);
    if steps != [] {
      var l', rest := Apply(l, steps[0]), steps[1..];
      OnlySupersededExitsIff(l', rest, c);
      hide At, Apply, Exec;
      forall n | 0 < n <= |steps| ensures At(l, steps, n) == At(l', rest, n - 1) {
        AtStep(l, steps, n);
      }
      assert forall n :: 0 <= n < |rest| ==> At(l', rest, n) == At(l, steps, n + 1) && rest[n] == steps[n + 1];
    }
  }

  lemma StepKeepsFloor(l: Ledger, s: Step, c: ConversationId)
    requires Enabled(l, s) && c in l && c in Apply(l, s)
    requires PrunesNothing(l, s, c)
    ensures Apply(l, s)[c].floor == l[c].floor && l[c].times <= Apply(l, s)[c].times
  {
  }

  lemma {:induction false} SupersededExitsKeepFloor(l: Ledger, steps: seq<Step>, c: ConversationId)
    requires Inv(l) && Legal(l, steps) && StaysOpen(l, steps, c) && OnlySupersededExits(l, steps, c)
    ensures c in Exec(l, steps)
    ensures Exec(l, steps)[c].floor == l[c].floor
    ensures l[c].times <= Exec(l, steps)[c].times
    decreases steps
  {
    if steps != [] {
      StepKeepsInvariant(l, steps[0]);
      StepKeepsFloor(l, steps[0], c);
      SupersededExitsKeepFloor(Apply(l, steps[0]), steps[1..], c);
    }
  }

  /** A chain of superseded turns leaves the anchor where it was: a later admission reads the same origin. */
  lemma AnchorSurvivesSupersededTurns(l: Ledger, steps: seq<Step>, l': Ledger, c: ConversationId, e: Epoch)
    requires Inv(l) && Legal(l, steps) && StaysOpen(l, steps, c) && OnlySupersededExits(l, steps, c)
    requires l[c].entry.arrivals != []
    requires l' == Exec(l, steps) && Enabled(l', CommitStep(c, e))
    ensures Commit(l'[c], e).holders[e].burstStartedAt == l[c].entry.arrivals[0].arrivedAt
  {
    hide Consistent, Legal, Exec, OnlySupersededExits;
    EveryRunIsConsistent(l, steps);
    SupersededExitsKeepFloor(l, steps, c);
    BurstOriginIs(l'[c], e);
    FirstUnansweredIs(l[c]);
    assert l'[c].times[l[c].floor + 1] == l[c].times[l[c].floor + 1];
  }

  // ---------------------------------------------------------------------------------------------
  // What the source's comments say and its code does not keep
  // ---------------------------------------------------------------------------------------------

  lemma TwoEarlyLeavers(r: Room)
    requires Consistent(r) && r.holders == map[0 := Waiting(0)] && r.entry.nextEpoch == 1 && r.entry.serving == 0
    requires r.entry.outstanding == 1
    ensures var r' := Exit(Exit(Arrive(Arrive(r, 1), 2), 1, false), 2, false);
            Consistent(r') && |r'.entry.finished| == 2 && r'.entry.outstanding == 1
  {
    hide Consistent, Skip, After;
    ArriveKeepsInvariant(r, 1);
    var b := Arrive(r, 1);
    ArriveKeepsInvariant(b, 2);
    var c := Arrive(b, 2);
    ExitKeepsInvariant(c, 1, false);
    var d := Exit(c, 1, false);
    ExitKeepsInvariant(d, 2, false);
    FinishedCount(Exit(d, 2, false));
  }

  /** Two early leavers behind one live turn: `finished` outgrows `outstanding`. */
  lemma FinishedOutgrowsOutstanding()
    ensures var r := Exit(Exit(Arrive(Arrive(Arrive(EMPTY_ROOM, 0), 1), 2), 1, false), 2, false);
            Consistent(r) && |r.entry.finished| > r.entry.outstanding
  {
    EmptyRoomIsConsistent();
    ArriveKeepsInvariant(EMPTY_ROOM, 0);
    TwoEarlyLeavers(Arrive(EMPTY_ROOM, 0));
  }

  /** Two arrivals, of which the later drops first. */
  function EarlyDrop(): Room {
    Exit(Arrive(Arrive(EMPTY_ROOM, 0), 1000), 1, false)
  }

  /** A later ticket that drops early prunes the arrival of the turn still waiting to be admitted. */
  lemma EarlyDropPrunesALiveArrival()
    ensures var r := EarlyDrop();
            Consistent(r) && 0 in r.holders && r.entry.serving == 0 && r.entry.arrivals == []
  {
    hide Consistent, Skip;
    EmptyRoomIsConsistent();
    ArriveKeepsInvariant(EMPTY_ROOM, 0);
    var a := Arrive(EMPTY_ROOM, 0);
    ArriveKeepsInvariant(a, 1000);
    var b := Arrive(a, 1000);
    ExitKeepsInvariant(b, 1, false);
    AfterIsTail(b.entry.arrivals, 1, 2);
  }

  /** A turn whose arrival was pruned is anchored at the next arrival, whenever that is. */
  lemma PrunedTurnTakesTheNextAnchor(r: Room, e: Epoch, now: Timestamp)
    requires Consistent(r) && e in r.holders && r.entry.arrivals == []
    ensures e in Arrive(r, now).holders && Commit(Arrive(r, now), e).holders[e].burstStartedAt == now
  {
    hide SlotLaw, BurstLaw;
  }

  /** One more arrival, and the waiting turn is anchored at a time after its own arrival. */
  lemma EarlyDropMovesTheAnchor()
    ensures var r := Arrive(EarlyDrop(), 2000);
            && Consistent(r) && 0 in r.holders && r.holders[0] == Waiting(0) && r.entry.serving == 0
            && Commit(r, 0).holders[0].burstStartedAt == 2000
  {
    hide EarlyDrop, Consistent, Commit;
    EarlyDropPrunesALiveArrival();
    EarlyDropIsNext();
    ArriveKeepsInvariant(EarlyDrop(), 2000);
    PrunedTurnTakesTheNextAnchor(EarlyDrop(), 0, 2000);
  }

  lemma EarlyDropIsNext()
    ensures EarlyDrop().entry.nextEpoch == 2 && 0 in EarlyDrop().holders && EarlyDrop().holders[0] == Waiting(0)
  {
  }
}
