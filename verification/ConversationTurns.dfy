/**
 One conversation's entry in the turn ledger: the deli counter that serves its turns in arrival
 order, the epochs that left early, and the arrivals no completed turn has answered yet.

 `Entry` is the record the ledger stores. `Room` pairs it with the history the ledger does not
 store (who holds an epoch, when each epoch arrived, which epochs left and how), so that the
 laws of the entry can be stated against what actually happened.
 */
module ConversationTurns {

  type Epoch = nat
  type Timestamp = int

  datatype Arrival = Arrival(epoch: Epoch, arrivedAt: Timestamp)

  datatype Entry = Entry(
    serving: Epoch,
    supersede: Epoch,
    nextEpoch: Epoch,
    outstanding: int,
    admitted: int,
    finished: set<Epoch>,
    arrivals: seq<Arrival>)

  /** A ticket that waits, a ticket that has seen the counter reach its epoch, or an admitted turn. */
  datatype Holder =
    | Waiting(arrivedAt: Timestamp)
    | Called(arrivedAt: Timestamp)
    | Admitted(arrivedAt: Timestamp, burstStartedAt: Timestamp)

  datatype Room = Room(
    entry: Entry,
    holders: map<Epoch, Holder>,
    times: seq<Timestamp>,
    exited: set<Epoch>,
    answered: set<Epoch>,
    floor: int)

  const FRESH_ENTRY := Entry(0, 0, 0, 0, 0, {}, [])
  const EMPTY_ROOM := Room(FRESH_ENTRY, map[], [], {}, {}, -1)

  // ---------------------------------------------------------------------------------------------
  // The entry's transitions
  // ---------------------------------------------------------------------------------------------

  function EntryArrive(e: Entry, now: Timestamp): Entry {
    e.(nextEpoch := e.nextEpoch + 1,
       outstanding := e.outstanding + 1,
       arrivals := e.arrivals + [Arrival(e.nextEpoch, now)],
       supersede := e.nextEpoch)
  }

  /** The counter after it steps to `next` and on over every epoch that already finished. */
  function Skip(next: Epoch, finished: set<Epoch>): (r: (Epoch, set<Epoch>))
    ensures next <= r.0
    ensures r.0 !in finished
    ensures forall x :: next <= x < r.0 ==> x in finished
    ensures forall x :: x in r.1 <==> x in finished && !(next <= x < r.0)
    decreases finished
  {
    if next in finished then Skip(next + 1, finished - {next}) else (next, finished)
  }

  /** The arrivals above `epoch`, in order. */
  function After(arrivals: seq<Arrival>, epoch: Epoch): seq<Arrival> {
    if arrivals == [] then []
    else if arrivals[0].epoch > epoch then [arrivals[0]] + After(arrivals[1..], epoch)
    else After(arrivals[1..], epoch)
  }

  function EntryExit(e: Entry, epoch: Epoch, admission: bool, superseded: bool): Entry {
    var advanced := Skip(epoch + 1, e.finished);
    e.(outstanding := e.outstanding - 1,
       admitted := if admission then e.admitted - 1 else e.admitted,
       serving := if e.serving == epoch then advanced.0 else e.serving,
       finished := if e.serving == epoch then advanced.1 else e.finished + {epoch},
       arrivals := if admission && superseded then e.arrivals else After(e.arrivals, epoch))
  }

  /** The anchor an admission reads: the oldest unanswered arrival, or the ticket's own. */
  function BurstOrigin(e: Entry, own: Timestamp): Timestamp {
    if e.arrivals == [] then own else e.arrivals[0].arrivedAt
  }

  // ---------------------------------------------------------------------------------------------
  // The same transitions with the history they leave behind
  // ---------------------------------------------------------------------------------------------

  function Arrive(r: Room, now: Timestamp): Room {
    r.(entry := EntryArrive(r.entry, now),
       holders := r.holders[r.entry.nextEpoch := Waiting(now)],
       times := r.times + [now])
  }

  /** A ticket reads the counter and finds its own epoch there. */
  function Observe(r: Room, epoch: Epoch): Room
    requires epoch in r.holders
  {
    r.(holders := r.holders[epoch := Called(r.holders[epoch].arrivedAt)])
  }

  /** A called ticket takes the lock, counts itself in flight and reads its anchor. */
  function Commit(r: Room, epoch: Epoch): Room
    requires epoch in r.holders
  {
    var own := r.holders[epoch].arrivedAt;
    r.(entry := r.entry.(admitted := r.entry.admitted + 1),
       holders := r.holders[epoch := Admitted(own, BurstOrigin(r.entry, own))])
  }

  /** A superseded admission leaves its arrival behind for the batch that overtook it. */
  function Exit(r: Room, epoch: Epoch, superseded: bool): Room
    requires epoch in r.holders
  {
    var kept := r.holders[epoch].Admitted? && superseded;
    r.(entry := EntryExit(r.entry, epoch, r.holders[epoch].Admitted?, superseded),
       holders := r.holders - {epoch},
       exited := r.exited + {epoch},
       answered := if kept then r.answered else r.answered + {epoch},
       floor := if kept || r.floor >= epoch then r.floor else epoch)
  }

  // ---------------------------------------------------------------------------------------------
  // The invariant
  // ---------------------------------------------------------------------------------------------

  /** The arrivals of every epoch above `floor`, in arrival order with their original times. */
  function Unanswered(times: seq<Timestamp>, floor: int): (s: seq<Arrival>)
    requires -1 <= floor < |times|
  {
    seq(|times| - floor - 1, i requires 0 <= i < |times| - floor - 1 =>
      Arrival(floor + 1 + i, times[floor + 1 + i]))
  }

  /** The counter, the epochs that left early and the live holders partition the epochs. */
  ghost predicate CounterLaw(r: Room) {
    && r.entry.serving <= r.entry.nextEpoch
    && (forall f :: f in r.entry.finished ==> r.entry.serving < f < r.entry.nextEpoch)
    && (forall x :: x in r.holders <==>
          r.entry.serving <= x < r.entry.nextEpoch && x !in r.entry.finished)
    && r.entry.outstanding == |r.holders|
    && (r.entry.nextEpoch > 0 ==> r.entry.supersede == r.entry.nextEpoch - 1)
    && (forall x :: x in r.exited <==> 0 <= x < r.entry.nextEpoch && x !in r.holders)
  }

  /** Only the served epoch is ever past waiting, and `admitted` counts it. */
  ghost predicate SlotLaw(r: Room) {
    && (forall x :: x in r.holders && !r.holders[x].Waiting? ==> x == r.entry.serving)
    && r.entry.admitted ==
       (if r.entry.serving in r.holders && r.holders[r.entry.serving].Admitted? then 1 else 0)
  }

  /** `floor` is the largest epoch that left answered, and `arrivals` is exactly what lies above it. */
  ghost predicate BurstLaw(r: Room) {
    && |r.times| == r.entry.nextEpoch
    && (forall x :: x in r.holders ==> 0 <= x < |r.times| && r.holders[x].arrivedAt == r.times[x])
    && -1 <= r.floor < r.entry.nextEpoch
    && (r.floor == -1 || r.floor in r.answered)
    && (forall a :: a in r.answered ==> a <= r.floor)
    && r.answered <= r.exited
    && r.entry.finished <= r.answered
    && r.entry.arrivals == Unanswered(r.times, r.floor)
  }

  ghost predicate Consistent(r: Room) {
    CounterLaw(r) && SlotLaw(r) && BurstLaw(r)
  }

  lemma EmptyRoomIsConsistent()
    ensures Consistent(EMPTY_ROOM)
  {
  }

  lemma {:induction false} AfterIsTail(arrivals: seq<Arrival>, epoch: Epoch, k: nat)
    requires k <= |arrivals|
    requires forall i :: 0 <= i < k ==> arrivals[i].epoch <= epoch
    requires forall i :: k <= i < |arrivals| ==> arrivals[i].epoch > epoch
    ensures After(arrivals, epoch) == arrivals[k..]
    decreases arrivals
  {
    if arrivals != [] {
      if k == 0 {
        AfterIsTail(arrivals[1..], epoch, 0);
        assert arrivals == [arrivals[0]] + arrivals[1..];
      } else {
        AfterIsTail(arrivals[1..], epoch, k - 1);
        assert arrivals[1..][k - 1..] == arrivals[k..];
      }
    }
  }

  /** Pruning at `epoch` moves the floor there unless it is higher already. */
  lemma PruneMovesFloor(times: seq<Timestamp>, floor: int, epoch: Epoch)
    requires -1 <= floor < |times| && epoch < |times|
    ensures After(Unanswered(times, floor), epoch)
         == Unanswered(times, if floor >= epoch then floor else epoch)
  {
    hide After;
    AfterIsTail(Unanswered(times, floor), epoch, if floor >= epoch then 0 else epoch - floor);
  }

  /** A rising list pruned at an epoch is its tail above that epoch. */
  lemma AfterKeepsTheTail(times: seq<Timestamp>, floor: int, epoch: Epoch)
    requires -1 <= floor < |times|
    ensures var was := Unanswered(times, floor);
            var kept := After(was, epoch);
            && |kept| <= |was| && kept == was[|was| - |kept|..]
            && forall i :: 0 <= i < |was| ==> (was[i].epoch > epoch <==> i >= |was| - |kept|)
  {
    var was := Unanswered(times, floor);
    AfterIsTail(was, epoch, if floor >= epoch then 0 else if epoch - floor < |was| then epoch - floor else |was|);
  }

  lemma ArriveKeepsCounter(r: Room, now: Timestamp)
    requires CounterLaw(r)
    ensures CounterLaw(Arrive(r, now))
  {
    var next := r.entry.nextEpoch;
    var r' := Arrive(r, now);
    assert r'.holders.Keys == r.holders.Keys + {next};
    assert forall x :: x in r'.holders <==> x in r.holders || x == next;
  }

  lemma ArriveKeepsBurst(r: Room, now: Timestamp)
    requires Consistent(r)
    ensures BurstLaw(Arrive(r, now))
  {
    assert Unanswered(r.times + [now], r.floor)
        == Unanswered(r.times, r.floor) + [Arrival(r.entry.nextEpoch, now)];
  }

  lemma ArriveKeepsInvariant(r: Room, now: Timestamp)
    requires Consistent(r)
    ensures Consistent(Arrive(r, now))
  {
    ArriveKeepsCounter(r, now);
    ArriveKeepsBurst(r, now);
  }

  lemma ObserveKeepsInvariant(r: Room, epoch: Epoch)
    requires Consistent(r)
    requires epoch in r.holders && r.holders[epoch].Waiting? && r.entry.serving == epoch
    ensures Consistent(Observe(r, epoch))
  {
    assert Observe(r, epoch).holders.Keys == r.holders.Keys;
  }

  lemma CommitKeepsInvariant(r: Room, epoch: Epoch)
    requires Consistent(r)
    requires epoch in r.holders && r.holders[epoch].Called?
    ensures Consistent(Commit(r, epoch))
  {
    assert Commit(r, epoch).holders.Keys == r.holders.Keys;
  }

  /** A live holder can always leave: neither count can underflow. */
  lemma CountsNeverUnderflow(r: Room, epoch: Epoch)
    requires Consistent(r) && epoch in r.holders
    ensures r.entry.outstanding > 0
    ensures r.holders[epoch].Admitted? ==> r.entry.admitted > 0
  {
    assert epoch in r.holders.Keys;
    assert |r.holders.Keys| > 0;
  }

  /** Stepping from `serving` to the first unfinished epoch re-partitions what is left. */
  lemma AdvancePartition(held: set<Epoch>, serving: Epoch, next: Epoch, finished: set<Epoch>,
                         landed: Epoch, rest: set<Epoch>)
    requires serving < next
    requires forall f :: f in finished ==> serving < f < next
    requires forall x :: x in held <==> serving <= x < next && x !in finished
    requires serving < landed && landed !in finished
    requires forall x :: serving < x < landed ==> x in finished
    requires forall x :: x in rest <==> x in finished && !(serving < x < landed)
    ensures landed <= next
    ensures forall f :: f in rest ==> landed < f < next
    ensures forall x :: x in held - {serving} <==> landed <= x < next && x !in rest
  {
    assert serving < next < landed ==> next in finished;
  }

  /** The served holder leaves: the counter lands on the lowest epoch still held, if any. */
  lemma ServedExitKeepsCounter(r: Room, epoch: Epoch, superseded: bool)
    requires Consistent(r) && epoch in r.holders && r.entry.serving == epoch
    ensures CounterLaw(Exit(r, epoch, superseded))
  {
    var e := r.entry;
    var r' := Exit(r, epoch, superseded);
    assert r'.holders.Keys == r.holders.Keys - {epoch};
    AdvancePartition(r.holders.Keys, e.serving, e.nextEpoch, e.finished, r'.entry.serving, r'.entry.finished);
  }

  /** A ticket leaves ahead of its turn: the counter stays, the epoch joins `finished`. */
  lemma EarlyExitKeepsCounter(r: Room, epoch: Epoch, superseded: bool)
    requires Consistent(r) && epoch in r.holders && r.entry.serving != epoch
    ensures CounterLaw(Exit(r, epoch, superseded))
  {
    var r' := Exit(r, epoch, superseded);
    assert r'.holders.Keys == r.holders.Keys - {epoch};
    forall x
      ensures x in r'.holders <==> x in r.holders && x != epoch
    {
    }
  }

  lemma ExitKeepsCounter(r: Room, epoch: Epoch, superseded: bool)
    requires Consistent(r) && epoch in r.holders
    ensures CounterLaw(Exit(r, epoch, superseded))
  {
    if r.entry.serving == epoch {
      ServedExitKeepsCounter(r, epoch, superseded);
    } else {
      EarlyExitKeepsCounter(r, epoch, superseded);
    }
  }

  lemma ExitKeepsSlot(r: Room, epoch: Epoch, superseded: bool)
    requires Consistent(r) && epoch in r.holders
    ensures SlotLaw(Exit(r, epoch, superseded))
  {
    ExitKeepsCounter(r, epoch, superseded);
  }

  lemma ExitKeepsBurst(r: Room, epoch: Epoch, superseded: bool)
    requires Consistent(r) && epoch in r.holders
    ensures BurstLaw(Exit(r, epoch, superseded))
  {
    hide After, Unanswered;
    PruneMovesFloor(r.times, r.floor, epoch);
  }

  lemma ExitKeepsInvariant(r: Room, epoch: Epoch, superseded: bool)
    requires Consistent(r) && epoch in r.holders
    ensures Consistent(Exit(r, epoch, superseded))
  {
    ExitKeepsCounter(r, epoch, superseded);
    ExitKeepsSlot(r, epoch, superseded);
    ExitKeepsBurst(r, epoch, superseded);
  }

  // ---------------------------------------------------------------------------------------------
  // What the invariant says of one conversation
  // ---------------------------------------------------------------------------------------------

  function Interval(lo: nat, hi: nat): (s: set<nat>)
    requires lo <= hi
    ensures forall x :: x in s <==> lo <= x < hi
    ensures |s| == hi - lo
    decreases hi - lo
  {
    if lo == hi then {} else Interval(lo, hi - 1) + {hi - 1}
  }

  lemma PartitionSize(held: set<Epoch>, finished: set<Epoch>, lo: Epoch, hi: Epoch)
    requires lo <= hi
    requires forall f :: f in finished ==> lo <= f < hi
    requires forall x :: x in held <==> lo <= x < hi && x !in finished
    ensures |held| + |finished| == hi - lo
  {
    assert Interval(lo, hi) == held + finished;
    assert held !! finished;
  }

  /** The exact size of the early-exit set: every handed-out epoch at or past the counter, less the live ones. */
  lemma FinishedCount(r: Room)
    requires Consistent(r)
    ensures |r.entry.finished| == r.entry.nextEpoch - r.entry.serving - r.entry.outstanding
    ensures |r.entry.finished| <= r.entry.outstanding
       <==> r.entry.nextEpoch - r.entry.serving <= 2 * r.entry.outstanding
  {
    hide SlotLaw, BurstLaw;
    PartitionSize(r.holders.Keys, r.entry.finished, r.entry.serving, r.entry.nextEpoch);
  }

  /** An entry with a holder serves a live one; an entry without holders has nothing left to serve. */
  lemma ServesALiveHolder(r: Room)
    requires Consistent(r)
    ensures r.holders != map[] <==> r.entry.serving in r.holders
    ensures r.holders != map[] <==> r.entry.outstanding > 0
    ensures r.entry.outstanding >= 0
    ensures r.holders != map[] <==> r.entry.serving < r.entry.nextEpoch
  {
    if r.holders != map[] {
      var x :| x in r.holders;
      assert r.entry.serving in r.holders;
      assert x in r.holders.Keys;
    } else {
      assert r.entry.serving !in r.holders;
    }
  }

  /** Mutual exclusion, and everything an admission knows about the epochs below it. */
  lemma AdmissionIsExclusive(r: Room, e: Epoch)
    requires Consistent(r) && e in r.holders && r.holders[e].Admitted?
    ensures e == r.entry.serving && r.entry.admitted == 1
    ensures forall x :: x in r.holders && x != e ==> r.holders[x].Waiting? && e < x
    ensures forall x :: 0 <= x < e ==> x in r.exited && x !in r.holders
  {
  }

  /** `has_admitted_turn` reads the count, and the count is the presence of an admission. */
  lemma AdmittedCountIsPresence(r: Room)
    requires Consistent(r)
    ensures r.entry.admitted > 0 <==> exists e :: e in r.holders && r.holders[e].Admitted?
  {
    if r.entry.admitted > 0 {
      assert r.entry.serving in r.holders && r.holders[r.entry.serving].Admitted?;
    }
  }

  /** The epochs that must leave before `e` is served. */
  function Ahead(r: Room, e: Epoch): set<Epoch> {
    set x | x in r.holders && x < e
  }

  lemma ServedWhenNobodyIsAhead(r: Room, e: Epoch)
    requires Consistent(r) && e in r.holders
    ensures r.entry.serving == e <==> |Ahead(r, e)| == 0
    ensures r.entry.serving != e ==> r.entry.serving in Ahead(r, e)
  {
    if r.entry.serving != e {
      assert r.entry.serving in r.holders;
      assert r.entry.serving in Ahead(r, e);
    } else {
      assert Ahead(r, e) == {};
    }
  }

  /** An exit takes exactly itself out of the line ahead of a waiter. */
  lemma ExitShortensTheLine(r: Room, gone: Epoch, superseded: bool, e: Epoch)
    requires Consistent(r) && gone in r.holders
    ensures |Ahead(Exit(r, gone, superseded), e)| == |Ahead(r, e)| - (if gone < e then 1 else 0)
  {
    var r' := Exit(r, gone, superseded);
    if gone < e {
      assert Ahead(r, e) == Ahead(r', e) + {gone};
      assert gone !in Ahead(r', e);
    } else {
      assert Ahead(r, e) == Ahead(r', e);
    }
  }

  /** The level an admitted turn watches: higher than its epoch exactly when a newer batch arrived. */
  lemma SupersededIffNewerArrival(r: Room, e: Epoch)
    requires Consistent(r) && e in r.holders
    ensures r.entry.supersede > e <==> e + 1 < r.entry.nextEpoch
    ensures r.entry.supersede >= e
    ensures forall x :: x in r.holders && x != e ==> r.entry.supersede > e || r.entry.supersede > x
  {
  }

  /** A live ticket's own arrival is outstanding exactly when no later ticket has left early. */
  lemma OwnArrivalOutstandingIff(r: Room, e: Epoch)
    requires Consistent(r) && e in r.holders
    ensures Arrival(e, r.times[e]) in r.entry.arrivals <==> forall f :: f in r.entry.finished ==> f < e
    ensures r.floor < e <==> forall f :: f in r.entry.finished ==> f < e
  {
    hide SlotLaw;
    if r.floor < e {
      assert r.entry.arrivals[e - r.floor - 1] == Arrival(e, r.times[e]);
      assert forall f :: f in r.entry.finished ==> f in r.answered;
    } else {
      assert r.floor in r.exited;
      assert r.floor in r.entry.finished;
      assert forall i :: 0 <= i < |r.entry.arrivals| ==> r.entry.arrivals[i].epoch > e;
    }
  }

  /**
   The source says a ticket's own arrival is outstanding until it exits. At admission that holds
   exactly when nobody has left early.
   */
  lemma OwnArrivalOutstandingIffNoneFinishedEarly(r: Room, e: Epoch)
    requires Consistent(r) && e in r.holders && e == r.entry.serving
    ensures r.entry.finished == {} <==> Arrival(e, r.times[e]) in r.entry.arrivals
    ensures r.entry.finished == {} <==> r.floor < e
  {
    OwnArrivalOutstandingIff(r, e);
    if r.entry.finished != {} {
      var f :| f in r.entry.finished;
      assert e < f;
    }
  }

  lemma FirstUnansweredIs(r: Room)
    requires Consistent(r) && r.entry.arrivals != []
    ensures 0 <= r.floor + 1 < |r.times| && r.entry.arrivals[0] == Arrival(r.floor + 1, r.times[r.floor + 1])
  {
    hide CounterLaw, SlotLaw;
  }

  ghost predicate Monotone(times: seq<Timestamp>) {
    forall i, j :: 0 <= i <= j < |times| ==> times[i] <= times[j]
  }

  /** What the anchor of an admission is, in terms of what happened. */
  lemma BurstOriginIs(r: Room, e: Epoch)
    requires Consistent(r) && e in r.holders
    ensures e < |r.times| == r.entry.nextEpoch && r.holders[e].arrivedAt == r.times[e]
    ensures BurstOrigin(r.entry, r.times[e]) ==
            if r.floor + 1 < r.entry.nextEpoch then r.times[r.floor + 1] else r.times[e]
  {
  }

  /** While nobody left early, monotone stamps keep the anchor at or before the turn's own arrival. */
  lemma AnchorNotAfterOwnArrival(r: Room, e: Epoch)
    requires Consistent(r) && e in r.holders && e == r.entry.serving
    requires Monotone(r.times) && r.entry.finished == {}
    ensures BurstOrigin(r.entry, r.times[e]) <= r.times[e]
  {
    OwnArrivalOutstandingIffNoneFinishedEarly(r, e);
    BurstOriginIs(r, e);
    hide Consistent, BurstOrigin;
  }

  ghost predicate Increasing(times: seq<Timestamp>) {
    forall i, j :: 0 <= i < j < |times| ==> times[i] < times[j]
  }

  /**
   With increasing stamps the anchor is after the turn's own arrival exactly when somebody left
   early and some arrival is still unanswered: two fields of the entry, read before the admission.
   */
  lemma AnchorAfterOwnArrivalIff(r: Room, e: Epoch)
    requires Consistent(r) && e in r.holders && e == r.entry.serving
    requires Increasing(r.times)
    ensures BurstOrigin(r.entry, r.times[e]) > r.times[e] <==> r.entry.finished != {} && r.entry.arrivals != []
  {
    OwnArrivalOutstandingIffNoneFinishedEarly(r, e);
    BurstOriginIs(r, e);
    if r.entry.arrivals != [] {
      FirstUnansweredIs(r);
    }
    hide Consistent;
  }

  // ---------------------------------------------------------------------------------------------
  // How a conversation evolves while it stays open
  // ---------------------------------------------------------------------------------------------

  ghost predicate Evolves(r: Room, r': Room) {
    && r.entry.serving <= r'.entry.serving
    && r.entry.nextEpoch <= r'.entry.nextEpoch
    && r.exited <= r'.exited
    && r.answered <= r'.answered
    && r.times <= r'.times
    && r.floor <= r'.floor
    && (forall x :: x in r'.holders ==> x in r.holders || x >= r.entry.nextEpoch)
    && (forall x :: x in r.holders && r.holders[x].Admitted? && x in r'.holders ==>
          r'.holders[x] == r.holders[x])
  }

  lemma EvolvesTransitive(a: Room, b: Room, c: Room)
    requires Evolves(a, b) && Evolves(b, c) && a.entry.nextEpoch <= b.entry.nextEpoch
    requires Consistent(a)
    ensures Evolves(a, c)
  {
    forall x | x in a.holders && a.holders[x].Admitted? && x in c.holders
      ensures c.holders[x] == a.holders[x]
    {
      assert x in b.holders || x >= b.entry.nextEpoch;
      assert x < a.entry.nextEpoch;
    }
  }
}
