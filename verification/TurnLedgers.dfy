/**
 The turn ledger as the program holds it: one locked map of entries, changed in place. Each method
 is one critical section. The ghost map `rooms` carries the history of every conversation, and each
 method is proved to be the corresponding transition of that history.
 */
module TurnLedgers {
  import opened ConversationTurns
  import opened TurnRuns

  /** `conversations` holds exactly the entries of `rooms`. */
  ghost predicate Stores(conversations: map<ConversationId, Entry>, rooms: Ledger) {
    && conversations.Keys == rooms.Keys
    && (forall c :: c in conversations ==> conversations[c] == rooms[c].entry)
  }

  lemma StepStored(conversations: map<ConversationId, Entry>, rooms: Ledger, s: Step, entry: Entry)
    requires Stores(conversations, rooms) && Enabled(rooms, s)
    requires entry == RoomStep(RoomOf(rooms, s.c), s).entry
    ensures Stores(if entry.outstanding == 0 then conversations - {s.c} else conversations[s.c := entry],
                   Apply(rooms, s))
  {
  }

  lemma ArrivalIsHeld(rooms: Ledger, c: ConversationId, now: Timestamp)
    requires Inv(rooms)
    ensures var rooms' := Apply(rooms, ArriveStep(c, now));
            var epoch := RoomOf(rooms, c).entry.nextEpoch;
            && RoomStep(RoomOf(rooms, c), ArriveStep(c, now)).entry.outstanding > 0
            && c in rooms' && epoch in rooms'[c].holders && rooms'[c].holders[epoch] == Waiting(now)
            && (c in rooms ==> epoch !in rooms[c].holders)
  {
    EmptyRoomIsConsistent();
    ServesALiveHolder(RoomOf(rooms, c));
  }

  lemma ObserveStored(conversations: map<ConversationId, Entry>, rooms: Ledger, c: ConversationId, e: Epoch)
    requires Inv(rooms) && Stores(conversations, rooms) && Enabled(rooms, ObserveStep(c, e))
    ensures Inv(Apply(rooms, ObserveStep(c, e)))
    ensures Stores(conversations, Apply(rooms, ObserveStep(c, e)))
  {
    hide Consistent;
    StepKeepsInvariant(rooms, ObserveStep(c, e));
    ServesALiveHolder(rooms[c]);
    StepStored(conversations, rooms, ObserveStep(c, e), conversations[c]);
    assert conversations[c := conversations[c]] == conversations;
  }

  lemma CommitStored(conversations: map<ConversationId, Entry>, rooms: Ledger, c: ConversationId, e: Epoch)
    requires Inv(rooms) && Stores(conversations, rooms) && Enabled(rooms, CommitStep(c, e))
    ensures var rooms' := Apply(rooms, CommitStep(c, e));
            && Inv(rooms')
            && Stores(conversations[c := conversations[c].(admitted := conversations[c].admitted + 1)], rooms')
            && c in rooms' && e in rooms'[c].holders
            && rooms'[c].holders[e] == Admitted(
                 rooms[c].holders[e].arrivedAt,
                 BurstOrigin(conversations[c], rooms[c].holders[e].arrivedAt))
  {
    hide Consistent;
    StepKeepsInvariant(rooms, CommitStep(c, e));
    ServesALiveHolder(rooms[c]);
    StepStored(conversations, rooms, CommitStep(c, e), conversations[c].(admitted := conversations[c].admitted + 1));
  }

  lemma ExitStored(conversations: map<ConversationId, Entry>, rooms: Ledger,
                   c: ConversationId, e: Epoch, superseded: bool)
    requires Inv(rooms) && Stores(conversations, rooms) && Enabled(rooms, ExitStep(c, e, superseded))
    ensures conversations[c].outstanding > 0
    ensures rooms[c].holders[e].Admitted? ==> conversations[c].admitted > 0
    ensures var entry := EntryExit(conversations[c], e, rooms[c].holders[e].Admitted?, superseded);
            Stores(if entry.outstanding == 0 then conversations - {c} else conversations[c := entry],
                   Apply(rooms, ExitStep(c, e, superseded)))
    ensures Inv(Apply(rooms, ExitStep(c, e, superseded)))
  {
    StepKeepsInvariant(rooms, ExitStep(c, e, superseded));
    CountsNeverUnderflow(rooms[c], e);
    StepStored(conversations, rooms, ExitStep(c, e, superseded),
               EntryExit(conversations[c], e, rooms[c].holders[e].Admitted?, superseded));
  }

  /**
   `now` is the entry `was` after one holder left. The counts go down by what it held. The counter stays
   unless it served that epoch, and then lands on the first epoch above it that did not leave early.
   A superseded admission keeps every arrival; any other exit keeps exactly those above its epoch.
   */
  ghost predicate Left(was: Entry, epoch: Epoch, admission: bool, superseded: bool, now: Entry) {
    && now.outstanding == was.outstanding - 1
    && now.admitted == was.admitted - (if admission then 1 else 0)
    && now.supersede == was.supersede && now.nextEpoch == was.nextEpoch
    && (was.serving != epoch ==> now.serving == was.serving && now.finished == was.finished + {epoch})
    && (was.serving == epoch ==>
          && now.serving > epoch && now.serving !in was.finished
          && (forall x :: epoch < x < now.serving ==> x in was.finished)
          && (forall x :: x in now.finished <==> x in was.finished && !(epoch < x < now.serving)))
    && (admission && superseded ==> now.arrivals == was.arrivals)
    && (!(admission && superseded) ==>
          && |now.arrivals| <= |was.arrivals|
          && now.arrivals == was.arrivals[|was.arrivals| - |now.arrivals|..]
          && forall i :: 0 <= i < |was.arrivals| ==>
               (was.arrivals[i].epoch > epoch <==> i >= |was.arrivals| - |now.arrivals|))
  }

  lemma ExitLeaves(e: Entry, times: seq<Timestamp>, floor: int, epoch: Epoch, admission: bool, superseded: bool)
    requires -1 <= floor < |times| && e.arrivals == Unanswered(times, floor)
    ensures Left(e, epoch, admission, superseded, EntryExit(e, epoch, admission, superseded))
  {
    hide After, Unanswered, Skip;
    AfterKeepsTheTail(times, floor, epoch);
  }

  lemma StoredArrivals(conversations: map<ConversationId, Entry>, rooms: Ledger, c: ConversationId)
    requires Inv(rooms) && Stores(conversations, rooms) && c in conversations
    ensures -1 <= rooms[c].floor < |rooms[c].times|
    ensures conversations[c].arrivals == Unanswered(rooms[c].times, rooms[c].floor)
  {
  }

  class TurnLedger {
    var conversations: map<ConversationId, Entry>
    ghost var rooms: Ledger

    ghost predicate Valid()
      reads this
    {
      Inv(rooms) && Stores(conversations, rooms)
    }

    constructor ()
      ensures Valid() && rooms == map[] && conversations == map[]
    {
      conversations := map[];
      rooms := map[];
    }

    /** Register a batch: the next epoch, recorded, counted and announced before returning. */
    method Arrive(c: ConversationId, now: Timestamp) returns (epoch: Epoch)
      requires Valid()
      modifies this
      ensures Valid()
      ensures rooms == Apply(old(rooms), ArriveStep(c, now))
      ensures c in rooms && epoch in rooms[c].holders && rooms[c].holders[epoch] == Waiting(now)
      ensures c in old(rooms) ==> epoch !in old(rooms[c].holders)
      ensures var was := if c in old(conversations) then old(conversations)[c] else Entry(0, 0, 0, 0, 0, {}, []);
              && epoch == was.nextEpoch
              && conversations == old(conversations)[c := was.(
                   nextEpoch := epoch + 1, outstanding := was.outstanding + 1, supersede := epoch,
                   arrivals := was.arrivals + [Arrival(epoch, now)])]
    {
      hide Inv;
      StepKeepsInvariant(rooms, ArriveStep(c, now));
      var entry := if c in conversations then conversations[c] else FRESH_ENTRY;
      epoch := entry.nextEpoch;
      entry := entry.(nextEpoch := entry.nextEpoch + 1);
      entry := entry.(outstanding := entry.outstanding + 1);
      entry := entry.(arrivals := entry.arrivals + [Arrival(epoch, now)]);
      entry := entry.(supersede := epoch);
      ArrivalIsHeld(rooms, c, now);
      StepStored(conversations, rooms, ArriveStep(c, now), entry);
      conversations := conversations[c := entry];
      rooms := Apply(rooms, ArriveStep(c, now));
    }

    method HasAdmittedTurn(c: ConversationId) returns (b: bool)
      requires Valid()
      ensures b <==> c in rooms && exists e :: e in rooms[c].holders && rooms[c].holders[e].Admitted?
    {
      b := c in conversations && conversations[c].admitted > 0;
      if c in rooms {
        AdmittedCountIsPresence(rooms[c]);
      }
    }

    /** A waiting ticket reads the counter once; it may go on only when its epoch is served. */
    method Observe(c: ConversationId, epoch: Epoch) returns (served: bool)
      requires Valid() && c in rooms && epoch in rooms[c].holders && rooms[c].holders[epoch].Waiting?
      modifies this`rooms
      ensures Valid()
      ensures served <==> old(rooms[c].entry.serving) == epoch
      ensures rooms == if served then Apply(old(rooms), ObserveStep(c, epoch)) else old(rooms)
      ensures served <==> c in conversations && conversations[c].serving == epoch
      ensures served ==> c in rooms && epoch in rooms[c].holders
                         && rooms[c].holders[epoch] == Called(old(rooms)[c].holders[epoch].arrivedAt)
    {
      hide Inv;
      var entry := conversations[c];
      served := entry.serving == epoch;
      if served {
        ObserveStored(conversations, rooms, c, epoch);
        rooms := Apply(rooms, ObserveStep(c, epoch));
      }
    }

    /** The called ticket takes the slot and reads the anchor its window is measured from. */
    method Commit(c: ConversationId, epoch: Epoch, arrivedAt: Timestamp) returns (burstStartedAt: Timestamp)
      requires Valid() && c in rooms && epoch in rooms[c].holders
      requires rooms[c].holders[epoch] == Called(arrivedAt)
      modifies this
      ensures Valid()
      ensures rooms == Apply(old(rooms), CommitStep(c, epoch))
      ensures c in rooms && epoch in rooms[c].holders
           && rooms[c].holders[epoch] == Admitted(arrivedAt, burstStartedAt)
      ensures c in old(conversations)
           && var was := old(conversations)[c];
              && conversations == old(conversations)[c := was.(admitted := was.admitted + 1)]
              && burstStartedAt == if was.arrivals == [] then arrivedAt else was.arrivals[0].arrivedAt
    {
      hide Inv;
      CommitStored(conversations, rooms, c, epoch);
      var entry := conversations[c];
      entry := entry.(admitted := entry.admitted + 1);
      burstStartedAt := if |entry.arrivals| > 0 then entry.arrivals[0].arrivedAt else arrivedAt;
      conversations := conversations[c := entry];
      rooms := Apply(rooms, CommitStep(c, epoch));
    }

    /** Step the counter past `epoch`, draining the consecutive run of epochs that finished early. */
    static method Advance(epoch: Epoch, finished: set<Epoch>) returns (next: Epoch, rest: set<Epoch>)
      ensures (next, rest) == Skip(epoch + 1, finished)
    {
      next, rest := epoch + 1, finished;
      while next in rest
        invariant Skip(next, rest) == Skip(epoch + 1, finished)
        decreases rest
      {
        rest := rest - {next};
        next := next + 1;
      }
    }

    /** Keep the arrivals above `epoch`. */
    static method Retain(arrivals: seq<Arrival>, epoch: Epoch) returns (kept: seq<Arrival>)
      ensures kept == After(arrivals, epoch)
    {
      kept := [];
      var i := |arrivals|;
      while i > 0
        invariant 0 <= i <= |arrivals|
        invariant kept == After(arrivals[i..], epoch)
      {
        i := i - 1;
        assert arrivals[i..][1..] == arrivals[i + 1..];
        if arrivals[i].epoch > epoch {
          kept := [arrivals[i]] + kept;
        }
      }
    }

    /** What an exit does to its entry. */
    static method ExitEntry(e: Entry, epoch: Epoch, admission: bool, superseded: bool) returns (entry: Entry)
      requires e.outstanding > 0 && (admission ==> e.admitted > 0)
      ensures entry == EntryExit(e, epoch, admission, superseded)
      ensures entry.outstanding >= 0 && (e.admitted >= 0 ==> entry.admitted >= 0)
    {
      entry := e.(outstanding := e.outstanding - 1);
      if admission {
        entry := entry.(admitted := entry.admitted - 1);
      }
      if entry.serving == epoch {
        var next, rest := Advance(epoch, entry.finished);
        entry := entry.(serving := next, finished := rest);
      } else {
        entry := entry.(finished := entry.finished + {epoch});
      }
      if !(admission && superseded) {
        var kept := Retain(entry.arrivals, epoch);
        entry := entry.(arrivals := kept);
      }
    }

    /** The exit every holder shares: a dropped ticket, or an admitted turn that completed or was superseded. */
    method Exit(c: ConversationId, epoch: Epoch, admission: bool, superseded: bool)
      requires Valid()
      requires c in rooms ==> epoch in rooms[c].holders && rooms[c].holders[epoch].Admitted? == admission
      modifies this
      ensures Valid()
      ensures rooms == if c in old(rooms) then Apply(old(rooms), ExitStep(c, epoch, superseded)) else old(rooms)
      ensures forall d :: d != c ==>
                && (d in conversations <==> d in old(conversations))
                && (d in conversations ==> conversations[d] == old(conversations)[d])
      ensures c in conversations <==> c in old(conversations) && old(conversations)[c].outstanding > 1
      ensures c in conversations ==> Left(old(conversations)[c], epoch, admission, superseded, conversations[c])
    {
      hide Inv, EntryExit, RoomStep;
      if c !in conversations {
        return;
      }
      ExitStored(conversations, rooms, c, epoch, superseded);
      StoredArrivals(conversations, rooms, c);
      ExitLeaves(conversations[c], rooms[c].times, rooms[c].floor, epoch, admission, superseded);
      var entry := ExitEntry(conversations[c], epoch, admission, superseded);
      conversations := if entry.outstanding == 0 then conversations - {c} else conversations[c := entry];
      rooms := Apply(rooms, ExitStep(c, epoch, superseded));
    }
  }
}
