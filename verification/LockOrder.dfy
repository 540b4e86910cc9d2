/**
 The engine's mutexes: any number of threads, each taking and dropping locks one at a time. The one
 rule is rank order: graph first, then the store or the vector index, blobs last.
 */
module LockOrder {
  datatype Lock = GraphLock | StoreLock | VectorsLock | BlobsLock

  datatype Op = Acquire(lock: Lock) | Release(lock: Lock)

  function Rank(lock: Lock): nat {
    match lock
    case GraphLock => 0
    case StoreLock => 1
    case VectorsLock => 1
    case BlobsLock => 2
  }

  /** The operations that hold the engine's locks. */
  datatype Call =
    | MaterializeFrom
    | FireDue(fired: bool)
    | Search
    | IndexCatchUp
    | ReembedIfChanged(changed: bool)
    | WriteSnapshot
    | BlobRead

  function One(lock: Lock): seq<Op> {
    [Acquire(lock), Release(lock)]
  }

  function Pair(first: Lock, second: Lock): seq<Op> {
    [Acquire(first), Acquire(second), Release(second), Release(first)]
  }

  function CatchUpProgram(): seq<Op> {
    One(VectorsLock) + One(StoreLock) + One(GraphLock) + One(VectorsLock)
  }

  function ReembedProgram(): seq<Op> {
    One(VectorsLock) + One(StoreLock) + Pair(GraphLock, StoreLock) + One(VectorsLock) + CatchUpProgram()
  }

  function Program(call: Call): seq<Op> {
    match call
    case MaterializeFrom => Pair(GraphLock, StoreLock)
    case FireDue(fired) => Pair(GraphLock, StoreLock) + (if fired then Pair(GraphLock, StoreLock) else [])
    case Search => One(StoreLock) + Pair(GraphLock, VectorsLock)
    case IndexCatchUp => CatchUpProgram()
    case ReembedIfChanged(changed) => if changed then ReembedProgram() else One(VectorsLock)
    case WriteSnapshot => One(GraphLock)
    case BlobRead => One(BlobsLock)
  }

  /** The locks a program takes, in order, each with the locks in hand when it does. */
  function Takes(prog: seq<Op>, held: set<Lock>): seq<(set<Lock>, Lock)> {
    if prog == [] then []
    else match prog[0]
      case Acquire(l) => [(held, l)] + Takes(prog[1..], held + {l})
      case Release(l) => Takes(prog[1..], held - {l})
  }

  lemma {:induction false} TakesThen(prog: seq<Op>, held: set<Lock>, next: seq<Op>)
    requires Disciplined(prog, held)
    ensures Takes(prog + next, held) == Takes(prog, held) + Takes(next, {})
    decreases prog
  {
    if prog == [] {
      assert prog + next == next;
    } else {
      assert (prog + next)[1..] == prog[1..] + next;
      match prog[0]
      case Acquire(l) => TakesThen(prog[1..], held + {l}, next);
      case Release(l) => TakesThen(prog[1..], held - {l}, next);
    }
  }

  lemma OneTakes(l: Lock, next: seq<Op>)
    ensures Takes(One(l) + next, {}) == [({}, l)] + Takes(next, {})
  {
    OneIsDisciplined(l);
    TakesThen(One(l), {}, next);
    assert One(l)[1..] == [Release(l)] && [Release(l)][1..] == [];
  }

  lemma PairTakes(first: Lock, second: Lock, next: seq<Op>)
    requires Rank(first) < Rank(second)
    ensures Takes(Pair(first, second) + next, {}) == [({}, first), ({first}, second)] + Takes(next, {})
  {
    PairIsDisciplinedIff(first, second);
    TakesThen(Pair(first, second), {}, next);
    var prog := Pair(first, second);
    assert prog[1..][0] == Acquire(second) && {} + {first} == {first};
    assert prog[1..][1..] == [Release(second), Release(first)];
    assert [Release(second), Release(first)][1..] == [Release(first)] && [Release(first)][1..] == [];
    assert Takes([Release(first)], {first}) == [] && {first} + {second} - {second} == {first};
    assert Takes(prog[1..], {first}) == [({first}, second)];
  }

  /** The graph goes before every other lock and the blobs after every other; the two between are never nested. */
  lemma RankIsTheRule(a: Lock, b: Lock)
    ensures Rank(a) < Rank(b) <==> (a == GraphLock && b != GraphLock) || (b == BlobsLock && a != BlobsLock)
  {
  }

  /**
   Which locks each operation takes, and which it nests: the graph over the store or over the vectors,
   and nothing else. An index catch-up and a blob read nest nothing.
   */
  lemma CallTakes(call: Call)
    ensures Takes(Program(call), {}) ==
            match call
            case MaterializeFrom => [({}, GraphLock), ({GraphLock}, StoreLock)]
            case FireDue(fired) =>
              [({}, GraphLock), ({GraphLock}, StoreLock)]
              + (if fired then [({}, GraphLock), ({GraphLock}, StoreLock)] else [])
            case Search => [({}, StoreLock), ({}, GraphLock), ({GraphLock}, VectorsLock)]
            case IndexCatchUp => [({}, VectorsLock), ({}, StoreLock), ({}, GraphLock), ({}, VectorsLock)]
            case ReembedIfChanged(changed) =>
              [({}, VectorsLock)]
              + (if changed then
                   [({}, StoreLock), ({}, GraphLock), ({GraphLock}, StoreLock), ({}, VectorsLock),
                    ({}, VectorsLock), ({}, StoreLock), ({}, GraphLock), ({}, VectorsLock)]
                 else [])
            case WriteSnapshot => [({}, GraphLock)]
            case BlobRead => [({}, BlobsLock)]
  {
    hide Takes, Disciplined;
    NothingTaken();
    match call
    case MaterializeFrom => PairAlone(GraphLock, StoreLock);
    case FireDue(fired) =>
      PairAlone(GraphLock, StoreLock);
      PairTakes(GraphLock, StoreLock, if fired then Pair(GraphLock, StoreLock) else []);
    case Search =>
      OneTakes(StoreLock, Pair(GraphLock, VectorsLock));
      PairAlone(GraphLock, VectorsLock);
    case IndexCatchUp => CatchUpTakes();
    case ReembedIfChanged(changed) =>
      OneAlone(VectorsLock);
      if changed { ReembedTakes(); }
    case WriteSnapshot => OneAlone(GraphLock);
    case BlobRead => OneAlone(BlobsLock);
  }

  lemma NothingTaken()
    ensures Takes([], {}) == []
  {
  }

  lemma OneAlone(l: Lock)
    ensures Takes(One(l), {}) == [({}, l)]
  {
    hide Takes;
    NothingTaken();
    OneTakes(l, []);
    assert One(l) + [] == One(l);
  }

  lemma PairAlone(first: Lock, second: Lock)
    requires Rank(first) < Rank(second)
    ensures Takes(Pair(first, second), {}) == [({}, first), ({first}, second)]
  {
    hide Takes;
    NothingTaken();
    PairTakes(first, second, []);
    assert Pair(first, second) + [] == Pair(first, second);
  }

  lemma CatchUpTakes()
    ensures Takes(CatchUpProgram(), {}) ==
            [({}, VectorsLock), ({}, StoreLock), ({}, GraphLock), ({}, VectorsLock)]
  {
    hide Takes, One;
    var tail := One(GraphLock) + One(VectorsLock);
    assert CatchUpProgram() == One(VectorsLock) + (One(StoreLock) + tail);
    OneTakes(VectorsLock, One(StoreLock) + tail);
    OneTakes(StoreLock, tail);
    OneTakes(GraphLock, One(VectorsLock));
    OneAlone(VectorsLock);
  }

  lemma ReembedTakes()
    ensures Takes(ReembedProgram(), {}) ==
            [({}, VectorsLock), ({}, StoreLock), ({}, GraphLock), ({GraphLock}, StoreLock), ({}, VectorsLock),
             ({}, VectorsLock), ({}, StoreLock), ({}, GraphLock), ({}, VectorsLock)]
  {
    hide Takes, One, Pair, CatchUpProgram;
    var tail := One(VectorsLock) + CatchUpProgram();
    assert ReembedProgram() == One(VectorsLock) + (One(StoreLock) + (Pair(GraphLock, StoreLock) + tail));
    OneTakes(VectorsLock, One(StoreLock) + (Pair(GraphLock, StoreLock) + tail));
    OneTakes(StoreLock, Pair(GraphLock, StoreLock) + tail);
    PairTakes(GraphLock, StoreLock, tail);
    OneTakes(VectorsLock, CatchUpProgram());
    CatchUpTakes();
  }

  /** What a thread runs over its life: calls, one after another. */
  function Script(calls: seq<Call>): seq<Op> {
    if calls == [] then [] else Program(calls[0]) + Script(calls[1..])
  }

  /** `prog`, started with `held` in hand, only climbs in rank, drops only what it has and ends empty-handed. */
  predicate Disciplined(prog: seq<Op>, held: set<Lock>) {
    if prog == [] then held == {}
    else match prog[0]
      case Acquire(l) => (forall h <- held :: Rank(h) < Rank(l)) && Disciplined(prog[1..], held + {l})
      case Release(l) => l in held && Disciplined(prog[1..], held - {l})
  }

  lemma {:induction false} DisciplinedThen(prog: seq<Op>, held: set<Lock>, next: seq<Op>)
    requires Disciplined(prog, held) && Disciplined(next, {})
    ensures Disciplined(prog + next, held)
    decreases prog
  {
    if prog == [] {
      assert prog + next == next;
    } else {
      assert (prog + next)[1..] == prog[1..] + next;
      match prog[0]
      case Acquire(l) => DisciplinedThen(prog[1..], held + {l}, next);
      case Release(l) => DisciplinedThen(prog[1..], held - {l}, next);
    }
  }

  lemma OneIsDisciplined(lock: Lock)
    ensures Disciplined(One(lock), {})
  {
    assert One(lock)[1..] == [Release(lock)];
    assert Disciplined([Release(lock)], {lock}) by {
      assert {lock} - {lock} == {};
    }
  }

  /** Nesting two locks is disciplined exactly when the inner one ranks higher. */
  lemma PairIsDisciplinedIff(first: Lock, second: Lock)
    ensures Disciplined(Pair(first, second), {}) <==> Rank(first) < Rank(second)
  {
    var prog := Pair(first, second);
    assert prog[1..][0] == Acquire(second) && {} + {first} == {first};
    assert prog[1..][1..] == [Release(second), Release(first)];
    if Rank(first) < Rank(second) {
      assert [Release(second), Release(first)][1..] == [Release(first)];
      assert {first} + {second} - {second} == {first} && {first} - {first} == {};
      assert Disciplined([Release(first)], {first});
    }
  }

  lemma ProgramIsDisciplined(call: Call)
    ensures Disciplined(Program(call), {})
  {
    hide Disciplined;
    OneIsDisciplined(GraphLock);
    OneIsDisciplined(StoreLock);
    OneIsDisciplined(VectorsLock);
    OneIsDisciplined(BlobsLock);
    PairIsDisciplinedIff(GraphLock, StoreLock);
    PairIsDisciplinedIff(GraphLock, VectorsLock);
    match call
    case Search => DisciplinedThen(One(StoreLock), {}, Pair(GraphLock, VectorsLock));
    case FireDue(fired) =>
      assert Pair(GraphLock, StoreLock) + [] == Pair(GraphLock, StoreLock);
      DisciplinedThen(Pair(GraphLock, StoreLock), {}, Pair(GraphLock, StoreLock));
    case IndexCatchUp => CatchUpIsDisciplined();
    case ReembedIfChanged(changed) => ReembedIsDisciplined();
    case _ =>
  }

  lemma ReembedIsDisciplined()
    ensures Disciplined(ReembedProgram(), {})
  {
    hide Disciplined, CatchUpProgram;
    OneIsDisciplined(StoreLock);
    OneIsDisciplined(VectorsLock);
    PairIsDisciplinedIff(GraphLock, StoreLock);
    CatchUpIsDisciplined();
    DisciplinedThen(One(VectorsLock), {}, One(StoreLock));
    DisciplinedThen(One(VectorsLock) + One(StoreLock), {}, Pair(GraphLock, StoreLock));
    DisciplinedThen(One(VectorsLock) + One(StoreLock) + Pair(GraphLock, StoreLock), {}, One(VectorsLock));
    DisciplinedThen(One(VectorsLock) + One(StoreLock) + Pair(GraphLock, StoreLock) + One(VectorsLock), {},
                    CatchUpProgram());
  }

  lemma CatchUpIsDisciplined()
    ensures Disciplined(CatchUpProgram(), {})
  {
    hide Disciplined;
    OneIsDisciplined(GraphLock);
    OneIsDisciplined(StoreLock);
    OneIsDisciplined(VectorsLock);
    DisciplinedThen(One(VectorsLock), {}, One(StoreLock));
    DisciplinedThen(One(VectorsLock) + One(StoreLock), {}, One(GraphLock));
    DisciplinedThen(One(VectorsLock) + One(StoreLock) + One(GraphLock), {}, One(VectorsLock));
  }

  lemma {:induction false} ScriptIsDisciplined(calls: seq<Call>)
    ensures Disciplined(Script(calls), {})
    decreases calls
  {
    if calls != [] {
      ProgramIsDisciplined(calls[0]);
      ScriptIsDisciplined(calls[1..]);
      DisciplinedThen(Program(calls[0]), {}, Script(calls[1..]));
    }
  }

  /** A script is its calls' programs, one after another, whatever their number and order. */
  lemma {:induction false} ScriptMeans(calls: seq<Call>, call: Call)
    ensures Script([]) == [] && Script([call]) == Program(call)
    ensures Script(calls + [call]) == Script(calls) + Program(call)
    decreases calls
  {
    hide Program;
    assert [call][1..] == [] && Program(call) + [] == Program(call);
    if calls == [] {
      assert calls + [call] == [call];
    } else {
      ScriptMeans(calls[1..], call);
      assert (calls + [call])[1..] == calls[1..] + [call];
    }
  }

  // ---------------------------------------------------------------------------------------------
  // Threads
  // ---------------------------------------------------------------------------------------------

  /** Who owns each taken lock, and what each thread still has to do. */
  datatype State = State(owner: map<Lock, nat>, rest: seq<seq<Op>>)

  ghost function Held(s: State, t: nat): set<Lock> {
    set l | l in s.owner && s.owner[l] == t
  }

  /** A mutex is not re-entrant: a taken lock blocks every thread, its owner included. */
  predicate Blocked(s: State, t: nat)
    requires t < |s.rest|
  {
    s.rest[t] != [] && s.rest[t][0].Acquire? && s.rest[t][0].lock in s.owner
  }

  predicate Enabled(s: State, t: nat) {
    t < |s.rest| && s.rest[t] != [] && !Blocked(s, t)
  }

  function Apply(s: State, t: nat): State
    requires Enabled(s, t)
  {
    var rest := s.rest[t := s.rest[t][1..]];
    match s.rest[t][0]
    case Acquire(l) => State(s.owner[l := t], rest)
    case Release(l) => State(s.owner - {l}, rest)
  }

  /** What a mutex does: it is taken only when nobody has it, by one thread, and freed by its release alone. */
  lemma MutexMeans(s: State, t: nat)
    requires t < |s.rest| && s.rest[t] != []
    ensures Enabled(s, t) <==> s.rest[t][0].Release? || s.rest[t][0].lock !in s.owner
    ensures Enabled(s, t) ==>
              var op, s' := s.rest[t][0], Apply(s, t);
              && |s'.rest| == |s.rest| && [op] + s'.rest[t] == s.rest[t]
              && (forall u :: 0 <= u < |s.rest| && u != t ==> s'.rest[u] == s.rest[u])
              && (forall l :: l != op.lock ==>
                    (l in s'.owner <==> l in s.owner) && (l in s.owner ==> s'.owner[l] == s.owner[l]))
              && (op.lock in s'.owner <==> op.Acquire?) && (op.Acquire? ==> s'.owner[op.lock] == t)
  {
  }

  predicate Legal(s: State, schedule: seq<nat>)
    decreases schedule
  {
    schedule == [] || (Enabled(s, schedule[0]) && Legal(Apply(s, schedule[0]), schedule[1..]))
  }

  function Exec(s: State, schedule: seq<nat>): State
    requires Legal(s, schedule)
    decreases schedule
  {
    if schedule == [] then s else Exec(Apply(s, schedule[0]), schedule[1..])
  }

  ghost predicate Inv(s: State) {
    && (forall l <- s.owner :: s.owner[l] < |s.rest|)
    && (forall t :: 0 <= t < |s.rest| ==> Disciplined(s.rest[t], Held(s, t)))
  }

  /** One thread per program, no lock taken. */
  function Idle(programs: seq<seq<Op>>): State {
    State(map[], programs)
  }

  ghost predicate AllDisciplined(programs: seq<seq<Op>>) {
    forall t :: 0 <= t < |programs| ==> Disciplined(programs[t], {})
  }

  lemma IdleKeepsInvariant(programs: seq<seq<Op>>)
    requires AllDisciplined(programs)
    ensures Inv(Idle(programs))
  {
    forall t | 0 <= t < |programs| ensures Disciplined(programs[t], Held(Idle(programs), t)) {
      assert Held(Idle(programs), t) == {};
    }
  }

  /** What threads that make the modelled calls run. */
  function Scripts(calls: seq<seq<Call>>): seq<seq<Op>> {
    seq(|calls|, t requires 0 <= t < |calls| => Script(calls[t]))
  }

  lemma ScriptsAreDisciplined(calls: seq<seq<Call>>)
    ensures AllDisciplined(Scripts(calls))
  {
    forall t | 0 <= t < |calls| ensures Disciplined(Scripts(calls)[t], {}) {
      ScriptIsDisciplined(calls[t]);
    }
  }

  lemma StepKeepsInvariant(s: State, t: nat)
    requires Inv(s) && Enabled(s, t)
    ensures Inv(Apply(s, t))
  {
    var next := Apply(s, t);
    var l := s.rest[t][0].lock;
    assert Disciplined(s.rest[t], Held(s, t));
    if s.rest[t][0].Release? {
      assert l in Held(s, t);
    }
    forall u | 0 <= u < |next.rest| ensures Disciplined(next.rest[u], Held(next, u)) {
      if u != t {
        assert Held(next, u) == Held(s, u);
      } else if s.rest[t][0].Acquire? {
        assert Held(next, t) == Held(s, t) + {l};
      } else {
        assert Held(next, t) == Held(s, t) - {l};
      }
    }
  }

  lemma {:induction false} EveryRunKeepsInvariant(s: State, schedule: seq<nat>)
    requires Inv(s) && Legal(s, schedule)
    ensures Inv(Exec(s, schedule))
    decreases schedule
  {
    if schedule != [] {
      StepKeepsInvariant(s, schedule[0]);
      EveryRunKeepsInvariant(Apply(s, schedule[0]), schedule[1..]);
    }
  }

  // ---------------------------------------------------------------------------------------------
  // No circular wait
  // ---------------------------------------------------------------------------------------------

  predicate WaitsFor(s: State, t: nat, u: nat) {
    t < |s.rest| && Blocked(s, t) && s.owner[s.rest[t][0].lock] == u
  }

  /**
   Following who waits for whom from any blocked thread climbs in rank, so it stops within three
   waits, at a thread that holds a lock and can run.
   */
  lemma WaitChainEnds(s: State, t: nat) returns (chain: seq<nat>)
    requires Inv(s) && t < |s.rest| && Blocked(s, t)
    ensures 1 < |chain| <= 4 - Rank(s.rest[t][0].lock) && chain[0] == t
    ensures forall i :: 0 <= i < |chain| - 1 ==> WaitsFor(s, chain[i], chain[i + 1])
    ensures Enabled(s, chain[|chain| - 1]) && Held(s, chain[|chain| - 1]) != {}
    decreases 4 - Rank(s.rest[t][0].lock)
  {
    var l := s.rest[t][0].lock;
    var u := s.owner[l];
    assert Disciplined(s.rest[t], Held(s, t)) && Disciplined(s.rest[u], Held(s, u));
    assert l in Held(s, u);
    if Blocked(s, u) {
      var further := WaitChainEnds(s, u);
      chain := [t] + further;
    } else {
      chain := [t, u];
    }
  }

  /** Any threads that keep the rule, in every reachable state: if some thread is blocked, some lock holder is not. */
  lemma NoCircularWait(programs: seq<seq<Op>>, schedule: seq<nat>, t: nat)
    requires AllDisciplined(programs) && Legal(Idle(programs), schedule)
    requires t < |Exec(Idle(programs), schedule).rest| && Blocked(Exec(Idle(programs), schedule), t)
    ensures var s := Exec(Idle(programs), schedule); exists u :: Enabled(s, u) && Held(s, u) != {}
  {
    var s := Exec(Idle(programs), schedule);
    IdleKeepsInvariant(programs);
    EveryRunKeepsInvariant(Idle(programs), schedule);
    var chain := WaitChainEnds(s, t);
    assert Enabled(s, chain[|chain| - 1]);
  }

  /** In particular threads that make the modelled calls, in any order and number. */
  lemma CallsNeverDeadlock(calls: seq<seq<Call>>, schedule: seq<nat>)
    requires Legal(Idle(Scripts(calls)), schedule)
    ensures var s := Exec(Idle(Scripts(calls)), schedule); (forall t :: !Enabled(s, t)) <==> Done(s)
  {
    ScriptsAreDisciplined(calls);
    IdleKeepsInvariant(Scripts(calls));
    EveryRunKeepsInvariant(Idle(Scripts(calls)), schedule);
    StuckIffDone(Exec(Idle(Scripts(calls)), schedule));
  }

  function Work(rest: seq<seq<Op>>): nat {
    if rest == [] then 0 else |rest[0]| + Work(rest[1..])
  }

  lemma {:induction false} WorkShrinks(rest: seq<seq<Op>>, t: nat)
    requires t < |rest| && rest[t] != []
    ensures Work(rest[t := rest[t][1..]]) + 1 == Work(rest)
    decreases rest
  {
    var less := rest[t := rest[t][1..]];
    if t == 0 {
      assert less[1..] == rest[1..];
    } else {
      assert less[1..] == rest[1..][t - 1 := rest[1..][t - 1][1..]];
      WorkShrinks(rest[1..], t - 1);
    }
  }

  lemma {:induction false} NoWorkLeft(rest: seq<seq<Op>>)
    ensures Work(rest) == 0 <==> forall t :: 0 <= t < |rest| ==> rest[t] == []
    decreases rest
  {
    if rest != [] {
      NoWorkLeft(rest[1..]);
      if Work(rest) == 0 {
        forall t | 0 <= t < |rest| ensures rest[t] == [] {
          assert t > 0 ==> rest[1..][t - 1] == rest[t];
        }
      } else if rest[0] == [] {
        var t :| 0 <= t < |rest[1..]| && rest[1..][t] != [];
        assert rest[t + 1] != [];
      }
    }
  }

  /** Every run is bounded by the work it started with, and spends one unit of it per step. */
  lemma {:induction false} RunSpendsWork(s: State, schedule: seq<nat>)
    requires Legal(s, schedule)
    ensures Work(Exec(s, schedule).rest) + |schedule| == Work(s.rest)
    decreases schedule
  {
    if schedule != [] {
      WorkShrinks(s.rest, schedule[0]);
      RunSpendsWork(Apply(s, schedule[0]), schedule[1..]);
    }
  }

  lemma SomebodyCanRun(s: State) returns (t: nat)
    requires Inv(s) && Work(s.rest) > 0
    ensures Enabled(s, t)
  {
    NoWorkLeft(s.rest);
    var u :| 0 <= u < |s.rest| && s.rest[u] != [];
    t := u;
    if Blocked(s, u) {
      var chain := WaitChainEnds(s, u);
      t := chain[|chain| - 1];
    }
  }

  predicate Done(s: State) {
    s.owner == map[] && forall t :: 0 <= t < |s.rest| ==> s.rest[t] == []
  }

  /** A run that cannot be extended has finished every thread and freed every lock, and conversely. */
  lemma StuckIffDone(s: State)
    requires Inv(s)
    ensures (forall t :: !Enabled(s, t)) <==> Done(s)
  {
    NoWorkLeft(s.rest);
    assert forall l <- s.owner :: l in Held(s, s.owner[l]);
    assert forall t :: 0 <= t < |s.rest| && s.rest[t] == [] ==> Held(s, t) == {};
    if Work(s.rest) > 0 {
      var t := SomebodyCanRun(s);
    }
  }

  /** However far a run got, it can be carried on to the end. */
  lemma {:induction false} EveryRunCanFinish(s: State) returns (schedule: seq<nat>)
    requires Inv(s)
    ensures Legal(s, schedule) && Done(Exec(s, schedule)) && |schedule| == Work(s.rest)
    decreases Work(s.rest)
  {
    if Work(s.rest) == 0 {
      schedule := [];
      NoWorkLeft(s.rest);
      StuckIffDone(s);
    } else {
      var t := SomebodyCanRun(s);
      WorkShrinks(s.rest, t);
      StepKeepsInvariant(s, t);
      var later := EveryRunCanFinish(Apply(s, t));
      schedule := [t] + later;
      assert schedule[1..] == later;
    }
  }

  /** Without the rule the same mutexes do deadlock: two threads that nest two locks in opposite orders. */
  lemma OppositeOrdersDeadlock(a: Lock, b: Lock)
    requires a != b
    ensures var s := State(map[], [Pair(a, b), Pair(b, a)]);
            Legal(s, [0, 1]) && !Done(Exec(s, [0, 1])) && forall t :: !Enabled(Exec(s, [0, 1]), t)
  {
    var s := State(map[], [Pair(a, b), Pair(b, a)]);
    var s1 := Apply(s, 0);
    var s2 := Apply(s1, 1);
    assert [0, 1][1..] == [1] && [1][1..] == [];
    assert Legal(s2, []) && Legal(s1, [1]) && Exec(s1, [1]) == s2;
    assert s2.rest[0][0] == Acquire(b) && s2.rest[1][0] == Acquire(a);
    assert s2.owner == map[a := 0, b := 1];
  }
}
