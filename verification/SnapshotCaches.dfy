/**
 The graph and its snapshots as caches of the log: the graph is a fold of a log prefix, a snapshot
 is a copy of the graph filed under its head, and a boot restores the newest snapshot that leads the
 graph and replays the tail. The operator's revert rewrites history under all of them.

 The materializer is any fold at all: a start value and a function from state and event to state.
 */
module SnapshotCaches {
  import opened Words
  import opened Wrappers
  import opened SnapshotFiles

  datatype Materializer<!G, !E> = Materializer(empty: G, apply: (G, E) -> G)

  datatype Graph<G> = Graph(head: U64, content: G)

  datatype State<G, E> = State(log: seq<E>, graph: Graph<G>, dir: seq<File<Graph<G>>>)

  function Fold<G, E>(m: Materializer<G, E>, events: seq<E>): G {
    if events == [] then m.empty
    else m.apply(Fold(m, events[..|events| - 1]), events[|events| - 1])
  }

  lemma FoldPush<G, E>(m: Materializer<G, E>, s: seq<E>, e: E)
    ensures Fold(m, s + [e]) == m.apply(Fold(m, s), e)
  {
    assert (s + [e])[..|s|] == s;
  }

  // ---------------------------------------------------------------------------------------------
  // The operations
  // ---------------------------------------------------------------------------------------------

  /** Apply the next event, if the log has one past the graph's head. */
  function ApplyNext<G, E>(m: Materializer<G, E>, g: Graph<G>, log: seq<E>): Graph<G>
    requires |log| <= I64_MAX
  {
    if g.head < |log| then Graph(g.head + 1, m.apply(g.content, log[g.head])) else g
  }

  /** Replay everything past the graph's head; a graph at or past the log's head reads nothing. */
  function CatchUp<G, E>(m: Materializer<G, E>, g: Graph<G>, log: seq<E>): Graph<G>
    requires |log| <= I64_MAX
    decreases |log| - g.head
  {
    if g.head < |log| then CatchUp(m, ApplyNext(m, g, log), log) else g
  }

  predicate HasFile<T>(dir: seq<File<T>>, name: string) {
    exists i :: 0 <= i < |dir| && dir[i].name == name
  }

  /** File a copy of the graph under its head, listed anywhere, unless that name is taken. */
  function TakeSnapshot<G>(g: Graph<G>, dir: seq<File<Graph<G>>>, at: nat): seq<File<Graph<G>>>
    requires at <= |dir|
  {
    if HasFile(dir, Filename(g.head)) then dir
    else dir[..at] + [File(Filename(g.head), g)] + dir[at..]
  }

  /** Copy the newest snapshot over the graph when it leads it. */
  function Restored<G>(g: Graph<G>, dir: seq<File<Graph<G>>>): Graph<G> {
    match Latest(dir)
    case None => g
    case Some(newest) => if newest.head <= g.head then g else newest.file.content
  }

  /** Restore if snapshots are on, append what the boot itself writes, replay the tail. */
  function Boot<G, E>(m: Materializer<G, E>, s: State<G, E>, snapshotsOn: bool, written: seq<E>): State<G, E>
    requires |s.log| + |written| <= I64_MAX
  {
    var log := s.log + written;
    var g := if snapshotsOn then Restored(s.graph, s.dir) else s.graph;
    s.(log := log, graph := CatchUp(m, g, log))
  }

  /** A revert part of the way: the log cut at `to`, the graph dropped or not yet, and the files in `gone` deleted. */
  function Halfway<G, E>(m: Materializer<G, E>, s: State<G, E>, to: U64, dropped: bool, gone: set<string>): State<G, E>
    requires to <= |s.log|
  {
    State(s.log[..to], if dropped then Graph(0, m.empty) else s.graph, Without(s.dir, gone))
  }

  /** Cut the log at `to`, drop the graph, discard the snapshots past `to`. */
  function RevertTo<G, E>(m: Materializer<G, E>, s: State<G, E>, to: U64): State<G, E>
    requires to <= |s.log|
  {
    Halfway(m, s, to, true, Above(Snapshots(s.dir), to))
  }

  datatype Step<E> =
    | Append(events: seq<E>)
    | Materialize
    | Snapshot(at: nat)
    | Prune(keep: nat)
    | LoseGraph
    | BootStep(snapshotsOn: bool, written: seq<E>)
    | Revert(to: U64)

  predicate Enabled<G, E>(s: State<G, E>, step: Step<E>) {
    match step
    case Append(events) => |s.log| + |events| <= I64_MAX
    case Materialize => |s.log| <= I64_MAX
    case Snapshot(at) => at <= |s.dir|
    case BootStep(_, written) => |s.log| + |written| <= I64_MAX
    case _ => true
  }

  /** A revert at or past the head is refused; one below it runs to the end. */
  function Apply<G, E>(m: Materializer<G, E>, s: State<G, E>, step: Step<E>): State<G, E>
    requires Enabled(s, step)
  {
    match step
    case Append(events) => s.(log := s.log + events)
    case Materialize => s.(graph := ApplyNext(m, s.graph, s.log))
    case Snapshot(at) => s.(dir := TakeSnapshot(s.graph, s.dir, at))
    case Prune(keep) => s.(dir := Pruned(s.dir, keep))
    case LoseGraph => s.(graph := Graph(0, m.empty))
    case BootStep(on, written) => Boot(m, s, on, written)
    case Revert(to) => if to >= |s.log| then s else RevertTo(m, s, to)
  }

  predicate Legal<G, E>(m: Materializer<G, E>, s: State<G, E>, steps: seq<Step<E>>)
    decreases steps
  {
    steps == [] || (Enabled(s, steps[0]) && Legal(m, Apply(m, s, steps[0]), steps[1..]))
  }

  function Exec<G, E>(m: Materializer<G, E>, s: State<G, E>, steps: seq<Step<E>>): State<G, E>
    requires Legal(m, s, steps)
    decreases steps
  {
    if steps == [] then s else Exec(m, Apply(m, s, steps[0]), steps[1..])
  }

  /** A run is its steps, one after another: each has to be possible when its turn comes. */
  lemma {:induction false} RunsCompose<G, E(!new)>(m: Materializer<G, E>, s: State<G, E>, a: seq<Step<E>>,
                                                   b: seq<Step<E>>)
    ensures Legal(m, s, []) && Exec(m, s, []) == s
    ensures forall step :: Legal(m, s, [step]) <==> Enabled(s, step)
    ensures forall step :: Enabled(s, step) ==> Exec(m, s, [step]) == Apply(m, s, step)
    ensures Legal(m, s, a + b) <==> Legal(m, s, a) && Legal(m, Exec(m, s, a), b)
    ensures Legal(m, s, a + b) ==> Exec(m, s, a + b) == Exec(m, Exec(m, s, a), b)
    decreases a
  {
    hide Apply, Enabled;
    forall step: Step<E> ensures [step][1..] == [] && [step][0] == step {
    }
    if a == [] {
      assert a + b == b;
    } else {
      assert (a + b)[1..] == a[1..] + b;
      if Enabled(s, a[0]) {
        RunsCompose(m, Apply(m, s, a[0]), a[1..], b);
      }
    }
  }

  // ---------------------------------------------------------------------------------------------
  // The invariant: every cache agrees with the log it stands beside
  // ---------------------------------------------------------------------------------------------

  ghost predicate Agrees<G, E>(m: Materializer<G, E>, log: seq<E>, g: Graph<G>) {
    g.head <= |log| && g.content == Fold(m, log[..g.head])
  }

  ghost predicate FileAgrees<G, E>(m: Materializer<G, E>, log: seq<E>, f: File<Graph<G>>) {
    f.name == Filename(f.content.head) && Agrees(m, log, f.content)
  }

  ghost predicate DirAgrees<G, E>(m: Materializer<G, E>, log: seq<E>, dir: seq<File<Graph<G>>>) {
    Named(dir) && forall i :: 0 <= i < |dir| ==> FileAgrees(m, log, dir[i])
  }

  ghost predicate Inv<G, E>(m: Materializer<G, E>, s: State<G, E>) {
    |s.log| <= I64_MAX && Agrees(m, s.log, s.graph) && DirAgrees(m, s.log, s.dir)
  }

  lemma AgreesOnExtension<G, E>(m: Materializer<G, E>, log: seq<E>, more: seq<E>, g: Graph<G>)
    requires Agrees(m, log, g)
    ensures Agrees(m, log + more, g)
  {
    assert (log + more)[..g.head] == log[..g.head];
  }

  lemma AgreesOnPrefix<G, E>(m: Materializer<G, E>, log: seq<E>, to: nat, g: Graph<G>)
    requires to <= |log| && Agrees(m, log, g) && g.head <= to
    ensures Agrees(m, log[..to], g)
  {
    assert log[..to][..g.head] == log[..g.head];
  }

  lemma ApplyNextAgrees<G, E>(m: Materializer<G, E>, log: seq<E>, g: Graph<G>)
    requires |log| <= I64_MAX && Agrees(m, log, g)
    ensures Agrees(m, log, ApplyNext(m, g, log))
  {
    if g.head < |log| {
      FoldPush(m, log[..g.head], log[g.head]);
      assert log[..g.head + 1] == log[..g.head] + [log[g.head]];
    }
  }

  /** Tail replay from any agreeing point is the fold of the whole log. */
  lemma {:induction false} CatchUpIsFold<G, E>(m: Materializer<G, E>, log: seq<E>, g: Graph<G>)
    requires |log| <= I64_MAX && Agrees(m, log, g)
    ensures CatchUp(m, g, log) == Graph(|log|, Fold(m, log))
    decreases |log| - g.head
  {
    if g.head < |log| {
      ApplyNextAgrees(m, log, g);
      CatchUpIsFold(m, log, ApplyNext(m, g, log));
    } else {
      assert log[..g.head] == log;
    }
  }

  lemma RestoredAgrees<G(!new), E>(m: Materializer<G, E>, log: seq<E>, g: Graph<G>, dir: seq<File<Graph<G>>>)
    requires |log| <= I64_MAX && Agrees(m, log, g) && DirAgrees(m, log, dir)
    ensures Agrees(m, log, Restored(g, dir))
  {
    SnapshotsApart(dir);
  }

  lemma InsertedNamed<T>(dir: seq<File<T>>, f: File<T>, at: nat)
    requires at <= |dir| && Named(dir) && !HasFile(dir, f.name)
    ensures Named(dir[..at] + [f] + dir[at..])
  {
    var dir' := dir[..at] + [f] + dir[at..];
    forall i | 0 <= i < |dir'| && i != at ensures dir'[i] == dir[if i < at then i else i - 1] {
    }
  }

  lemma SnapshotAgrees<G, E>(m: Materializer<G, E>, log: seq<E>, g: Graph<G>, dir: seq<File<Graph<G>>>, at: nat)
    requires at <= |dir| && Agrees(m, log, g) && DirAgrees(m, log, dir)
    ensures DirAgrees(m, log, TakeSnapshot(g, dir, at))
  {
    if !HasFile(dir, Filename(g.head)) {
      InsertedNamed(dir, File(Filename(g.head), g), at);
    }
  }

  lemma WithoutAgrees<G(!new), E>(m: Materializer<G, E>, log: seq<E>, dir: seq<File<Graph<G>>>, gone: set<string>)
    requires DirAgrees(m, log, dir)
    ensures DirAgrees(m, log, Without(dir, gone))
  {
    WithoutSubset(dir, gone);
    var kept := Without(dir, gone);
    forall i | 0 <= i < |kept| ensures FileAgrees(m, log, kept[i]) {
      assert kept[i] in kept;
    }
  }

  /** Discarding past `to` is what a cut at `to` needs: what is left was folded from the kept prefix. */
  lemma DiscardAgrees<G(!new), E>(m: Materializer<G, E>, log: seq<E>, to: U64, dir: seq<File<Graph<G>>>)
    requires |log| <= I64_MAX && to <= |log| && DirAgrees(m, log, dir)
    ensures DirAgrees(m, log[..to], Discarded(dir, to))
  {
    WithoutAgrees(m, log, dir, Above(Snapshots(dir), to));
    WithoutSubset(dir, Above(Snapshots(dir), to));
    SnapshotsApart(dir);
    var kept := Discarded(dir, to);
    forall i | 0 <= i < |kept| ensures FileAgrees(m, log[..to], kept[i]) {
      assert kept[i] in kept;
      NameRoundTrip(kept[i].content.head);
      assert Found(kept[i], kept[i].content.head) in Snapshots(dir);
      AgreesOnPrefix(m, log, to, kept[i].content);
    }
  }

  lemma StepKeepsInvariant<G(!new), E>(m: Materializer<G, E>, s: State<G, E>, step: Step<E>)
    requires Inv(m, s) && Enabled(s, step)
    ensures Inv(m, Apply(m, s, step))
  {
    match step
    case Append(events) =>
      AgreesOnExtension(m, s.log, events, s.graph);
      ExtensionAgrees(m, s.log, events, s.dir);
    case Materialize => ApplyNextAgrees(m, s.log, s.graph);
    case Snapshot(at) => SnapshotAgrees(m, s.log, s.graph, s.dir, at);
    case Prune(keep) =>
      WithoutAgrees(m, s.log, s.dir, Names(Snapshots(s.dir)[..Surplus(|Snapshots(s.dir)|, keep)]));
    case LoseGraph => assert s.log[..0] == [];
    case BootStep(on, written) =>
      BootAgrees(m, s, on, written);
      ExtensionAgrees(m, s.log, written, s.dir);
      assert (s.log + written)[..|s.log| + |written|] == s.log + written;
    case Revert(to) =>
      if to < |s.log| {
        DiscardAgrees(m, s.log, to, s.dir);
        assert s.log[..to][..0] == [];
      }
  }

  lemma ExtensionAgrees<G, E>(m: Materializer<G, E>, log: seq<E>, more: seq<E>, dir: seq<File<Graph<G>>>)
    requires DirAgrees(m, log, dir)
    ensures DirAgrees(m, log + more, dir)
  {
    forall i | 0 <= i < |dir| ensures FileAgrees(m, log + more, dir[i]) {
      AgreesOnExtension(m, log, more, dir[i].content);
    }
  }

  /** A boot ends with the graph equal to the fold of the whole log, whatever was lost before it. */
  lemma BootAgrees<G(!new), E>(m: Materializer<G, E>, s: State<G, E>, snapshotsOn: bool, written: seq<E>)
    requires Inv(m, s) && |s.log| + |written| <= I64_MAX
    ensures var s' := Boot(m, s, snapshotsOn, written);
            s'.log == s.log + written && s'.graph == Graph(|s'.log|, Fold(m, s'.log))
  {
    RestoredAgrees(m, s.log, s.graph, s.dir);
    var g := if snapshotsOn then Restored(s.graph, s.dir) else s.graph;
    AgreesOnExtension(m, s.log, written, g);
    CatchUpIsFold(m, s.log + written, g);
  }

  /**
   Over every run, history rewrites included, the graph and every snapshot are folds of the current
   log's prefixes.
   */
  lemma {:induction false} CachesAgreeOverRuns<G(!new), E>(m: Materializer<G, E>, s: State<G, E>, steps: seq<Step<E>>)
    requires Inv(m, s) && Legal(m, s, steps)
    ensures Inv(m, Exec(m, s, steps))
    decreases steps
  {
    if steps != [] {
      StepKeepsInvariant(m, s, steps[0]);
      CachesAgreeOverRuns(m, Apply(m, s, steps[0]), steps[1..]);
    }
  }

  /** The skip-if-exists check keeps nothing stale: a file already filed under the graph's head is the graph. */
  lemma SkippedSnapshotIsCurrent<G, E>(m: Materializer<G, E>, s: State<G, E>, i: nat)
    requires Inv(m, s) && i < |s.dir| && s.dir[i].name == Filename(s.graph.head)
    ensures s.dir[i].content == s.graph
  {
    NameOrderIsHeadOrder(s.dir[i].content.head, s.graph.head);
  }

  /** What each step changes, beside an agreeing state: only these parts, and to exactly this. */
  lemma StepEffects<G(!new), E>(m: Materializer<G, E>, s: State<G, E>, step: Step<E>)
    requires Inv(m, s) && Enabled(s, step)
    ensures var s' := Apply(m, s, step);
            && (s'.log == s.log || step.Append? || step.BootStep? || step.Revert?)
            && (s'.graph == s.graph || step.Materialize? || step.LoseGraph? || step.BootStep? || step.Revert?)
            && (s'.dir == s.dir || step.Snapshot? || step.Prune? || step.Revert?)
            && (step.Append? ==> s'.log == s.log + step.events)
            && (step.BootStep? ==> s'.log == s.log + step.written)
            && (step.Materialize? ==> s'.graph.head == if s.graph.head < |s.log| then s.graph.head + 1 else |s.log|)
            && (step.LoseGraph? ==> s'.graph == Graph(0, m.empty))
            && (step.BootStep? ==> s'.graph == Graph(|s'.log|, Fold(m, s'.log)))
            && (step.Prune? ==>
                  var all, left := Snapshots(s.dir), Snapshots(s'.dir);
                  var kept := if step.keep == 0 then 1 else step.keep;
                  |left| == (if |all| <= kept then |all| else kept) && left == all[|all| - |left|..])
  {
    match step
    case Prune(keep) => PruneKeepsNewest(s.dir, keep);
    case BootStep(on, written) => BootAgrees(m, s, on, written);
    case _ =>
  }

  /** Only the width of a sequence number stands in a step's way: a crash, a boot or a revert may come any time. */
  lemma StepsAreOpen<G, E>(s: State<G, E>, step: Step<E>)
    requires |s.log| <= I64_MAX
    ensures step.Append? ==> (Enabled(s, step) <==> |s.log| + |step.events| <= I64_MAX)
    ensures step.BootStep? ==> (Enabled(s, step) <==> |s.log| + |step.written| <= I64_MAX)
    ensures step.Snapshot? ==> (Enabled(s, step) <==> step.at <= |s.dir|)
    ensures step.Materialize? || step.Prune? || step.LoseGraph? || step.Revert? ==> Enabled(s, step)
  {
  }

  /** A snapshot adds one file, a copy of the graph under the name of its head, or finds that very file. */
  lemma SnapshotFiled<G(!new), E>(m: Materializer<G, E>, s: State<G, E>, at: nat)
    requires Inv(m, s) && Enabled(s, Snapshot(at))
    ensures var dir' := Apply(m, s, Snapshot(at)).dir;
            && File(Filename(s.graph.head), s.graph) in dir'
            && (dir' == s.dir || (|dir'| == |s.dir| + 1 && dir'[..at] == s.dir[..at] && dir'[at + 1..] == s.dir[at..]))
  {
    if i :| 0 <= i < |s.dir| && s.dir[i].name == Filename(s.graph.head) {
      SkippedSnapshotIsCurrent(m, s, i);
      assert s.dir[i] == File(Filename(s.graph.head), s.graph);
    }
  }

  /** A revert below the head leaves the log's first `to` events, no graph, and the snapshots at or below `to`. */
  lemma RevertLeaves<G(!new), E>(m: Materializer<G, E>, s: State<G, E>, to: U64)
    requires Inv(m, s)
    ensures var s' := Apply(m, s, Revert(to));
            && (to >= |s.log| ==> s' == s)
            && (to < |s.log| ==>
                  && |s'.log| == to && s'.log <= s.log
                  && s'.graph == Graph(0, m.empty)
                  && forall f :: f in s'.dir <==> f in s.dir && f.content.head <= to)
  {
    if to < |s.log| {
      AboveMeans(s.dir, to);
      WithoutSubset(s.dir, Above(Snapshots(s.dir), to));
      forall f | f in s.dir ensures ParseHead(f.name) == Some(f.content.head) {
        NameRoundTrip(f.content.head);
      }
    }
  }

  /**
   What a snapshot is for: taken, and the graph then lost, the next boot starts from that graph again,
   or from a newer one some other snapshot holds, and never replays what the lost graph had applied.
   */
  lemma LostGraphIsRestored<G(!new), E>(m: Materializer<G, E>, s: State<G, E>, at: nat, written: seq<E>)
    requires Inv(m, s) && Enabled(s, Snapshot(at)) && |s.log| + |written| <= I64_MAX
    ensures var lost := Apply(m, Apply(m, s, Snapshot(at)), LoseGraph);
            && lost.graph == Graph(0, m.empty)
            && Restored(lost.graph, lost.dir).head >= s.graph.head
            && ((forall i :: 0 <= i < |s.dir| ==> s.dir[i].content.head <= s.graph.head) ==>
                  Restored(lost.graph, lost.dir) == s.graph)
            && Boot(m, lost, true, written).graph == Graph(|s.log| + |written|, Fold(m, s.log + written))
  {
    hide Fold, Latest;
    var shot := Apply(m, s, Snapshot(at));
    var lost := Apply(m, shot, LoseGraph);
    StepKeepsInvariant(m, s, Snapshot(at));
    StepKeepsInvariant(m, shot, LoseGraph);
    BootAgrees(m, lost, true, written);
    SnapshotFiled(m, s, at);
    LatestIsHighest(m, lost.log, lost.dir);
    RestoredAgrees(m, lost.log, lost.graph, lost.dir);
  }

  // ---------------------------------------------------------------------------------------------
  // A revert that stops halfway
  // ---------------------------------------------------------------------------------------------

  lemma LatestIsHighest<G(!new), E>(m: Materializer<G, E>, log: seq<E>, dir: seq<File<Graph<G>>>)
    requires |log| <= I64_MAX && DirAgrees(m, log, dir)
    ensures Latest(dir).None? <==> dir == []
    ensures Latest(dir).Some? ==>
              && Latest(dir).value.file in dir
              && Latest(dir).value.head == Latest(dir).value.file.content.head
              && forall i :: 0 <= i < |dir| ==> dir[i].content.head <= Latest(dir).value.head
  {
    SnapshotsApart(dir);
    forall i | 0 <= i < |dir|
      ensures Found(dir[i], dir[i].content.head) in Snapshots(dir)
    {
      NameRoundTrip(dir[i].content.head);
      assert dir[i] in dir;
    }
    if Latest(dir).Some? {
      var f := Latest(dir).value.file;
      var i :| 0 <= i < |dir| && dir[i] == f;
      NameRoundTrip(dir[i].content.head);
    }
  }

  /** A revert stopped anywhere past its cut has the cut log, its graph or none, and the files not yet deleted. */
  lemma StoppedRevertLeaves<G(!new), E>(m: Materializer<G, E>, s: State<G, E>, to: U64, dropped: bool,
                                        gone: set<string>)
    requires to <= |s.log|
    ensures var r := Halfway(m, s, to, dropped, gone);
            && |r.log| == to && r.log <= s.log
            && (dropped ==> r.graph == Graph(0, m.empty)) && (!dropped ==> r.graph == s.graph)
            && (forall f :: f in r.dir <==> f in s.dir && f.name !in gone)
  {
    WithoutSubset(s.dir, gone);
  }

  /** Nothing the boot would look at was captured past the cut. */
  ghost predicate NothingPast<G, E>(r: State<G, E>, to: U64, snapshotsOn: bool) {
    && r.graph.head <= to
    && (snapshotsOn ==> forall i :: 0 <= i < |r.dir| ==> r.dir[i].content.head <= to)
  }

  /**
   The revert cuts the log, drops the graph and deletes snapshots one by one. Wherever it stops, the
   next boot, with snapshots on or off, agrees with the log exactly when nothing it looks at was
   captured past the cut; otherwise it ends with a graph ahead of its own log.
   */
  lemma BootAfterInterruptedRevert<G(!new), E>(m: Materializer<G, E>, s: State<G, E>, to: U64, dropped: bool,
                                               gone: set<string>, on: bool)
    requires Inv(m, s) && to < |s.log|
    ensures var r := Halfway(m, s, to, dropped, gone);
            var g := Boot(m, r, on, []).graph;
            && (NothingPast(r, to, on) <==> g == Graph(to, Fold(m, s.log[..to])))
            && (!NothingPast(r, to, on) ==> g.head > to)
  {
    hide Fold, Without, Latest;
    var r := Halfway(m, s, to, dropped, gone);
    assert r.log + [] == r.log;
    if NothingPast(r, to, on) {
      BootAfterCleanStop(m, s, to, dropped, gone, on, []);
    } else {
      StaleRestoreLeads(m, s, to, dropped, gone, on);
    }
  }

  /** The agreeing half holds whatever the boot itself then appends. */
  lemma BootAfterCleanStop<G(!new), E>(m: Materializer<G, E>, s: State<G, E>, to: U64, dropped: bool,
                                       gone: set<string>, on: bool, written: seq<E>)
    requires Inv(m, s) && to < |s.log| && to + |written| <= I64_MAX
    requires NothingPast(Halfway(m, s, to, dropped, gone), to, on)
    ensures Boot(m, Halfway(m, s, to, dropped, gone), on, written).graph ==
            Graph(to + |written|, Fold(m, s.log[..to] + written))
  {
    hide Fold, Without, Latest;
    var r := Halfway(m, s, to, dropped, gone);
    StoppedGraphAgrees(m, s, to, dropped, gone);
    var g := if on then Restored(r.graph, r.dir) else r.graph;
    if on {
      StoppedDirAgrees(m, s, to, dropped, gone);
      RestoredAgrees(m, r.log, r.graph, r.dir);
    }
    AgreesOnExtension(m, r.log, written, g);
    CatchUpIsFold(m, r.log + written, g);
  }

  lemma StoppedGraphAgrees<G(!new), E>(m: Materializer<G, E>, s: State<G, E>, to: U64, dropped: bool, gone: set<string>)
    requires Inv(m, s) && to < |s.log| && Halfway(m, s, to, dropped, gone).graph.head <= to
    ensures Agrees(m, s.log[..to], Halfway(m, s, to, dropped, gone).graph)
  {
    if dropped {
      assert s.log[..to][..0] == [];
    } else {
      AgreesOnPrefix(m, s.log, to, s.graph);
    }
  }

  lemma StoppedDirAgrees<G(!new), E>(m: Materializer<G, E>, s: State<G, E>, to: U64, dropped: bool, gone: set<string>)
    requires Inv(m, s) && to < |s.log| && NothingPast(Halfway(m, s, to, dropped, gone), to, true)
    ensures DirAgrees(m, s.log[..to], Without(s.dir, gone))
  {
    hide Fold, Without;
    WithoutAgrees(m, s.log, s.dir, gone);
    var dir := Without(s.dir, gone);
    forall i | 0 <= i < |dir| ensures FileAgrees(m, s.log[..to], dir[i]) {
      AgreesOnPrefix(m, s.log, to, dir[i].content);
    }
  }

  /** Otherwise the boot starts from a graph past the cut, which replays nothing. */
  lemma StaleRestoreLeads<G(!new), E>(m: Materializer<G, E>, s: State<G, E>, to: U64, dropped: bool,
                                      gone: set<string>, on: bool)
    requires Inv(m, s) && to < |s.log| && !NothingPast(Halfway(m, s, to, dropped, gone), to, on)
    ensures Boot(m, Halfway(m, s, to, dropped, gone), on, []).graph.head > to
  {
    hide Fold, Without, Latest;
    var r := Halfway(m, s, to, dropped, gone);
    assert r.log + [] == r.log;
    WithoutAgrees(m, s.log, s.dir, gone);
    LatestIsHighest(m, s.log, r.dir);
    assert (if on then Restored(r.graph, r.dir) else r.graph).head > to;
  }

  // A concrete interruption: a snapshot at 2 outlives a cut at 1.

  const TWO_ROWS := State(["a", "b"], Graph(2, ["a", "b"]), [File(Filename(2), Graph(2, ["a", "b"]))])

  lemma TwoRowsAgree(m: Materializer<seq<string>, string>)
    requires m.empty == [] && forall g, e :: m.apply(g, e) == g + [e]
    ensures Inv(m, TWO_ROWS)
  {
    FoldsOfRows(m);
    assert ["a", "b"][..2] == ["a", "b"];
  }

  lemma FoldsOfRows(m: Materializer<seq<string>, string>)
    requires m.empty == [] && forall g, e :: m.apply(g, e) == g + [e]
    ensures Fold(m, ["a", "b"]) == ["a", "b"] && Fold(m, ["a", "x"]) == ["a", "x"]
  {
    FoldPush(m, [], "a");
    FoldPush(m, ["a"], "b");
    FoldPush(m, ["a"], "x");
    assert [] + ["a"] == ["a"] && ["a"] + ["b"] == ["a", "b"] && ["a"] + ["x"] == ["a", "x"];
  }

  /** The boot restores the surviving snapshot over the shorter log, and ends ahead of it. */
  lemma StaleSnapshotIsRestored(m: Materializer<seq<string>, string>, written: seq<string>)
    requires |written| <= 1
    ensures Boot(m, Halfway(m, TWO_ROWS, 1, true, {}), true, written).graph == Graph(2, ["a", "b"])
  {
    var file := File(Filename(2), Graph(2, ["a", "b"]));
    assert Without([file], {}) == [file] by {
      WithoutNone([file]);
    }
    NameRoundTrip(2);
    assert Scan([file]) == [Found(file, 2)] && StableSort([Found(file, 2)]) == [Found(file, 2)];
    assert Latest([file]) == Some(Found(file, 2));
  }

  /** Once one more event is appended the heads match again while the contents do not. */
  lemma InterruptedRevertExample(m: Materializer<seq<string>, string>)
    requires m.empty == [] && forall g, e :: m.apply(g, e) == g + [e]
    ensures var r := Halfway(m, TWO_ROWS, 1, true, {});
            && Inv(m, TWO_ROWS)
            && Boot(m, r, true, []).graph.head > |Boot(m, r, true, []).log|
            && Boot(m, r, true, ["x"]).graph == Graph(2, ["a", "b"])
            && Fold(m, Boot(m, r, true, ["x"]).log) == ["a", "x"]
  {
    hide Fold, CatchUp, Restored, Inv;
    TwoRowsAgree(m);
    FoldsOfRows(m);
    StaleSnapshotIsRestored(m, []);
    StaleSnapshotIsRestored(m, ["x"]);
    assert ["a", "b"][..1] + ["x"] == ["a", "x"];
  }

  // ---------------------------------------------------------------------------------------------
  // The instance as the program changes it
  // ---------------------------------------------------------------------------------------------

  class Instance<G(!new), E> {
    const m: Materializer<G, E>
    var log: seq<E>
    var graph: Graph<G>
    var files: seq<File<Graph<G>>>

    constructor (m: Materializer<G, E>, log: seq<E>, graph: Graph<G>, files: seq<File<Graph<G>>>)
      ensures this.m == m && this.log == log && this.graph == graph && this.files == files
    {
      this.m, this.log, this.graph, this.files := m, log, graph, files;
    }

    /** Replay every event past the graph's head, one at a time. */
    method MaterializeFrom() returns (applied: nat)
      requires |log| <= I64_MAX
      modifies this`graph
      ensures graph == CatchUp(m, old(graph), log)
      ensures applied == if old(graph.head) < |log| then |log| - old(graph.head) else 0
      ensures old(graph.head) >= |log| ==> graph == old(graph)
      ensures Agrees(m, log, old(graph)) ==> graph == Graph(|log|, Fold(m, log))
    {
      if Agrees(m, log, graph) {
        CatchUpIsFold(m, log, graph);
      }
      applied := 0;
      while graph.head < |log|
        invariant CatchUp(m, graph, log) == CatchUp(m, old(graph), log)
        invariant applied == graph.head - old(graph.head)
        invariant graph.head <= |log| || graph == old(graph)
        decreases |log| - graph.head
      {
        graph := Graph(graph.head + 1, m.apply(graph.content, log[graph.head]));
        applied := applied + 1;
      }
    }

    method RestoreIfStale() returns (restored: bool)
      modifies this`graph
      ensures graph == Restored(old(graph), files)
      ensures restored <==> Latest(files).Some? && Latest(files).value.head > old(graph.head)
      ensures graph == if restored then Latest(files).value.file.content else old(graph)
    {
      var newest := Latest(files);
      restored := false;
      if newest.Some? && newest.value.head > graph.head {
        graph := newest.value.file.content;
        restored := true;
      }
    }

    /** Write a snapshot under the graph's head, or nothing when that name is taken. */
    method WriteSnapshot(at: nat) returns (written: bool)
      requires at <= |files|
      modifies this`files
      ensures files == TakeSnapshot(graph, old(files), at)
      ensures written <==> !HasFile(old(files), Filename(graph.head))
      ensures written <==> forall f :: f in old(files) ==> f.name != Filename(graph.head)
      ensures exists f :: f in files && f.name == Filename(graph.head)
      ensures written ==>
                && |files| == |old(files)| + 1 && files[at] == File(Filename(graph.head), graph)
                && files[..at] == old(files)[..at] && files[at + 1..] == old(files)[at..]
      ensures !written ==> files == old(files)
    {
      var name := Filename(graph.head);
      var taken := false;
      for i := 0 to |files|
        invariant taken <==> HasFile(files[..i], name)
      {
        assert HasFile(files[..i + 1], name) <==> HasFile(files[..i], name) || files[i].name == name by {
          assert files[..i + 1] == files[..i] + [files[i]];
        }
        taken := taken || files[i].name == name;
      }
      assert files[..|files|] == files;
      written := !taken;
      if written {
        files := files[..at] + [File(name, graph)] + files[at..];
        assert files[at].name == name;
      }
    }

    method BootUp(snapshotsOn: bool, written: seq<E>)
      requires |log| + |written| <= I64_MAX
      modifies this`log, this`graph
      ensures State(log, graph, files) == Boot(m, old(State(log, graph, files)), snapshotsOn, written)
      ensures log == old(log) + written
      ensures old(Inv(m, State(log, graph, files))) ==> graph == Graph(|log|, Fold(m, log))
    {
      if Inv(m, State(log, graph, files)) {
        BootAgrees(m, State(log, graph, files), snapshotsOn, written);
      }
      if snapshotsOn {
        var _ := RestoreIfStale();
      }
      log := log + written;
      var _ := MaterializeFrom();
    }
  }
}
