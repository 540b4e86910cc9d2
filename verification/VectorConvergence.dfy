/**
 When a caught-up vector index is what one rebuild of the log produces: exactly which blank texts,
 which lookups of names and which backfills keep it from being so, and what a revert leaves behind
 when it stops between cutting the log and removing the vectors.
 */
module VectorConvergence {
  import opened Wrappers
  import opened VectorIndexing

  /** The index one uninterrupted rebuild of the whole log produces under the names of its moment. */
  function Rebuilt<V>(embed: Embedder<V>, model: ModelId, names: Names, log: seq<Payload>): map<VectorKey, Vector<V>> {
    Patched(embed, model, map[], OpsOf(names, log), Keys(OpsOf(names, log)))
  }

  lemma RebuiltAt<V>(embed: Embedder<V>, model: ModelId, names: Names, log: seq<Payload>, k: VectorKey)
    ensures At(Rebuilt(embed, model, names, log), k) == Wanted(embed, model, names, log, k)
  {
    FullyPatchedAt(embed, model, map[], OpsOf(names, log), k);
  }

  lemma SameAtEveryKey<V(!new)>(a: map<VectorKey, Vector<V>>, b: map<VectorKey, Vector<V>>)
    requires forall k :: At(a, k) == At(b, k)
    ensures a == b
  {
    assert forall k :: k in a <==> At(a, k).Some?;
    assert forall k :: k in b <==> At(b, k).Some?;
    assert a.Keys == b.Keys;
  }

  // ---------------------------------------------------------------------------------------------
  // Convergence
  // ---------------------------------------------------------------------------------------------

  /** A run from a fresh instance that ends ready, with every event read. */
  ghost predicate CaughtUpRun<V>(embed: Embedder<V>, start: State<V>, steps: seq<Step>, s: State<V>) {
    && start == Fresh<V>(start.log, start.configured)
    && Legal(embed, start, steps) && s == Exec(embed, start, steps)
    && s.phase.Ready? && s.cursor == |s.log|
  }

  /**
   Whatever crashed, re-ran, re-booted, swapped models or was backfilled on the way, a vector of a
   caught-up index is the one a rebuild stores, if no blank text follows it in the log and the steps
   since the last clearing agree with the rebuild on it.
   */
  lemma CatchUpConverges<V>(embed: Embedder<V>, names: Names, start: State<V>, steps: seq<Step>, s: State<V>,
                            k: VectorKey)
    requires CaughtUpRun(embed, start, steps, s)
    requires !BlankOver(names, s.log, k) && RunAgrees(embed, start, steps, names, s.log, k)
    ensures At(s.index, k) == At(Rebuilt(embed, s.configured, names, s.log), k)
  {
    hide OpsOf, LastOp, Rebuilt, RunAgrees, BlankOver, Legal, Exec;
    EmptyIsSettled(embed, names, s.log, start, k);
    FinalLogIsRead(embed, start, steps);
    EveryRunSettles(embed, start, steps, names, s.log, k);
    EveryRunKeepsSpace(embed, start, steps);
    RebuiltAt(embed, s.configured, names, s.log, k);
    NothingUnread(names, s.log, s, k);
  }

  lemma NothingUnread<V>(names: Names, log: seq<Payload>, s: State<V>, k: VectorKey)
    requires s.cursor == |log|
    ensures !Unread(names, log, s, k)
  {
    assert log[s.cursor..] == [];
  }

  /** When that is so of every vector, the whole index is the rebuild's. */
  lemma WholeIndexConverges<V(!new)>(embed: Embedder<V>, names: Names, start: State<V>, steps: seq<Step>, s: State<V>)
    requires CaughtUpRun(embed, start, steps, s)
    requires forall k :: !BlankOver(names, s.log, k) && RunAgrees(embed, start, steps, names, s.log, k)
    ensures s.index == Rebuilt(embed, s.configured, names, s.log)
  {
    hide CaughtUpRun, RunAgrees, BlankOver, Rebuilt, At;
    forall k ensures At(s.index, k) == At(Rebuilt(embed, s.configured, names, s.log), k) {
      CatchUpConverges(embed, names, start, steps, s, k);
    }
    SameAtEveryKey(s.index, Rebuilt(embed, s.configured, names, s.log));
  }

  ghost predicate BackfilledIn(steps: seq<Step>, k: VectorKey) {
    exists i :: 0 <= i < |steps| && steps[i].Backfill? && k in steps[i].texts
  }

  lemma {:induction false} PlainKeysAgree<V>(embed: Embedder<V>, s: State<V>, steps: seq<Step>, names: Names,
                                             log: seq<Payload>, k: VectorKey)
    requires Legal(embed, s, steps) && !k.EntryContextual? && !BackfilledIn(steps, k)
    ensures RunAgrees(embed, s, steps, names, log, k)
    decreases steps
  {
    if steps != [] {
      assert forall i :: 0 <= i < |steps[1..]| ==> steps[1..][i] == steps[i + 1];
      PlainKeysAgree(embed, Apply(embed, s, steps[0]), steps[1..], names, log, k);
    }
  }

  /** Descriptions and entry texts need no agreement: whatever the graph answered, they converge. */
  lemma PlainVectorsConverge<V>(embed: Embedder<V>, names: Names, start: State<V>, steps: seq<Step>, s: State<V>,
                                k: VectorKey)
    requires CaughtUpRun(embed, start, steps, s)
    requires !k.EntryContextual? && !BackfilledIn(steps, k) && !BlankOver(names, s.log, k)
    ensures At(s.index, k) == At(Rebuilt(embed, s.configured, names, s.log), k)
  {
    PlainKeysAgree(embed, start, steps, names, s.log, k);
    CatchUpConverges(embed, names, start, steps, s, k);
  }

  // ---------------------------------------------------------------------------------------------
  // Two catch-ups, each with its own names
  // ---------------------------------------------------------------------------------------------

  function TwoReads(first: Names, cut: nat, second: Names, end: nat): seq<Step> {
    [Reconcile(Description("")), CatchUp(first, cut), CatchUp(second, end)]
  }

  lemma ThreeSteps<V>(embed: Embedder<V>, s: State<V>, steps: seq<Step>)
    requires |steps| == 3 && Enabled(s, steps[0]) && Enabled(Apply(embed, s, steps[0]), steps[1])
    requires Enabled(Apply(embed, Apply(embed, s, steps[0]), steps[1]), steps[2])
    ensures Legal(embed, s, steps)
    ensures Exec(embed, s, steps) == Apply(embed, Apply(embed, Apply(embed, s, steps[0]), steps[1]), steps[2])
  {
    hide Apply, Enabled;
    assert steps[1..][0] == steps[1] && steps[1..][1..] == [steps[2]] && [steps[2]][1..] == [];
    var s1 := Apply(embed, s, steps[0]);
    var s2 := Apply(embed, s1, steps[1]);
    assert Legal(embed, s2, [steps[2]]) && Exec(embed, s2, [steps[2]]) == Apply(embed, s2, steps[2]);
    assert Legal(embed, s1, steps[1..]) && Exec(embed, s1, steps[1..]) == Apply(embed, s2, steps[2]);
  }

  /** What two catch-ups of a fresh instance, the first stopping at `cut`, leave at a vector. */
  lemma TwoReadsAt<V>(embed: Embedder<V>, log: seq<Payload>, model: ModelId, first: Names, cut: nat, second: Names,
                      k: VectorKey) returns (s: State<V>)
    requires cut <= |log|
    ensures CaughtUpRun(embed, Fresh<V>(log, model), TwoReads(first, cut, second, |log|), s)
    ensures s.log == log && s.configured == model
    ensures At(s.index, k) ==
            Changed(embed, model, Wanted(embed, model, first, log[..cut], k), LastOp(OpsOf(second, log[cut..]), k))
  {
    hide OpsOf, LastOp, Patched, Keys, Legal, Exec;
    var steps := TwoReads(first, cut, second, |log|);
    var s1 := Apply(embed, Fresh<V>(log, model), steps[0]);
    var s2 := Apply(embed, s1, steps[1]);
    s := Apply(embed, s2, steps[2]);
    ThreeSteps(embed, Fresh<V>(log, model), steps);
    assert log[0..cut] == log[..cut] && log[cut..|log|] == log[cut..];
    FullyPatchedAt(embed, model, s1.index, OpsOf(first, log[..cut]), k);
    FullyPatchedAt(embed, model, s2.index, OpsOf(second, log[cut..]), k);
  }

  // ---------------------------------------------------------------------------------------------
  // Blank texts
  // ---------------------------------------------------------------------------------------------

  /** A description regenerated to blank text is the shortest log with a blank over a vector. */
  lemma BlankedDescription(names: Names, memory: string)
    ensures BlankOver(names, [DescriptionRegenerated(memory, "a"), DescriptionRegenerated(memory, " ")],
                      Description(memory))
  {
    var a, b := DescriptionRegenerated(memory, "a"), DescriptionRegenerated(memory, " ");
    assert [a, b] == [a] + [b] && [a][..0] == [] && [b][..0] == [];
    OpsOfSplit(names, [a], [b]);
    var ops := OpsOf(names, [a, b]);
    assert ops == [Op(Description(memory), Embed("a")), Op(Description(memory), Embed(" "))];
    assert !Blank("a") by {
      assert !IsSpace("a"[0]);
    }
    assert EndsBlank(ops, Description(memory)) && EverWritten(ops, Description(memory)) by {
      assert ops[0].key == Description(memory) && Writes(ops[0].pending);
    }
  }

  lemma {:induction false} WrittenByAnEvent(names: Names, log: seq<Payload>, k: VectorKey) returns (i: nat)
    requires EverWritten(OpsOf(names, log), k)
    ensures i < |log|
    ensures LastOp(OpsOf(names, log[..i + 1]), k).Some? && Writes(LastOp(OpsOf(names, log[..i + 1]), k).value)
    decreases log
  {
    hide EventOps, LastOp;
    var n := |log| - 1;
    var front, last := OpsOf(names, log[..n]), EventOps(names, log[n]);
    var all: seq<Op> := front + last;
    var j :| 0 <= j < |all| && all[j].key == k && Writes(all[j].pending);
    if j < |front| {
      assert front[j] == all[j];
      i := WrittenByAnEvent(names, log[..n], k);
      assert log[..n][..i + 1] == log[..i + 1];
    } else {
      assert last[j - |front|] == all[j];
      i := n;
      assert log[..n + 1] == log;
      LastOpOfEvent(names, log[n], j - |front|);
      LastOpSplit(front, last, k);
    }
  }

  /** An event writes each vector at most once. */
  lemma LastOpOfEvent(names: Names, p: Payload, j: nat)
    requires j < |EventOps(names, p)| && Writes(EventOps(names, p)[j].pending)
    ensures LastOp(EventOps(names, p), EventOps(names, p)[j].key) == Some(EventOps(names, p)[j].pending)
  {
    if p.MemorySuperseded? || p.EntryRetracted? {
      DropsOnly([p.entry], j);
    } else if p.EntriesConsolidated? {
      DropsOnly(p.sources, j);
    } else {
      var ops := EventOps(names, p);
      assert |ops| <= 2;
      if |ops| == 2 {
        assert ops[..1][..0] == [];
      }
    }
  }

  lemma {:induction false} DropsOnly(sources: seq<string>, j: nat)
    requires j < |DropEntries(sources)|
    ensures DropEntries(sources)[j].pending.Remove?
    decreases sources
  {
    if j >= 2 {
      DropsOnly(sources[1..], j - 2);
    }
  }

  /**
   The condition on blanks is exact: when a blank text does follow a written vector, two ordinary
   catch-ups, the first ending right after the write, leave a vector that a rebuild would not have,
   whatever names any of the three looked up.
   */
  lemma BlankOverVectorDiverges<V>(embed: Embedder<V>, names: Names, first: Names, second: Names, log: seq<Payload>,
                                   model: ModelId, k: VectorKey) returns (cut: nat, s: State<V>)
    requires BlankOver(names, log, k)
    ensures CaughtUpRun(embed, Fresh<V>(log, model), TwoReads(first, cut, second, |log|), s)
    ensures s.log == log && s.configured == model
    ensures k in s.index && k !in Rebuilt(embed, model, names, log)
  {
    hide OpsOf, LastOp, Keys, Patched, Rebuilt, EverWritten, CaughtUpRun;
    ContextualLastIsNotBlank(names, log, k);
    var i := WrittenByAnEvent(names, log, k);
    cut := i + 1;
    PlainKeysIgnoreNames(names, first, log[..cut], k);
    PlainKeysIgnoreNames(names, second, log[cut..], k);
    SplitAtCursor(names, log, cut, k);
    s := TwoReadsAt(embed, log, model, first, cut, second, k);
    RebuiltAt(embed, model, names, log, k);
  }

  // ---------------------------------------------------------------------------------------------
  // Names that differ
  // ---------------------------------------------------------------------------------------------

  /** Event `i` appends its entry and no other does: entry ids are minted once. */
  ghost predicate AppendedOnce(log: seq<Payload>, i: nat) {
    && i < |log| && log[i].ContentAppended?
    && (forall j :: 0 <= j < |log| && j != i ==> !AppendsTo(log[j], EntryContextual(log[i].entry)))
  }

  /** ... and the entry is still live at the end of the log. */
  ghost predicate Stands(log: seq<Payload>, i: nat) {
    AppendedOnce(log, i) && !DroppedAfter(log, i, EntryContextual(log[i].entry))
  }

  /** The contextual vector of an entry appended by `p` under the memory's name, if it has one. */
  function Contextual<V>(embed: Embedder<V>, model: ModelId, names: Names, p: Payload): Option<Vector<V>>
    requires p.ContentAppended?
  {
    match NameOf(names, p.memory)
    case None => None
    case Some(name) => Some(Vector(embed(model, ContextualText(name, p.text)), model))
  }

  lemma {:induction false} NoAppendNoVector(names: Names, events: seq<Payload>, k: VectorKey)
    requires k.EntryContextual? && forall j :: 0 <= j < |events| ==> !AppendsTo(events[j], k)
    ensures LastOp(OpsOf(names, events), k) in {None, Some(Pending.Remove)}
    ensures (forall j :: 0 <= j < |events| ==> !Drops(events[j], k)) ==> LastOp(OpsOf(names, events), k).None?
    decreases events
  {
    if events != [] {
      var n := |events| - 1;
      assert forall j :: 0 <= j < n ==> events[..n][j] == events[j];
      assert events == events[..n] + [events[n]];
      NoAppendNoVector(names, events[..n], k);
      LastOpOfPush(names, events[..n], events[n], k);
      ContextualAsk(names, events[n], k);
    }
  }

  /** The events up to a lone append store its vector under their names; those after it store nothing. */
  lemma LoneAppend<V>(embed: Embedder<V>, model: ModelId, names: Names, log: seq<Payload>, i: nat)
    requires Stands(log, i)
    ensures var k := EntryContextual(log[i].entry);
            && Wanted(embed, model, names, log[..i + 1], k) == Contextual(embed, model, names, log[i])
            && LastOp(OpsOf(names, log[i + 1..]), k).None?
            && Wanted(embed, model, names, log, k) == Contextual(embed, model, names, log[i])
  {
    hide OpsOf, LastOp, EventOps;
    var k := EntryContextual(log[i].entry);
    assert log[..i + 1] == log[..i] + [log[i]];
    NoAppendNoVector(names, log[..i], k);
    NoAppendNoVector(names, log[i + 1..], k);
    LastOpOfPush(names, log[..i], log[i], k);
    ContextualAsk(names, log[i], k);
    SplitAtCursor(names, log, i + 1, k);
    if log[i].memory in names {
      ContextualIsNotBlank(names[log[i].memory], log[i].text);
    }
  }

  /**
   The vector an index keeps follows the names of the batch that read the append, whatever later
   batches look up; the rebuild's follows the rebuild's.
   */
  lemma ContextualFollowsItsBatch<V>(embed: Embedder<V>, names: Names, first: Names, second: Names, log: seq<Payload>,
                                     model: ModelId, i: nat) returns (s: State<V>)
    requires Stands(log, i)
    ensures CaughtUpRun(embed, Fresh<V>(log, model), TwoReads(first, i + 1, second, |log|), s)
    ensures s.log == log && s.configured == model
    ensures var k := EntryContextual(log[i].entry);
            && At(s.index, k) == Contextual(embed, model, first, log[i])
            && At(Rebuilt(embed, model, names, log), k) == Contextual(embed, model, names, log[i])
  {
    hide OpsOf, LastOp, Rebuilt, CaughtUpRun;
    var k := EntryContextual(log[i].entry);
    s := TwoReadsAt(embed, log, model, first, i + 1, second, k);
    LoneAppend(embed, model, first, log, i);
    LoneAppend(embed, model, second, log, i);
    LoneAppend(embed, model, names, log, i);
    RebuiltAt(embed, model, names, log, k);
  }

  /** No two texts share an embedding. */
  ghost predicate TellsApart<V>(embed: Embedder<V>, model: ModelId) {
    forall t, t' :: embed(model, t) == embed(model, t') ==> t == t'
  }

  lemma ContextualTellsNames<V>(embed: Embedder<V>, model: ModelId, a: Names, b: Names, p: Payload)
    requires TellsApart(embed, model) && p.ContentAppended?
    ensures Contextual(embed, model, a, p) == Contextual(embed, model, b, p) <==>
            NameOf(a, p.memory) == NameOf(b, p.memory)
  {
    if p.memory in a && p.memory in b && embed(model, ContextualText(a[p.memory], p.text)) ==
                                         embed(model, ContextualText(b[p.memory], p.text)) {
      var x, y, rest := a[p.memory], b[p.memory], ": " + p.text;
      assert ContextualText(x, p.text) == x + rest && ContextualText(y, p.text) == y + rest;
      assert x == (x + rest)[..|x|] && y == (y + rest)[..|y|];
    }
  }

  /** A run that looks names up in graphs of `graphs` only, and backfills nothing. */
  ghost predicate LooksUpIn(steps: seq<Step>, graphs: iset<Names>) {
    forall i :: 0 <= i < |steps| ==> !steps[i].Backfill? && (IsBatchStep(steps[i]) ==> steps[i].names in graphs)
  }

  /** Every run over the log that does so ends with the rebuild's vector at `k`. */
  ghost predicate AlwaysConverges<V(!new)>(embed: Embedder<V>, names: Names, graphs: iset<Names>, log: seq<Payload>,
                                           model: ModelId, k: VectorKey)
  {
    forall start: State<V>, steps, s: State<V> ::
      CaughtUpRun(embed, start, steps, s) && LooksUpIn(steps, graphs) && s.log == log && s.configured == model ==>
        At(s.index, k) == At(Rebuilt(embed, model, names, log), k)
  }

  /** The entry was dropped again, or every graph names its memory as the rebuild does. */
  ghost predicate NamedAlikeWhileLive(names: Names, graphs: iset<Names>, log: seq<Payload>, i: nat)
    requires AppendedOnce(log, i)
  {
    || DroppedAfter(log, i, EntryContextual(log[i].entry))
    || forall g :: g in graphs ==> NameOf(g, log[i].memory) == NameOf(names, log[i].memory)
  }

  /**
   Exactly which lookups a contextual vector converges under: while the entry is live, those that name
   its memory as the rebuild does. One graph that lags, renames the memory or has deleted it is enough
   for a run that diverges.
   */
  lemma ContextualConvergesIff<V(!new)>(embed: Embedder<V>, names: Names, graphs: iset<Names>, log: seq<Payload>,
                                        model: ModelId, i: nat)
    requires AppendedOnce(log, i) && TellsApart(embed, model)
    ensures AlwaysConverges(embed, names, graphs, log, model, EntryContextual(log[i].entry)) <==>
            NamedAlikeWhileLive(names, graphs, log, i)
  {
    hide CaughtUpRun, TellsApart, Rebuilt, At, NameOf;
    var k := EntryContextual(log[i].entry);
    if NamedAlikeWhileLive(names, graphs, log, i) {
      forall start: State<V>, steps, s: State<V> |
        CaughtUpRun(embed, start, steps, s) && LooksUpIn(steps, graphs) && s.log == log && s.configured == model
        ensures At(s.index, k) == At(Rebuilt(embed, model, names, log), k)
      {
        AgreeingRunConverges(embed, names, graphs, start, steps, s, i);
      }
    } else {
      var g :| g in graphs && NameOf(g, log[i].memory) != NameOf(names, log[i].memory);
      var s := ContextualFollowsItsBatch(embed, names, g, g, log, model, i);
      ContextualTellsNames(embed, model, g, names, log[i]);
      var steps := TwoReads(g, i + 1, g, |log|);
      assert LooksUpIn(steps, graphs);
      assert At(s.index, k) != At(Rebuilt(embed, model, names, log), k);
    }
  }

  lemma AgreeingRunConverges<V>(embed: Embedder<V>, names: Names, graphs: iset<Names>, start: State<V>,
                                steps: seq<Step>, s: State<V>, i: nat)
    requires CaughtUpRun(embed, start, steps, s) && LooksUpIn(steps, graphs)
    requires AppendedOnce(s.log, i) && NamedAlikeWhileLive(names, graphs, s.log, i)
    ensures var k := EntryContextual(s.log[i].entry);
            At(s.index, k) == At(Rebuilt(embed, s.configured, names, s.log), k)
  {
    var k := EntryContextual(s.log[i].entry);
    AgreeingRun(embed, names, graphs, start, steps, s.log, i);
    ContextualLastIsNotBlank(names, s.log, k);
    CatchUpConverges(embed, names, start, steps, s, k);
  }

  lemma {:induction false} AgreeingRun<V>(embed: Embedder<V>, names: Names, graphs: iset<Names>, s: State<V>,
                                          steps: seq<Step>, log: seq<Payload>, i: nat)
    requires Legal(embed, s, steps) && LooksUpIn(steps, graphs)
    requires AppendedOnce(log, i) && NamedAlikeWhileLive(names, graphs, log, i)
    ensures RunAgrees(embed, s, steps, names, log, EntryContextual(log[i].entry))
    decreases steps
  {
    if steps != [] {
      hide Apply, NameOf, ClearsIn, OpsOf, LastOp, DroppedAfter;
      assert forall j :: 0 <= j < |steps[1..]| ==> steps[1..][j] == steps[j + 1];
      AgreeingRun(embed, names, graphs, Apply(embed, s, steps[0]), steps[1..], log, i);
    }
  }

  /** What the two events of the inputs below ask of a plain vector is no blank text. */
  lemma NoBlankAsked(p: Payload, k: VectorKey)
    requires p in {ContentAppended("m", "e", "a"), MemoryDeleted("m")}
    ensures LastOp(EventOps(map[], p), k) in {None, Some(Pending.Remove), Some(Embed("a"))}
    ensures !Blank("a")
  {
    assert !IsSpace("a"[0]);
  }

  /** Neither input has a blank text anywhere. */
  lemma OneAppendHasNoBlank(names: Names, rest: seq<Payload>, k: VectorKey)
    requires rest == [] || rest == [MemoryDeleted("m")]
    ensures !BlankOver(names, [ContentAppended("m", "e", "a")] + rest, k)
  {
    hide OpsOf, LastOp, EventOps, Blank;
    var p, q := ContentAppended("m", "e", "a"), MemoryDeleted("m");
    ContextualLastIsNotBlank(names, [p] + rest, k);
    if !k.EntryContextual? {
      assert [p] == [] + [p] && [p] + [] == [p];
      NothingToRead(names, k);
      LastOpOfPush(names, [], p, k);
      LastOpOfPush(names, [p], q, k);
      PlainEventIgnoresNames(names, p, k);
      PlainEventIgnoresNames(names, q, k);
      NoBlankAsked(p, k);
      NoBlankAsked(q, k);
    }
  }

  /**
   An append is committed before the graph has read it, and the indexer may tick in between: it finds
   no name, writes no contextual vector and moves on, where a rebuild has one.
   */
  lemma IndexerAheadOfTheGraph<V>(embed: Embedder<V>, model: ModelId) returns (s: State<V>)
    ensures var log, names := [ContentAppended("m", "e", "a")], map["m" := "n"];
            && CaughtUpRun(embed, Fresh<V>(log, model), TwoReads(map[], 1, names, 1), s)
            && s.log == log && (forall k :: !BlankOver(names, log, k))
            && EntryContextual("e") !in s.index
            && EntryContextual("e") in Rebuilt(embed, s.configured, names, log)
  {
    hide Rebuilt, CaughtUpRun, BlankOver;
    var log, names := [ContentAppended("m", "e", "a")], map["m" := "n"];
    assert log == log + [];
    forall k ensures !BlankOver(names, log, k) { OneAppendHasNoBlank(names, [], k); }
    s := ContextualFollowsItsBatch(embed, names, map[], names, log, model, 0);
  }

  /** The graph answers for no deleted memory, so a rebuild drops a vector that a caught-up index keeps. */
  lemma DeletedMemoryKeepsItsContext<V>(embed: Embedder<V>, model: ModelId) returns (s: State<V>)
    ensures var log, before := [ContentAppended("m", "e", "a"), MemoryDeleted("m")], map["m" := "n"];
            && CaughtUpRun(embed, Fresh<V>(log, model), TwoReads(before, 1, map[], 2), s)
            && s.log == log && (forall k :: !BlankOver(map[], log, k))
            && EntryContextual("e") in s.index
            && EntryContextual("e") !in Rebuilt(embed, s.configured, map[], log)
  {
    hide Rebuilt, CaughtUpRun, BlankOver;
    var log, before := [ContentAppended("m", "e", "a"), MemoryDeleted("m")], map["m" := "n"];
    assert log == [ContentAppended("m", "e", "a")] + [MemoryDeleted("m")];
    forall k ensures !BlankOver(map[], log, k) { OneAppendHasNoBlank(map[], [MemoryDeleted("m")], k); }
    s := ContextualFollowsItsBatch(embed, map[], before, map[], log, model, 0);
  }

  /** Exactly which backfills keep a settled vector so. */
  lemma BackfillKeepsSettledIff<V>(embed: Embedder<V>, names: Names, log: seq<Payload>, s: State<V>,
                                   texts: map<VectorKey, Text>, k: VectorKey)
    requires OneSpace(s) && s.phase.Ready? && SettledAt(embed, names, log, s, k) && TellsApart(embed, s.space)
    ensures SettledAt(embed, names, log, Apply(embed, s, Backfill(texts)), k) <==>
            StepAgrees(s, Backfill(texts), names, log, k)
  {
    hide OpsOf, LastOp;
    var s' := Apply(embed, s, Backfill(texts));
    assert Unread(names, log, s', k) == Unread(names, log, s, k);
    if k in texts {
      assert At(s'.index, k) == Some(Vector(embed(s.space, texts[k]), s.space));
    } else {
      assert At(s'.index, k) == At(s.index, k);
    }
  }

  // ---------------------------------------------------------------------------------------------
  // A revert that stops after cutting the log, before the vectors are removed
  // ---------------------------------------------------------------------------------------------

  /** The index after reading what lies past the cursor: nothing, when the cursor is past the log itself. */
  function CaughtUp<V>(embed: Embedder<V>, names: Names, s: State<V>, log: seq<Payload>): map<VectorKey, Vector<V>> {
    if s.cursor <= |log| then
      var ops := OpsOf(names, log[s.cursor..]);
      Patched(embed, s.space, s.index, ops, Keys(ops))
    else s.index
  }

  /** After the stop, with `more` appended to the cut log, the vector is indexed as a rebuild would. */
  ghost predicate Recovers<V>(embed: Embedder<V>, names: Names, s: State<V>, to: nat, more: seq<Payload>, k: VectorKey)
    requires to <= |s.log|
  {
    var log := s.log[..to] + more;
    !BlankOver(names, log, k) ==>
      At(CaughtUp(embed, names, s, log), k) == At(Rebuilt(embed, s.space, names, log), k)
  }

  /**
   What the index must hold for that: nothing that only the events cut away account for, in whole
   batches or in parts of them.
   */
  ghost predicate Recoverable<V>(embed: Embedder<V>, names: Names, log: seq<Payload>, s: State<V>, k: VectorKey) {
    && (BlankOver(names, log, k) || SettledAt(embed, names, log, s, k))
    && (k in s.index ==> k.EntryContextual? || EverWritten(OpsOf(names, log), k))
  }

  /**
   If the revert stops there, every vector is indexed as a rebuild would under whatever is appended
   later exactly when the cursor is not past the cut and every stored vector is one the cut log
   accounts for. Nothing is asked of how the index came about.
   */
  lemma StoppedRevertRecoversIff<V(!new)>(embed: Embedder<V>, names: Names, s: State<V>, to: nat)
    requires to <= |s.log|
    ensures (s.cursor <= to && forall k :: Recoverable(embed, names, s.log[..to], s, k)) <==>
            (forall more, k :: Recovers(embed, names, s, to, more, k))
  {
    hide Recovers, Recoverable;
    if s.cursor <= to && forall k :: Recoverable(embed, names, s.log[..to], s, k) {
      forall more, k ensures Recovers(embed, names, s, to, more, k) {
        RecoverableRecovers(embed, names, s, to, more, k);
      }
    } else if s.cursor <= to {
      var k :| !Recoverable(embed, names, s.log[..to], s, k);
      var more := UnaccountedShows(embed, names, s, to, k);
      assert !Recovers(embed, names, s, to, more, k);
    } else {
      var p, k := SkippedEvent(embed, names, s, to);
      assert !Recovers(embed, names, s, to, [p], k);
    }
  }

  /**
   Then the vector is settled for every longer log, so every later run, with its crashes, model
   changes and names, is one `EveryRunSettles` speaks of.
   */
  lemma RecoverableStaysSettled<V>(embed: Embedder<V>, names: Names, log: seq<Payload>, more: seq<Payload>, s: State<V>,
                                   k: VectorKey)
    requires s.cursor <= |log| && Recoverable(embed, names, log, s, k) && !BlankOver(names, log + more, k)
    ensures SettledAt(embed, names, log + more, s, k)
  {
    hide OpsOf, LastOp, EverWritten;
    var all := log + more;
    assert all[..|log|] == log && all[|log|..] == more && all[s.cursor..] == log[s.cursor..] + more;
    SplitAtCursor(names, all, |log|, k);
    OpsOfSplit(names, log[s.cursor..], more);
    LastOpSplit(OpsOf(names, log[s.cursor..]), OpsOf(names, more), k);
    if LastOp(OpsOf(names, more), k).None? {
      if BlankOver(names, log, k) {
        WrittenStaysWritten(names, log, more, k);
      }
    } else if !Decides(LastOp(OpsOf(names, more), k)) {
      ContextualLastIsNotBlank(names, all, k);
      if k in s.index {
        WrittenStaysWritten(names, log, more, k);
      }
    }
  }

  lemma WrittenStaysWritten(names: Names, log: seq<Payload>, more: seq<Payload>, k: VectorKey)
    requires EverWritten(OpsOf(names, log), k)
    ensures EverWritten(OpsOf(names, log + more), k)
  {
    hide OpsOf;
    OpsOfSplit(names, log, more);
    EverWrittenGrows([], OpsOf(names, log), OpsOf(names, more), k);
    assert [] + OpsOf(names, log) + OpsOf(names, more) == OpsOf(names, log + more);
  }

  lemma RecoverableRecovers<V>(embed: Embedder<V>, names: Names, s: State<V>, to: nat, more: seq<Payload>,
                               k: VectorKey)
    requires s.cursor <= to <= |s.log| && Recoverable(embed, names, s.log[..to], s, k)
    ensures Recovers(embed, names, s, to, more, k)
  {
    hide OpsOf, LastOp, Patched, Keys, Rebuilt, Recoverable, BlankOver;
    var log := s.log[..to] + more;
    if !BlankOver(names, log, k) {
      RecoverableStaysSettled(embed, names, s.log[..to], more, s, k);
      CaughtUpAt(embed, names, s, log, k);
    }
  }

  /** Reading the rest of the log makes a settled vector the rebuild's. */
  lemma CaughtUpAt<V>(embed: Embedder<V>, names: Names, s: State<V>, log: seq<Payload>, k: VectorKey)
    requires SettledAt(embed, names, log, s, k) && !BlankOver(names, log, k)
    ensures At(CaughtUp(embed, names, s, log), k) == At(Rebuilt(embed, s.space, names, log), k)
  {
    hide OpsOf, LastOp, Patched, Keys, BlankOver, Rebuilt;
    assert log[s.cursor..|log|] == log[s.cursor..];
    CatchUpSettles(embed, names, names, log, s, |log|, k);
    NothingUnread(names, log, s.(cursor := |log|), k);
    RebuiltAt(embed, s.space, names, log, k);
  }

  /** A vector the cut log does not account for shows at once, or after a blank text for it. */
  lemma UnaccountedShows<V>(embed: Embedder<V>, names: Names, s: State<V>, to: nat, k: VectorKey)
      returns (more: seq<Payload>)
    requires s.cursor <= to <= |s.log| && !Recoverable(embed, names, s.log[..to], s, k)
    ensures !Recovers(embed, names, s, to, more, k)
  {
    var log := s.log[..to];
    if BlankOver(names, log, k) || SettledAt(embed, names, log, s, k) {
      var p := if k.Description? then DescriptionRegenerated(k.memory, "") else ContentAppended("", k.entry, "");
      more := [p];
      StaleUnderBlank(embed, names, s, to, p, k);
    } else {
      more := [];
      StaleShows(embed, names, s, to, k);
    }
  }

  lemma StaleShows<V>(embed: Embedder<V>, names: Names, s: State<V>, to: nat, k: VectorKey)
    requires s.cursor <= to <= |s.log| && !BlankOver(names, s.log[..to], k)
    requires !SettledAt(embed, names, s.log[..to], s, k)
    ensures !Recovers(embed, names, s, to, [], k)
  {
    hide OpsOf, LastOp, Patched, Keys, Rebuilt, BlankOver;
    var log := s.log[..to];
    assert log + [] == log;
    SplitAtCursor(names, log, s.cursor, k);
    RebuiltAt(embed, s.space, names, log, k);
    FullyPatchedAt(embed, s.space, s.index, OpsOf(names, log[s.cursor..]), k);
  }

  lemma BlankAsked(names: Names, p: Payload, k: VectorKey)
    requires !k.EntryContextual?
    requires p == if k.Description? then DescriptionRegenerated(k.memory, "") else ContentAppended("", k.entry, "")
    ensures LastOp(EventOps(names, p), k) == Some(Embed(""))
  {
    PlainEventIgnoresNames(names, p, k);
  }

  lemma StaleUnderBlank<V>(embed: Embedder<V>, names: Names, s: State<V>, to: nat, p: Payload, k: VectorKey)
    requires s.cursor <= to <= |s.log| && k in s.index && !k.EntryContextual?
    requires !EverWritten(OpsOf(names, s.log[..to]), k)
    requires p == if k.Description? then DescriptionRegenerated(k.memory, "") else ContentAppended("", k.entry, "")
    ensures !Recovers(embed, names, s, to, [p], k)
  {
    hide OpsOf, LastOp, Patched, Keys, Rebuilt, EventOps;
    var log := s.log[..to] + [p];
    BlankAsked(names, p, k);
    assert log[s.cursor..] == s.log[..to][s.cursor..] + [p];
    LastOpOfPush(names, s.log[..to], p, k);
    LastOpOfPush(names, s.log[..to][s.cursor..], p, k);
    RebuiltAt(embed, s.space, names, log, k);
    FullyPatchedAt(embed, s.space, s.index, OpsOf(names, log[s.cursor..]), k);
    if EverWritten(OpsOf(names, log), k) {
      WrittenByThePast(names, s.log[..to], p, k);
    }
  }

  /** A blank event writes nothing, so what was written was written before it. */
  lemma WrittenByThePast(names: Names, log: seq<Payload>, p: Payload, k: VectorKey)
    requires !k.EntryContextual?
    requires p == if k.Description? then DescriptionRegenerated(k.memory, "") else ContentAppended("", k.entry, "")
    requires EverWritten(OpsOf(names, log + [p]), k)
    ensures EverWritten(OpsOf(names, log), k)
  {
    hide OpsOf;
    OpsOfPush(names, log, p);
    var front, last := OpsOf(names, log), EventOps(names, p);
    var all: seq<Op> := front + last;
    assert forall j :: 0 <= j < |front| ==> all[j] == front[j];
    assert forall j :: |front| <= j < |all| ==> all[j] == last[j - |front|];
    var i :| 0 <= i < |all| && all[i].key == k && Writes(all[i].pending);
    assert front[i] == all[i];
  }

  /** When the cursor is past the cut the next event is not read, and there is one that shows it. */
  lemma SkippedEvent<V>(embed: Embedder<V>, names: Names, s: State<V>, to: nat) returns (p: Payload, k: VectorKey)
    requires to <= |s.log| && to < s.cursor
    ensures !Recovers(embed, names, s, to, [p], k)
  {
    hide OpsOf, LastOp, Patched, Keys, Rebuilt, EventOps, CaughtUp;
    if s.index == map[] {
      k := Description("");
      p := DescriptionRegenerated("", "a");
    } else {
      k :| k in s.index;
      p := match k
        case Description(memory) => MemoryDeleted(memory)
        case EntryText(entry) => EntryRetracted(entry)
        case EntryContextual(entry) => EntryRetracted(entry);
    }
    var log := s.log[..to] + [p];
    WitnessDecides(names, p, k);
    LastOpOfPush(names, s.log[..to], p, k);
    RebuiltAt(embed, s.space, names, log, k);
    UnreadTail(embed, names, s, log);
  }

  lemma WitnessDecides(names: Names, p: Payload, k: VectorKey)
    requires match k
             case Description(memory) => p == MemoryDeleted(memory) || p == DescriptionRegenerated(memory, "a")
             case EntryText(entry) => p == EntryRetracted(entry)
             case EntryContextual(entry) => p == EntryRetracted(entry)
    ensures LastOp(EventOps(names, p), k) == Some(if p.DescriptionRegenerated? then Embed("a") else Pending.Remove)
    ensures !Blank("a")
  {
    assert !IsSpace("a"[0]);
    if p.EntryRetracted? {
      DropEntriesAt([p.entry], k);
    }
  }

  lemma UnreadTail<V>(embed: Embedder<V>, names: Names, s: State<V>, log: seq<Payload>)
    requires |log| <= s.cursor
    ensures CaughtUp(embed, names, s, log) == s.index
  {
    if s.cursor <= |log| {
      assert log[s.cursor..] == [];
      assert Patched(embed, s.space, s.index, [], {}) == s.index;
    }
  }

  /**
   A batch cut short before its cursor moved leaves a vector of an event that the revert then cuts
   away: the cursor is not past the cut, and the vector stays for good.
   */
  lemma CutShortBatchOutlivesTheRevert<V>(embed: Embedder<V>, names: Names, model: ModelId) returns (s: State<V>)
    ensures var start := Fresh<V>([DescriptionRegenerated("m", "a")], model);
            var steps := [Reconcile(Description("m")), CrashIn(names, 1, {Description("m")})];
            Legal(embed, start, steps) && s == Exec(embed, start, steps)
    ensures s.cursor == 0 && !Recovers(embed, names, s, 0, [], Description("m"))
  {
    hide Legal, Exec, OpsOf, LastOp, Patched, EventOps;
    var p, k := DescriptionRegenerated("m", "a"), Description("m");
    var start := Fresh<V>([p], model);
    var ready := Apply(embed, start, Reconcile(k));
    var crash := CrashIn(names, 1, {k});
    s := Apply(embed, ready, crash);
    TwoSteps(embed, start, [Reconcile(k), crash]);
    assert start.log[0..1] == [p] == [] + [p];
    LastOpOfPush(names, [], p, k);
    WitnessDecides(names, p, k);
    PatchedAt(embed, model, map[], OpsOf(names, [p]), {k}, k);
    NothingToRead(names, k);
    assert s.log[..0] == [];
    StaleShows(embed, names, s, 0, k);
  }

  lemma TwoSteps<V>(embed: Embedder<V>, s: State<V>, steps: seq<Step>)
    requires |steps| == 2 && Enabled(s, steps[0]) && Enabled(Apply(embed, s, steps[0]), steps[1])
    ensures Legal(embed, s, steps)
    ensures Exec(embed, s, steps) == Apply(embed, Apply(embed, s, steps[0]), steps[1])
  {
    hide Apply, Enabled;
    var s1 := Apply(embed, s, steps[0]);
    assert steps[1..] == [steps[1]] && [steps[1]][1..] == [];
    assert Legal(embed, s1, [steps[1]]) && Exec(embed, s1, [steps[1]]) == Apply(embed, s1, steps[1]);
  }

  // ---------------------------------------------------------------------------------------------
  // Runs whose batches never read past the cut
  // ---------------------------------------------------------------------------------------------

  /** Since the index was last cleared, no batch, cut short or not, read past `to`. */
  ghost predicate ReadsBelow(steps: seq<Step>, to: nat) {
    forall i :: 0 <= i < |steps| && IsBatchStep(steps[i]) ==> steps[i].upTo <= to || ClearsIn(steps[i + 1..])
  }

  lemma {:induction false} BelowTheCut<V>(embed: Embedder<V>, s: State<V>, steps: seq<Step>, log: seq<Payload>,
                                          cut: seq<Payload>, to: nat)
    requires Legal(embed, s, steps) && RunReads(embed, s, steps, log) && ReadsBelow(steps, to)
    requires to <= |log| && to <= |cut| && log[..to] == cut[..to]
    ensures RunReads(embed, s, steps, cut)
    decreases steps
  {
    if steps != [] {
      hide Apply, ClearsIn;
      var step, rest := steps[0], steps[1..];
      forall i | 0 <= i < |rest| && IsBatchStep(rest[i]) ensures rest[i].upTo <= to || ClearsIn(rest[i + 1..]) {
        assert rest[i] == steps[i + 1] && rest[i + 1..] == steps[i + 2..];
      }
      BelowTheCut(embed, Apply(embed, s, step), rest, log, cut, to);
      if IsBatchStep(step) && step.upTo <= to && StepReads(s, step, log) {
        assert log[..step.upTo] == log[..to][..step.upTo] == cut[..step.upTo];
      }
    }
  }

  /**
   So a stopped revert does no harm after any run that read nothing past the cut: whatever is appended
   and whatever names were looked up, the vectors on which the run agrees with the rebuild recover.
   */
  lemma StoppedRevertRecovers<V>(embed: Embedder<V>, names: Names, start: State<V>, steps: seq<Step>, s: State<V>,
                                 to: nat, more: seq<Payload>, k: VectorKey)
    requires start == Fresh<V>(start.log, start.configured)
    requires Legal(embed, start, steps) && s == Exec(embed, start, steps)
    requires to <= |s.log| && ReadsBelow(steps, to)
    requires RunAgrees(embed, start, steps, names, s.log[..to] + more, k)
    ensures Recovers(embed, names, s, to, more, k)
  {
    hide OpsOf, LastOp, Rebuilt, CaughtUp, RunAgrees, RunReads, ReadsBelow, BlankOver, Legal, Exec, SettledAt;
    var log := s.log[..to] + more;
    if !BlankOver(names, log, k) {
      EmptyIsSettled(embed, names, log, start, k);
      FinalLogIsRead(embed, start, steps);
      assert s.log[..to] == log[..to];
      BelowTheCut(embed, start, steps, s.log, log, to);
      EveryRunSettles(embed, start, steps, names, log, k);
      CaughtUpAt(embed, names, s, log, k);
    }
  }
}
