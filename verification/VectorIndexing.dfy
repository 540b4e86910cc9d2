/**
 The vector index as a cursor-resumed projection of the log: which vectors each event writes or
 drops, how a batch coalesces them, and what becomes of the index when batches stop anywhere, the
 embedding model changes between boots, or the index is deleted and rebuilt.

 Embedding is a fixed function of model and text. The names of memories are not: every batch looks
 them up afresh in the graph of its moment, which may lag the log, rename or have deleted a memory.
 */
module VectorIndexing {
  import opened Wrappers

  type Text = string
  type ModelId = string

  type Embedder<V> = (ModelId, Text) -> V

  /** The names one batch looked up: the memories its graph knew, as it named them then. */
  type Names = map<string, string>

  datatype VectorKey =
    | Description(memory: string)
    | EntryText(entry: string)
    | EntryContextual(entry: string)

  datatype Payload =
    | ContentAppended(memory: string, entry: string, text: Text)
    | DescriptionRegenerated(memory: string, text: Text)
    | MemoryDeleted(memory: string)
    | MemorySuperseded(entry: string)
    | EntryRetracted(entry: string)
    | EntriesConsolidated(sources: seq<string>)
    | EmbeddingModelChanged(from: ModelId, to: ModelId)
    | Other(kind: string)

  /** One vector's change before embedding. */
  datatype Pending = Embed(text: Text) | Remove

  datatype Op = Op(key: VectorKey, pending: Pending)

  datatype Vector<V> = Vector(embedding: V, modelId: ModelId)

  predicate IsSpace(c: char) {
    c in {' ', '\t', '\n', '\r', '\U{000B}', '\U{000C}', '\U{0085}', '\U{00A0}', '\U{1680}',
          '\U{2028}', '\U{2029}', '\U{202F}', '\U{205F}', '\U{3000}'}
    || '\U{2000}' <= c <= '\U{200A}'
  }

  /** Nothing but white space: text the embedder is never asked about. */
  predicate Blank(t: Text) {
    forall i :: 0 <= i < |t| ==> IsSpace(t[i])
  }

  // ---------------------------------------------------------------------------------------------
  // From events to vector changes
  // ---------------------------------------------------------------------------------------------

  function NameOf(names: Names, memory: string): Option<string> {
    if memory in names then Some(names[memory]) else None
  }

  /** The text of an entry under its memory's name. */
  function ContextualText(name: string, text: Text): Text {
    name + ": " + text
  }

  function DropEntries(sources: seq<string>): seq<Op> {
    if sources == [] then []
    else [Op(EntryText(sources[0]), Remove), Op(EntryContextual(sources[0]), Remove)] + DropEntries(sources[1..])
  }

  function EventOps(names: Names, p: Payload): seq<Op> {
    match p
    case ContentAppended(id, entry, text) =>
      [Op(EntryText(entry), Embed(text))]
      + (match NameOf(names, id)
         case None => []
         case Some(name) => [Op(EntryContextual(entry), Embed(ContextualText(name, text)))])
    case DescriptionRegenerated(id, text) => [Op(Description(id), Embed(text))]
    case MemoryDeleted(id) => [Op(Description(id), Remove)]
    case MemorySuperseded(entry) => DropEntries([entry])
    case EntryRetracted(entry) => DropEntries([entry])
    case EntriesConsolidated(sources) => DropEntries(sources)
    case EmbeddingModelChanged(_, _) => []
    case Other(_) => []
  }

  function OpsOf(names: Names, events: seq<Payload>): seq<Op> {
    if events == [] then []
    else OpsOf(names, events[..|events| - 1]) + EventOps(names, events[|events| - 1])
  }

  lemma {:induction false} OpsOfSplit(names: Names, a: seq<Payload>, b: seq<Payload>)
    ensures OpsOf(names, a + b) == OpsOf(names, a) + OpsOf(names, b)
    decreases b
  {
    hide EventOps;
    if b == [] {
      assert a + b == a;
      assert OpsOf(names, b) == [];
    } else {
      var n := |b| - 1;
      OpsOfSplit(names, a, b[..n]);
      assert (a + b)[..|a + b| - 1] == a + b[..n];
      var x, y, z := OpsOf(names, a), OpsOf(names, b[..n]), EventOps(names, b[n]);
      assert (x + y) + z == x + (y + z);
    }
  }

  lemma NothingToRead(names: Names, k: VectorKey)
    ensures LastOp(OpsOf(names, []), k).None? && !EverWritten(OpsOf(names, []), k)
  {
  }

  lemma OpsOfPush(names: Names, log: seq<Payload>, p: Payload)
    ensures OpsOf(names, log + [p]) == OpsOf(names, log) + EventOps(names, p)
  {
    assert (log + [p])[..|log|] == log;
  }

  /** What the last change to `k` asks for, if anything touches it. */
  function LastOp(ops: seq<Op>, k: VectorKey): Option<Pending> {
    if ops == [] then None
    else if ops[|ops| - 1].key == k then Some(ops[|ops| - 1].pending)
    else LastOp(ops[..|ops| - 1], k)
  }

  lemma {:induction false} LastOpSplit(a: seq<Op>, b: seq<Op>, k: VectorKey)
    ensures LastOp(a + b, k) == if LastOp(b, k).Some? then LastOp(b, k) else LastOp(a, k)
    decreases b
  {
    if b == [] {
      assert a + b == a;
    } else {
      var n := |b| - 1;
      LastOpSplit(a, b[..n], k);
      assert (a + b)[..|a + b| - 1] == a + b[..n];
    }
  }

  lemma LastOpPush(ops: seq<Op>, op: Op, k: VectorKey)
    ensures LastOp(ops + [op], k) == if op.key == k then Some(op.pending) else LastOp(ops, k)
  {
    assert (ops + [op])[..|ops|] == ops;
  }

  lemma LastOpOfPush(names: Names, log: seq<Payload>, p: Payload, k: VectorKey)
    ensures LastOp(OpsOf(names, log + [p]), k) ==
            if LastOp(EventOps(names, p), k).Some? then LastOp(EventOps(names, p), k) else LastOp(OpsOf(names, log), k)
  {
    OpsOfPush(names, log, p);
    LastOpSplit(OpsOf(names, log), EventOps(names, p), k);
  }

  lemma SplitAtCursor(names: Names, log: seq<Payload>, cut: nat, k: VectorKey)
    requires cut <= |log|
    ensures LastOp(OpsOf(names, log), k) ==
            if LastOp(OpsOf(names, log[cut..]), k).Some? then LastOp(OpsOf(names, log[cut..]), k)
            else LastOp(OpsOf(names, log[..cut]), k)
  {
    assert log[..cut] + log[cut..] == log;
    OpsOfSplit(names, log[..cut], log[cut..]);
    LastOpSplit(OpsOf(names, log[..cut]), OpsOf(names, log[cut..]), k);
  }

  predicate Writes(p: Pending) {
    p.Embed? && !Blank(p.text)
  }

  /** The last change settles what is stored: a vector, or none. */
  predicate Decides(last: Option<Pending>) {
    last.Some? && (last.value.Remove? || Writes(last.value))
  }

  /** Some change among `ops` writes a vector under `k`. */
  ghost predicate EverWritten(ops: seq<Op>, k: VectorKey) {
    exists i :: 0 <= i < |ops| && ops[i].key == k && Writes(ops[i].pending)
  }

  lemma {:induction false} LastOpIsAnOp(ops: seq<Op>, k: VectorKey)
    ensures LastOp(ops, k).Some? ==>
              exists i :: 0 <= i < |ops| && ops[i].key == k && ops[i].pending == LastOp(ops, k).value
    ensures LastOp(ops, k).None? <==> forall i :: 0 <= i < |ops| ==> ops[i].key != k
    decreases ops
  {
    if ops != [] {
      var n := |ops| - 1;
      LastOpIsAnOp(ops[..n], k);
      if ops[n].key != k && LastOp(ops[..n], k).Some? {
        var i :| 0 <= i < n && ops[..n][i].key == k && ops[..n][i].pending == LastOp(ops[..n], k).value;
        assert ops[i] == ops[..n][i];
      } else if ops[n].key != k {
        assert forall i :: 0 <= i < n ==> ops[..n][i] == ops[i];
      }
    }
  }

  lemma EverWrittenGrows(a: seq<Op>, b: seq<Op>, c: seq<Op>, k: VectorKey)
    requires EverWritten(b, k)
    ensures EverWritten(a + b + c, k)
  {
    var i :| 0 <= i < |b| && b[i].key == k && Writes(b[i].pending);
    assert (a + b + c)[|a| + i] == b[i];
  }

  /** A key the log never writes is written by no stretch of it. */
  lemma NeverWrittenInside(names: Names, log: seq<Payload>, lo: nat, hi: nat, k: VectorKey)
    requires lo <= hi <= |log| && !EverWritten(OpsOf(names, log), k)
    ensures var last := LastOp(OpsOf(names, log[lo..hi]), k);
            last.Some? ==> !Writes(last.value)
  {
    hide LastOp, OpsOf, Writes;
    var a, b, c := OpsOf(names, log[..lo]), OpsOf(names, log[lo..hi]), OpsOf(names, log[hi..]);
    assert log == log[..hi] + log[hi..] && log[..hi] == log[..lo] + log[lo..hi];
    OpsOfSplit(names, log[..hi], log[hi..]);
    OpsOfSplit(names, log[..lo], log[lo..hi]);
    LastOpIsAnOp(b, k);
    if EverWritten(b, k) {
      EverWrittenGrows(a, b, c, k);
    }
  }

  // ---------------------------------------------------------------------------------------------
  // What an event asks of a vector, vector by vector
  // ---------------------------------------------------------------------------------------------

  /** White space by code point: the controls 9 to 13, the space, and Unicode's others. */
  lemma BlankMeans(t: Text)
    ensures Blank(t) <==>
            forall i :: 0 <= i < |t| ==>
              var c := t[i] as int;
              || 9 <= c <= 13 || 0x2000 <= c <= 0x200A
              || c in {0x20, 0x85, 0xA0, 0x1680, 0x2028, 0x2029, 0x202F, 0x205F, 0x3000}
  {
    forall c: char
      ensures IsSpace(c) <==>
              || 9 <= c as int <= 13 || 0x2000 <= c as int <= 0x200A
              || c as int in {0x20, 0x85, 0xA0, 0x1680, 0x2028, 0x2029, 0x202F, 0x205F, 0x3000}
    {
    }
  }

  /** The event speaks of the entry or the memory's description that the vector stands for. */
  predicate Concerns(p: Payload, k: VectorKey) {
    match k
    case Description(memory) => (p.DescriptionRegenerated? || p.MemoryDeleted?) && p.memory == memory
    case EntryText(entry) => SpeaksOf(p, entry)
    case EntryContextual(entry) => SpeaksOf(p, entry)
  }

  predicate SpeaksOf(p: Payload, entry: string) {
    || ((p.ContentAppended? || p.MemorySuperseded? || p.EntryRetracted?) && p.entry == entry)
    || (p.EntriesConsolidated? && entry in p.sources)
  }

  /**
   What one event asks of each vector. An entry's text is written by its append and by nothing else,
   and so is its contextual text when its memory has a name; both go with a supersession, a retraction
   or a consolidation naming it. A description is written by a regeneration and goes with its memory.
   */
  lemma EventAsks(names: Names, p: Payload, k: VectorKey)
    ensures LastOp(EventOps(names, p), k) ==
            match k
            case Description(memory) =>
              if p.DescriptionRegenerated? && p.memory == memory then Some(Embed(p.text))
              else if p.MemoryDeleted? && p.memory == memory then Some(Pending.Remove)
              else None
            case EntryText(entry) =>
              if p.ContentAppended? && p.entry == entry then Some(Embed(p.text))
              else if (p.MemorySuperseded? || p.EntryRetracted?) && p.entry == entry then Some(Pending.Remove)
              else if p.EntriesConsolidated? && entry in p.sources then Some(Pending.Remove)
              else None
            case EntryContextual(entry) =>
              if p.ContentAppended? && p.entry == entry && p.memory in names
              then Some(Embed(names[p.memory] + ": " + p.text))
              else if (p.MemorySuperseded? || p.EntryRetracted?) && p.entry == entry then Some(Pending.Remove)
              else if p.EntriesConsolidated? && entry in p.sources then Some(Pending.Remove)
              else None
  {
    hide LastOp, DropEntries;
    LastOpOfNone(k);
    match p
    case ContentAppended(id, entry, text) =>
      LastOpOfOne(Op(EntryText(entry), Embed(text)), k);
      assert [Op(EntryText(entry), Embed(text))] + [] == [Op(EntryText(entry), Embed(text))];
      if id in names {
        LastOpPush([Op(EntryText(entry), Embed(text))],
                   Op(EntryContextual(entry), Embed(ContextualText(names[id], text))), k);
      }
    case DescriptionRegenerated(id, text) => LastOpOfOne(Op(Description(id), Embed(text)), k);
    case MemoryDeleted(id) => LastOpOfOne(Op(Description(id), Pending.Remove), k);
    case MemorySuperseded(entry) => DropEntriesAt([entry], k);
    case EntryRetracted(entry) => DropEntriesAt([entry], k);
    case EntriesConsolidated(sources) => DropEntriesAt(sources, k);
    case _ =>
  }

  lemma LastOpOfNone(k: VectorKey)
    ensures LastOp([], k).None?
  {
  }

  lemma LastOpOfOne(op: Op, k: VectorKey)
    ensures LastOp([op], k) == if op.key == k then Some(op.pending) else None
  {
  }

  ghost predicate Mentioned(events: seq<Payload>, k: VectorKey) {
    exists i :: 0 <= i < |events| && Concerns(events[i], k)
  }

  /** Event `i` is the last of `events` to speak of what the vector stands for. */
  ghost predicate LastFor(events: seq<Payload>, i: int, k: VectorKey) {
    && 0 <= i < |events| && Concerns(events[i], k)
    && forall j :: i < j < |events| ==> !Concerns(events[j], k)
  }

  /** The last event to speak of a vector decides what a batch asks of it. */
  lemma {:induction false} LastEventAsks(names: Names, events: seq<Payload>, i: int, k: VectorKey)
    requires LastFor(events, i, k)
    ensures var p, last := events[i], LastOp(OpsOf(names, events), k);
            && (p.ContentAppended? && k.EntryText? ==> last == Some(Embed(p.text)))
            && (p.ContentAppended? && k.EntryContextual? && p.memory in names ==>
                  last == Some(Embed(names[p.memory] + ": " + p.text)))
            && (p.DescriptionRegenerated? ==> last == Some(Embed(p.text)))
            && (!p.ContentAppended? && !p.DescriptionRegenerated? ==> last == Some(Pending.Remove))
    decreases |events|
  {
    hide OpsOf, EventOps, LastOp;
    var n := |events| - 1;
    assert events == events[..n] + [events[n]];
    LastOpOfPush(names, events[..n], events[n], k);
    EventAsks(names, events[n], k);
    if i < n {
      LastEventAsks(names, events[..n], i, k);
    }
  }

  /** A batch asks nothing of a vector its events do not speak of. */
  lemma {:induction false} AskedIsSpokenOf(names: Names, events: seq<Payload>, k: VectorKey)
    ensures LastOp(OpsOf(names, events), k).Some? ==> Mentioned(events, k)
    ensures Mentioned(events, k) <==> exists i :: LastFor(events, i, k)
    decreases events
  {
    hide OpsOf, EventOps, LastOp, Concerns;
    if events == [] {
      NothingToRead(names, k);
    } else {
      var n := |events| - 1;
      assert events == events[..n] + [events[n]];
      LastOpOfPush(names, events[..n], events[n], k);
      NothingAsked(names, events[n], k);
      AskedIsSpokenOf(names, events[..n], k);
      if Concerns(events[n], k) {
        assert LastFor(events, n, k);
      } else if i :| LastFor(events[..n], i, k) {
        assert LastFor(events, i, k);
      } else {
        assert forall i :: 0 <= i < n ==> events[..n][i] == events[i];
      }
    }
  }

  lemma NothingAsked(names: Names, p: Payload, k: VectorKey)
    ensures LastOp(EventOps(names, p), k).Some? ==> Concerns(p, k)
  {
    hide EventOps, LastOp;
    EventAsks(names, p, k);
  }

  // ---------------------------------------------------------------------------------------------
  // What the names decide
  // ---------------------------------------------------------------------------------------------

  predicate AppendsTo(p: Payload, k: VectorKey) {
    p.ContentAppended? && k == EntryContextual(p.entry)
  }

  /** The event drops the contextual vector of its entry, whatever the memory is called. */
  predicate Drops(p: Payload, k: VectorKey) {
    match p
    case MemorySuperseded(entry) => k == EntryContextual(entry)
    case EntryRetracted(entry) => k == EntryContextual(entry)
    case EntriesConsolidated(sources) => k.EntryContextual? && k.entry in sources
    case _ => false
  }

  lemma {:induction false} DropEntriesAt(sources: seq<string>, k: VectorKey)
    ensures LastOp(DropEntries(sources), k) ==
            if !k.Description? && k.entry in sources then Some(Pending.Remove) else None
    decreases sources
  {
    if sources != [] {
      var e := sources[0];
      var first := [Op(EntryText(e), Pending.Remove), Op(EntryContextual(e), Pending.Remove)];
      DropEntriesAt(sources[1..], k);
      LastOpSplit(first, DropEntries(sources[1..]), k);
      assert first == [Op(EntryText(e), Pending.Remove)] + [Op(EntryContextual(e), Pending.Remove)];
      LastOpPush([Op(EntryText(e), Pending.Remove)], Op(EntryContextual(e), Pending.Remove), k);
      assert sources == [e] + sources[1..];
    }
  }

  /** What one event asks of a contextual vector. */
  lemma ContextualAsk(names: Names, p: Payload, k: VectorKey)
    requires k.EntryContextual?
    ensures LastOp(EventOps(names, p), k) ==
            if Drops(p, k) then Some(Pending.Remove)
            else if AppendsTo(p, k) && p.memory in names then Some(Embed(ContextualText(names[p.memory], p.text)))
            else None
  {
    hide EventOps, LastOp;
    EventAsks(names, p, k);
  }

  /** A name makes every contextual text more than white space. */
  lemma ContextualIsNotBlank(name: string, text: Text)
    ensures !Blank(ContextualText(name, text))
  {
    assert ContextualText(name, text)[|name|] == ':';
  }

  lemma {:induction false} ContextualNeverBlank(names: Names, events: seq<Payload>, k: VectorKey)
    requires k.EntryContextual?
    ensures var last := LastOp(OpsOf(names, events), k);
            last.Some? ==> Decides(last)
    decreases events
  {
    if events != [] {
      var n := |events| - 1;
      ContextualNeverBlank(names, events[..n], k);
      assert events == events[..n] + [events[n]];
      LastOpOfPush(names, events[..n], events[n], k);
      ContextualAsk(names, events[n], k);
      if AppendsTo(events[n], k) && events[n].memory in names {
        ContextualIsNotBlank(names[events[n].memory], events[n].text);
      }
    }
  }

  /** Descriptions and entry texts do not depend on names. */
  lemma {:induction false} PlainKeysIgnoreNames(a: Names, b: Names, events: seq<Payload>, k: VectorKey)
    requires !k.EntryContextual?
    ensures LastOp(OpsOf(a, events), k) == LastOp(OpsOf(b, events), k)
    decreases events
  {
    if events != [] {
      var n := |events| - 1;
      PlainKeysIgnoreNames(a, b, events[..n], k);
      assert events == events[..n] + [events[n]];
      LastOpOfPush(a, events[..n], events[n], k);
      LastOpOfPush(b, events[..n], events[n], k);
      PlainEventIgnoresNames(a, events[n], k);
      PlainEventIgnoresNames(b, events[n], k);
    }
  }

  lemma PlainEventIgnoresNames(names: Names, p: Payload, k: VectorKey)
    requires !k.EntryContextual?
    ensures LastOp(EventOps(names, p), k) == LastOp(EventOps(map[], p), k)
  {
    hide EventOps, LastOp;
    EventAsks(names, p, k);
    EventAsks(map[], p, k);
  }

  lemma {:induction false} UntouchedHasNoDrop(names: Names, events: seq<Payload>, k: VectorKey)
    requires k.EntryContextual? && LastOp(OpsOf(names, events), k).None?
    ensures forall i :: 0 <= i < |events| ==> !Drops(events[i], k)
    decreases events
  {
    hide OpsOf, LastOp, EventOps;
    if events != [] {
      var n := |events| - 1;
      assert events == events[..n] + [events[n]];
      LastOpOfPush(names, events[..n], events[n], k);
      ContextualAsk(names, events[n], k);
      UntouchedHasNoDrop(names, events[..n], k);
      assert forall i :: 0 <= i < n ==> events[..n][i] == events[i];
    }
  }

  ghost predicate DroppedAfter(log: seq<Payload>, i: int, k: VectorKey) {
    exists j :: 0 <= j && i < j < |log| && Drops(log[j], k)
  }

  /**
   Two lookups give the same answer at every append to `k` among the events from `lo` to `hi` that
   the log does not drop again.
   */
  ghost predicate AgreeAt(a: Names, b: Names, log: seq<Payload>, lo: nat, hi: nat, k: VectorKey) {
    forall i :: lo <= i < hi && i < |log| && AppendsTo(log[i], k) && !DroppedAfter(log, i, k) ==>
      NameOf(a, log[i].memory) == NameOf(b, log[i].memory)
  }

  /** Then they ask the same of `k`, unless what comes after drops it. */
  lemma {:induction false} BatchAgrees(a: Names, b: Names, log: seq<Payload>, lo: nat, hi: nat, k: VectorKey)
    requires lo <= hi <= |log| && AgreeAt(a, b, log, lo, hi, k)
    requires forall j :: hi <= j < |log| ==> !Drops(log[j], k)
    ensures LastOp(OpsOf(a, log[lo..hi]), k) == LastOp(OpsOf(b, log[lo..hi]), k)
    decreases hi
  {
    hide OpsOf, LastOp, EventOps;
    if !k.EntryContextual? {
      PlainKeysIgnoreNames(a, b, log[lo..hi], k);
    } else if lo < hi {
      var p := log[hi - 1];
      assert log[lo..hi] == log[lo..hi - 1] + [p];
      LastOpOfPush(a, log[lo..hi - 1], p, k);
      LastOpOfPush(b, log[lo..hi - 1], p, k);
      ContextualAsk(a, p, k);
      ContextualAsk(b, p, k);
      if !Drops(p, k) {
        BatchAgrees(a, b, log, lo, hi - 1, k);
      }
    } else {
      assert log[lo..hi] == [];
      NothingToRead(a, k);
      NothingToRead(b, k);
    }
  }

  // ---------------------------------------------------------------------------------------------
  // Applying a batch, in full or in part
  // ---------------------------------------------------------------------------------------------

  /** What one vector becomes: blank text asks for nothing at all, not for a removal. */
  function Changed<V>(embed: Embedder<V>, model: ModelId, was: Option<Vector<V>>, last: Option<Pending>)
      : Option<Vector<V>>
  {
    match last
    case None => was
    case Some(Remove) => None
    case Some(Embed(text)) => if Blank(text) then was else Some(Vector(embed(model, text), model))
  }

  function At<V>(index: map<VectorKey, Vector<V>>, k: VectorKey): Option<Vector<V>> {
    if k in index then Some(index[k]) else None
  }

  function Keys(ops: seq<Op>): set<VectorKey> {
    if ops == [] then {} else Keys(ops[..|ops| - 1]) + {ops[|ops| - 1].key}
  }

  lemma {:induction false} KeysAreTouched(ops: seq<Op>, k: VectorKey)
    ensures k in Keys(ops) <==> LastOp(ops, k).Some?
    decreases ops
  {
    if ops != [] {
      KeysAreTouched(ops[..|ops| - 1], k);
    }
  }

  /** The index after a coalesced batch has been applied to the vectors in `done`. */
  function Patched<V>(embed: Embedder<V>, model: ModelId, index: map<VectorKey, Vector<V>>, ops: seq<Op>,
                      done: set<VectorKey>): map<VectorKey, Vector<V>>
  {
    map k | k in index.Keys + (Keys(ops) * done)
            && Changed(embed, model, At(index, k), if k in done then LastOp(ops, k) else None).Some?
         :: Changed(embed, model, At(index, k), if k in done then LastOp(ops, k) else None).value
  }

  lemma PatchedAt<V>(embed: Embedder<V>, model: ModelId, index: map<VectorKey, Vector<V>>, ops: seq<Op>,
                     done: set<VectorKey>, k: VectorKey)
    ensures At(Patched(embed, model, index, ops, done), k) ==
            Changed(embed, model, At(index, k), if k in done then LastOp(ops, k) else None)
  {
    KeysAreTouched(ops, k);
  }

  lemma FullyPatchedAt<V>(embed: Embedder<V>, model: ModelId, index: map<VectorKey, Vector<V>>, ops: seq<Op>,
                          k: VectorKey)
    ensures At(Patched(embed, model, index, ops, Keys(ops)), k) == Changed(embed, model, At(index, k), LastOp(ops, k))
  {
    PatchedAt(embed, model, index, ops, Keys(ops), k);
    KeysAreTouched(ops, k);
  }

  // ---------------------------------------------------------------------------------------------
  // The instance: log, index, cursor, and the configured model
  // ---------------------------------------------------------------------------------------------

  /** Booted but not reconciled, with a migration logged but the old vectors still there, or ready to index. */
  datatype Phase = Started | Migrating | Ready

  /** `space` is the model the stored vectors were made with, kept as history. */
  datatype State<V> = State(
    log: seq<Payload>,
    index: map<VectorKey, Vector<V>>,
    cursor: nat,
    configured: ModelId,
    phase: Phase,
    space: ModelId)

  datatype Step =
    | Append(payload: Payload)
    | BootWith(model: ModelId)
    | Reconcile(sample: VectorKey)
    | Clear
    | CrashIn(names: Names, upTo: nat, done: set<VectorKey>)
    | CatchUp(names: Names, upTo: nat)
    | Backfill(texts: map<VectorKey, Text>)
    | Revert(to: nat)
    | Reindex

  predicate IsBatchStep(step: Step) {
    step.CrashIn? || step.CatchUp?
  }

  predicate Enabled<V>(s: State<V>, step: Step) {
    match step
    case Reconcile(sample) => s.phase.Started? && (s.index == map[] || sample in s.index)
    case Clear => s.phase.Migrating?
    case CrashIn(_, upTo, _) => s.phase.Ready? && s.cursor <= upTo <= |s.log|
    case CatchUp(_, upTo) => s.phase.Ready? && s.cursor <= upTo <= |s.log|
    case Backfill(_) => s.phase.Ready?
    case Revert(to) => to < |s.log|
    case _ => true
  }

  function BatchOps<V>(s: State<V>, names: Names, upTo: nat): seq<Op>
    requires s.cursor <= upTo <= |s.log|
  {
    OpsOf(names, s.log[s.cursor..upTo])
  }

  /** Vectors written straight into the index, past no cursor. */
  function Filled<V>(embed: Embedder<V>, model: ModelId, index: map<VectorKey, Vector<V>>, texts: map<VectorKey, Text>)
      : map<VectorKey, Vector<V>>
  {
    index + map k | k in texts :: Vector(embed(model, texts[k]), model)
  }

  /**
   A boot re-reads its configuration; reconciliation compares it with the model of any one stored
   vector; a batch writes its vectors and then the cursor, and may stop before any of them; the
   consolidation pass fills in vectors it misses without reading the log.
   */
  function Apply<V>(embed: Embedder<V>, s: State<V>, step: Step): State<V>
    requires Enabled(s, step)
  {
    match step
    case Append(payload) => s.(log := s.log + [payload])
    case BootWith(model) => s.(configured := model, phase := Started)
    case Reconcile(sample) =>
      if s.index == map[] then s.(phase := Ready, space := s.configured)
      else if s.index[sample].modelId == s.configured then s.(phase := Ready)
      else s.(log := s.log + [EmbeddingModelChanged(s.index[sample].modelId, s.configured)], phase := Migrating)
    case Clear => s.(index := map[], cursor := 0, phase := Ready, space := s.configured)
    case CrashIn(names, upTo, done) =>
      s.(index := Patched(embed, s.configured, s.index, BatchOps(s, names, upTo), done))
    case CatchUp(names, upTo) =>
      var ops := BatchOps(s, names, upTo);
      s.(index := Patched(embed, s.configured, s.index, ops, Keys(ops)), cursor := upTo)
    case Backfill(texts) => s.(index := Filled(embed, s.configured, s.index, texts))
    case Revert(to) => s.(log := s.log[..to], index := map[], cursor := 0, phase := Started)
    case Reindex => s.(index := map[], cursor := 0, phase := Started)
  }

  /**
   The vector is what the last of `events` to speak of it leaves: the embedding of the text written, of
   the contextual text under the memory's name, or nothing; blank text and silence leave what was there.
   */
  ghost predicate Reflects<V>(embed: Embedder<V>, model: ModelId, names: Names, events: seq<Payload>, k: VectorKey,
                              was: Option<Vector<V>>, now: Option<Vector<V>>)
  {
    && (!Mentioned(events, k) ==> now == was)
    && forall i :: LastFor(events, i, k) ==>
         var p := events[i];
         && (!p.ContentAppended? && !p.DescriptionRegenerated? ==> now == None)
         && (p.DescriptionRegenerated? || (p.ContentAppended? && k.EntryText?) ==>
               now == if Blank(p.text) then was else Some(Vector(embed(model, p.text), model)))
         && (p.ContentAppended? && k.EntryContextual? && p.memory in names ==>
               now == Some(Vector(embed(model, names[p.memory] + ": " + p.text), model)))
  }

  /** Applying the last change of a batch's coalesced changes is following its last event. */
  lemma LastChangeReflects<V>(embed: Embedder<V>, model: ModelId, names: Names, events: seq<Payload>, k: VectorKey,
                              was: Option<Vector<V>>)
    ensures Reflects(embed, model, names, events, k, was, Changed(embed, model, was, LastOp(OpsOf(names, events), k)))
  {
    hide OpsOf, LastOp, Concerns;
    var now := Changed(embed, model, was, LastOp(OpsOf(names, events), k));
    AskedIsSpokenOf(names, events, k);
    forall i | LastFor(events, i, k)
      ensures var p := events[i];
              && (!p.ContentAppended? && !p.DescriptionRegenerated? ==> now == None)
              && (p.DescriptionRegenerated? || (p.ContentAppended? && k.EntryText?) ==>
                    now == if Blank(p.text) then was else Some(Vector(embed(model, p.text), model)))
              && (p.ContentAppended? && k.EntryContextual? && p.memory in names ==>
                    now == Some(Vector(embed(model, names[p.memory] + ": " + p.text), model)))
    {
      LastEventAsks(names, events, i, k);
      if events[i].ContentAppended? && events[i].memory in names {
        ContextualIsNotBlank(names[events[i].memory], events[i].text);
      }
    }
  }

  /**
   What each step changes and what it leaves alone. The log grows by appends and by one event per
   migration, and is cut by reverts; only a boot reads a configuration; the vectors and the cursor go
   together, except that a batch cut short and a backfill leave the cursor where it was.
   */
  lemma StepEffects<V>(embed: Embedder<V>, s: State<V>, step: Step)
    requires Enabled(s, step)
    ensures var s' := Apply(embed, s, step);
            && (step.Append? ==> s' == s.(log := s.log + [step.payload]))
            && (step.BootWith? ==>
                  s'.configured == step.model && s'.phase.Started?
                  && s'.log == s.log && s'.index == s.index && s'.cursor == s.cursor)
            && (!step.BootWith? ==> s'.configured == s.configured)
            && (step.Reconcile? ==>
                  var differs := s.index != map[] && s.index[step.sample].modelId != s.configured;
                  && s'.index == s.index && s'.cursor == s.cursor
                  && s'.phase == (if differs then Migrating else Ready)
                  && |s'.log| == |s.log| + (if differs then 1 else 0) && s.log <= s'.log
                  && (differs ==>
                        s'.log[|s.log|] == EmbeddingModelChanged(s.index[step.sample].modelId, s.configured)))
            && (step.Clear? || step.Reindex? || step.Revert? ==> s'.index == map[] && s'.cursor == 0)
            && (step.Clear? || step.Reindex? ==> s'.log == s.log && s'.phase == if step.Clear? then Ready else Started)
            && (step.Revert? ==> s'.log <= s.log && |s'.log| == step.to && s'.phase.Started?)
            && (step.CrashIn? || step.CatchUp? || step.Backfill? ==> s'.log == s.log && s'.phase == s.phase)
            && (step.CrashIn? || step.Backfill? ==> s'.cursor == s.cursor)
            && (step.CatchUp? ==> s'.cursor == step.upTo)
  {
  }

  /** What each step writes: a batch what the last event for a vector asks, in `done` alone if cut short. */
  lemma StepWrites<V>(embed: Embedder<V>, s: State<V>, step: Step, k: VectorKey)
    requires Enabled(s, step)
    ensures var was, now := At(s.index, k), At(Apply(embed, s, step).index, k);
            && (step.Backfill? ==>
                  now == if k in step.texts then Some(Vector(embed(s.configured, step.texts[k]), s.configured))
                         else was)
            && (step.CrashIn? && k !in step.done ==> now == was)
            && (step.CatchUp? || (step.CrashIn? && k in step.done) ==>
                  Reflects(embed, s.configured, step.names, s.log[s.cursor..step.upTo], k, was, now))
  {
    hide OpsOf, LastOp, Patched, Keys;
    if IsBatchStep(step) {
      var events := s.log[s.cursor..step.upTo];
      var ops := OpsOf(step.names, events);
      PatchedAt(embed, s.configured, s.index, ops, if step.CrashIn? then step.done else Keys(ops), k);
      FullyPatchedAt(embed, s.configured, s.index, ops, k);
      LastChangeReflects(embed, s.configured, step.names, events, k, At(s.index, k));
    }
  }

  /** Appends, boots and losing the index are always open; a revert below the head is too. */
  lemma StepsAreOpen<V>(s: State<V>, step: Step)
    ensures step.Append? || step.BootWith? || step.Reindex? ==> Enabled(s, step)
    ensures step.Revert? ==> (Enabled(s, step) <==> step.to < |s.log|)
    ensures step.Reconcile? && (step.sample in s.index || s.index == map[]) ==> (Enabled(s, step) <==> s.phase.Started?)
    ensures step.Clear? ==> (Enabled(s, step) <==> s.phase.Migrating?)
    ensures step.Backfill? ==> (Enabled(s, step) <==> s.phase.Ready?)
    ensures step.CatchUp? || step.CrashIn? ==>
              (Enabled(s, step) <==> s.phase.Ready? && s.cursor <= step.upTo <= |s.log|)
  {
  }

  predicate Legal<V>(embed: Embedder<V>, s: State<V>, steps: seq<Step>)
    decreases steps
  {
    steps == [] || (Enabled(s, steps[0]) && Legal(embed, Apply(embed, s, steps[0]), steps[1..]))
  }

  function Exec<V>(embed: Embedder<V>, s: State<V>, steps: seq<Step>): State<V>
    requires Legal(embed, s, steps)
    decreases steps
  {
    if steps == [] then s else Exec(embed, Apply(embed, s, steps[0]), steps[1..])
  }

  /** An instance with nothing indexed yet. */
  function Fresh<V>(log: seq<Payload>, model: ModelId): State<V> {
    State(log, map[], 0, model, Started, model)
  }

  // ---------------------------------------------------------------------------------------------
  // One embedding space
  // ---------------------------------------------------------------------------------------------

  /** Every stored vector was made with one model, and the cursor is inside the log. */
  ghost predicate OneSpace<V>(s: State<V>) {
    && s.cursor <= |s.log|
    && (forall k :: k in s.index ==> s.index[k].modelId == s.space)
    && (s.phase.Ready? ==> s.space == s.configured)
  }

  lemma BatchKeepsSpace<V>(embed: Embedder<V>, s: State<V>, ops: seq<Op>, done: set<VectorKey>)
    requires OneSpace(s) && s.phase.Ready?
    ensures OneSpace(s.(index := Patched(embed, s.configured, s.index, ops, done)))
  {
    var index' := Patched(embed, s.configured, s.index, ops, done);
    forall k | k in index' ensures index'[k].modelId == s.space {
      PatchedAt(embed, s.configured, s.index, ops, done, k);
    }
  }

  lemma StepKeepsSpace<V>(embed: Embedder<V>, s: State<V>, step: Step)
    requires OneSpace(s) && Enabled(s, step)
    ensures OneSpace(Apply(embed, s, step))
  {
    if IsBatchStep(step) {
      hide Patched, OpsOf, Keys;
      var ops := BatchOps(s, step.names, step.upTo);
      BatchKeepsSpace(embed, s, ops, if step.CrashIn? then step.done else Keys(ops));
    }
  }

  lemma {:induction false} EveryRunKeepsSpace<V>(embed: Embedder<V>, s: State<V>, steps: seq<Step>)
    requires OneSpace(s) && Legal(embed, s, steps)
    ensures OneSpace(Exec(embed, s, steps))
    decreases steps
  {
    hide OneSpace;
    if steps != [] {
      StepKeepsSpace(embed, s, steps[0]);
      EveryRunKeepsSpace(embed, Apply(embed, s, steps[0]), steps[1..]);
    }
  }

  /**
   One embedding space: whatever the boots, model changes, crashes and backfills, all stored vectors
   share one model, and once a boot has reconciled, that model is the configured one or there are no
   vectors.
   */
  lemma OneEmbeddingSpace<V>(embed: Embedder<V>, log: seq<Payload>, model: ModelId, steps: seq<Step>, s: State<V>)
    requires Legal(embed, Fresh<V>(log, model), steps) && s == Exec(embed, Fresh<V>(log, model), steps)
    ensures forall k, k' :: k in s.index && k' in s.index ==> s.index[k].modelId == s.index[k'].modelId
    ensures s.phase.Ready? ==> forall k :: k in s.index ==> s.index[k].modelId == s.configured
  {
    EveryRunKeepsSpace(embed, Fresh<V>(log, model), steps);
  }

  // ---------------------------------------------------------------------------------------------
  // Settled vectors
  // ---------------------------------------------------------------------------------------------

  /** The last change to `k` asks for a blank text. */
  predicate EndsBlank(ops: seq<Op>, k: VectorKey) {
    match LastOp(ops, k)
    case Some(Embed(text)) => Blank(text)
    case _ => false
  }

  /** The last change to `k` is a blank text after some earlier change wrote its vector. */
  ghost predicate BlankOver(names: Names, log: seq<Payload>, k: VectorKey) {
    EndsBlank(OpsOf(names, log), k) && EverWritten(OpsOf(names, log), k)
  }

  /** Some event past the cursor decides what `k` holds. */
  predicate Unread<V>(names: Names, log: seq<Payload>, s: State<V>, k: VectorKey)
    requires s.cursor <= |log|
  {
    Decides(LastOp(OpsOf(names, log), k)) && LastOp(OpsOf(names, log[s.cursor..]), k).Some?
  }

  /** What one rebuild of `log` under `names` stores at `k`. */
  function Wanted<V>(embed: Embedder<V>, model: ModelId, names: Names, log: seq<Payload>, k: VectorKey)
      : Option<Vector<V>>
  {
    Changed(embed, model, None, LastOp(OpsOf(names, log), k))
  }

  /** The vector is the one a rebuild of `log` stores, or an event not yet read will decide it. */
  ghost predicate SettledAt<V>(embed: Embedder<V>, names: Names, log: seq<Payload>, s: State<V>, k: VectorKey) {
    && s.cursor <= |log|
    && (Unread(names, log, s, k) || At(s.index, k) == Wanted(embed, s.space, names, log, k))
  }

  /** A batch whose names agree with the rebuild's asks nothing new of a vector that is already right. */
  lemma NothingNewAt<V>(embed: Embedder<V>, batch: Names, names: Names, log: seq<Payload>, s: State<V>, upTo: nat,
                        k: VectorKey)
    requires s.cursor <= upTo <= |log| && AgreeAt(batch, names, log, s.cursor, upTo, k)
    requires !Unread(names, log, s, k) && !BlankOver(names, log, k)
    ensures var want := Wanted(embed, s.space, names, log, k);
            Changed(embed, s.space, want, LastOp(OpsOf(batch, log[s.cursor..upTo]), k)) == want
  {
    hide OpsOf, LastOp, EventOps;
    var last := LastOp(OpsOf(names, log), k);
    SplitAtCursor(names, log, s.cursor, k);
    if last.None? || Decides(last) {
      var tail := log[s.cursor..];
      assert tail[..upTo - s.cursor] == log[s.cursor..upTo];
      SplitAtCursor(names, tail, upTo - s.cursor, k);
      SplitBefore(names, tail, upTo - s.cursor, k);
      if k.EntryContextual? {
        UntouchedHasNoDrop(names, tail, k);
        assert forall j :: s.cursor <= j < |log| ==> log[j] == tail[j - s.cursor];
      }
      BatchAgrees(batch, names, log, s.cursor, upTo, k);
    } else {
      ContextualLastIsNotBlank(names, log, k);
      PlainKeysIgnoreNames(batch, names, log[s.cursor..upTo], k);
      NeverWrittenInside(names, log, s.cursor, upTo, k);
    }
  }

  lemma ContextualLastIsNotBlank(names: Names, log: seq<Payload>, k: VectorKey)
    ensures k.EntryContextual? ==> !EndsBlank(OpsOf(names, log), k)
  {
    if k.EntryContextual? {
      ContextualNeverBlank(names, log, k);
    }
  }

  /** An untouched stretch has an untouched start. */
  lemma SplitBefore(names: Names, log: seq<Payload>, cut: nat, k: VectorKey)
    requires cut <= |log| && LastOp(OpsOf(names, log), k).None?
    ensures LastOp(OpsOf(names, log[..cut]), k).None?
  {
    SplitAtCursor(names, log, cut, k);
  }

  /** A batch that stops anywhere disturbs only vectors it will write again. */
  lemma CrashKeepsSettled<V>(embed: Embedder<V>, batch: Names, names: Names, log: seq<Payload>, s: State<V>, upTo: nat,
                             done: set<VectorKey>, k: VectorKey)
    requires s.cursor <= upTo <= |log| && SettledAt(embed, names, log, s, k)
    requires Unread(names, log, s, k) || AgreeAt(batch, names, log, s.cursor, upTo, k)
    requires !BlankOver(names, log, k)
    ensures var ops := OpsOf(batch, log[s.cursor..upTo]);
            SettledAt(embed, names, log, s.(index := Patched(embed, s.space, s.index, ops, done)), k)
  {
    hide OpsOf, LastOp, Patched, BlankOver, AgreeAt;
    PatchedAt(embed, s.space, s.index, OpsOf(batch, log[s.cursor..upTo]), done, k);
    if !Unread(names, log, s, k) {
      NothingNewAt(embed, batch, names, log, s, upTo, k);
    }
  }

  lemma CatchUpSettles<V>(embed: Embedder<V>, batch: Names, names: Names, log: seq<Payload>, s: State<V>, upTo: nat,
                          k: VectorKey)
    requires s.cursor <= upTo <= |log| && SettledAt(embed, names, log, s, k)
    requires AgreeAt(batch, names, log, s.cursor, upTo, k) && !BlankOver(names, log, k)
    ensures var ops := OpsOf(batch, log[s.cursor..upTo]);
            SettledAt(embed, names, log,
                      s.(index := Patched(embed, s.space, s.index, ops, Keys(ops)), cursor := upTo), k)
  {
    hide OpsOf, LastOp, Patched, BlankOver, AgreeAt, Keys;
    FullyPatchedAt(embed, s.space, s.index, OpsOf(batch, log[s.cursor..upTo]), k);
    if !Unread(names, log, s, k) {
      NothingNewAt(embed, batch, names, log, s, upTo, k);
      StaysRead(names, log, s, upTo, k);
    } else if LastOp(OpsOf(names, log[upTo..]), k).None? {
      LastReadDecides(batch, names, log, s.cursor, upTo, k);
    }
  }

  lemma StaysRead<V>(names: Names, log: seq<Payload>, s: State<V>, upTo: nat, k: VectorKey)
    requires s.cursor <= upTo <= |log| && !Unread(names, log, s, k)
    ensures !Unread(names, log, s.(cursor := upTo), k)
  {
    hide OpsOf, LastOp;
    var tail := log[s.cursor..];
    assert tail[upTo - s.cursor..] == log[upTo..];
    SplitAtCursor(names, tail, upTo - s.cursor, k);
  }

  /** When nothing past the batch touches the vector, the batch makes its last change. */
  lemma LastReadDecides(batch: Names, names: Names, log: seq<Payload>, lo: nat, hi: nat, k: VectorKey)
    requires lo <= hi <= |log| && AgreeAt(batch, names, log, lo, hi, k)
    requires LastOp(OpsOf(names, log[lo..]), k).Some? && LastOp(OpsOf(names, log[hi..]), k).None?
    ensures LastOp(OpsOf(batch, log[lo..hi]), k) == LastOp(OpsOf(names, log), k)
  {
    hide OpsOf, LastOp, EventOps;
    var tail := log[lo..];
    assert tail[hi - lo..] == log[hi..] && tail[..hi - lo] == log[lo..hi];
    SplitAtCursor(names, tail, hi - lo, k);
    SplitAtCursor(names, log, lo, k);
    if k.EntryContextual? {
      UntouchedHasNoDrop(names, log[hi..], k);
      assert forall j :: hi <= j < |log| ==> log[j] == log[hi..][j - hi];
    }
    BatchAgrees(batch, names, log, lo, hi, k);
  }

  // ---------------------------------------------------------------------------------------------
  // Whole runs
  // ---------------------------------------------------------------------------------------------

  /** The index is emptied, so that nothing done before matters. */
  predicate Clears(step: Step) {
    step.Clear? || step.Revert? || step.Reindex?
  }

  ghost predicate ClearsIn(steps: seq<Step>) {
    exists i :: 0 <= i < |steps| && Clears(steps[i])
  }

  /**
   The step treats `k` as a rebuild of `log` under `names` does: a batch's names agree at the appends
   it reads, and a backfill writes the text the log asks for. A batch cut short and a backfill may do
   as they like with a vector that an unread event will decide.
   */
  ghost predicate StepAgrees<V>(s: State<V>, step: Step, names: Names, log: seq<Payload>, k: VectorKey) {
    match step
    case CrashIn(batch, upTo, _) => s.cursor <= |log| ==>
      Unread(names, log, s, k) || AgreeAt(batch, names, log, s.cursor, upTo, k)
    case CatchUp(batch, upTo) => AgreeAt(batch, names, log, s.cursor, upTo, k)
    case Backfill(texts) => k in texts && s.cursor <= |log| ==>
      Unread(names, log, s, k) || (LastOp(OpsOf(names, log), k) == Some(Embed(texts[k])) && !Blank(texts[k]))
    case _ => true
  }

  /** What the step reads of its log is what `log` holds. */
  ghost predicate StepReads<V>(s: State<V>, step: Step, log: seq<Payload>) {
    IsBatchStep(step) ==> step.upTo <= |log| && step.upTo <= |s.log| && s.log[..step.upTo] == log[..step.upTo]
  }

  /** Since the index was last cleared, every step agrees. */
  ghost predicate RunAgrees<V>(embed: Embedder<V>, s: State<V>, steps: seq<Step>, names: Names, log: seq<Payload>,
                               k: VectorKey)
    requires Legal(embed, s, steps)
    decreases steps
  {
    steps == [] || (
      && (StepAgrees(s, steps[0], names, log, k) || ClearsIn(steps[1..]))
      && RunAgrees(embed, Apply(embed, s, steps[0]), steps[1..], names, log, k))
  }

  ghost predicate RunReads<V>(embed: Embedder<V>, s: State<V>, steps: seq<Step>, log: seq<Payload>)
    requires Legal(embed, s, steps)
    decreases steps
  {
    steps == [] || (
      && (StepReads(s, steps[0], log) || ClearsIn(steps[1..]))
      && RunReads(embed, Apply(embed, s, steps[0]), steps[1..], log))
  }

  /** An empty index over an unread log is settled in any space. */
  lemma EmptyIsSettled<V>(embed: Embedder<V>, names: Names, log: seq<Payload>, s: State<V>, k: VectorKey)
    requires s.index == map[] && s.cursor == 0
    ensures SettledAt(embed, names, log, s, k)
  {
    assert log[0..] == log;
  }

  lemma StepKeepsSettled<V>(embed: Embedder<V>, names: Names, log: seq<Payload>, s: State<V>, step: Step, k: VectorKey)
    requires OneSpace(s) && Enabled(s, step) && (Clears(step) || SettledAt(embed, names, log, s, k))
    requires StepAgrees(s, step, names, log, k) && StepReads(s, step, log) && !BlankOver(names, log, k)
    ensures SettledAt(embed, names, log, Apply(embed, s, step), k)
  {
    hide OpsOf, LastOp, Patched, Keys, BlankOver, AgreeAt;
    if Clears(step) {
      EmptyIsSettled(embed, names, log, Apply(embed, s, step), k);
    } else if IsBatchStep(step) {
      assert s.log[s.cursor..step.upTo] == s.log[..step.upTo][s.cursor..] == log[s.cursor..step.upTo];
      if step.CrashIn? {
        CrashKeepsSettled(embed, step.names, names, log, s, step.upTo, step.done, k);
      } else {
        CatchUpSettles(embed, step.names, names, log, s, step.upTo, k);
      }
    } else if step.Backfill? && k in step.texts && !Unread(names, log, s, k) {
      assert Filled(embed, s.configured, s.index, step.texts)[k] == Vector(embed(s.space, step.texts[k]), s.space);
    }
  }

  /**
   Over every run of appends, boots, migrations, crashes, catch-ups, backfills and reverts, a vector
   on which the steps since the last clearing agree with a rebuild stays settled.
   */
  lemma {:induction false} EveryRunSettles<V>(embed: Embedder<V>, s: State<V>, steps: seq<Step>, names: Names,
                                              log: seq<Payload>, k: VectorKey)
    requires OneSpace(s) && Legal(embed, s, steps) && !BlankOver(names, log, k)
    requires ClearsIn(steps) || SettledAt(embed, names, log, s, k)
    requires RunAgrees(embed, s, steps, names, log, k) && RunReads(embed, s, steps, log)
    ensures SettledAt(embed, names, log, Exec(embed, s, steps), k)
    decreases steps
  {
    hide OneSpace, StepAgrees, StepReads, SettledAt, BlankOver, Apply, Enabled;
    if steps != [] {
      var step, rest := steps[0], steps[1..];
      StepKeepsSpace(embed, s, step);
      ClearsLater(steps);
      if !ClearsIn(rest) {
        StepKeepsSettled(embed, names, log, s, step, k);
      }
      EveryRunSettles(embed, Apply(embed, s, step), rest, names, log, k);
    }
  }

  lemma ClearsLater(steps: seq<Step>)
    requires steps != []
    ensures ClearsIn(steps) <==> Clears(steps[0]) || ClearsIn(steps[1..])
  {
    assert forall i :: 1 <= i < |steps| ==> steps[i] == steps[1..][i - 1];
    if ClearsIn(steps[1..]) {
      var i :| 0 <= i < |steps[1..]| && Clears(steps[1..][i]);
      assert Clears(steps[i + 1]);
    }
  }

  /** A run that clears nothing only adds to its log. */
  lemma {:induction false} LogOnlyGrows<V>(embed: Embedder<V>, s: State<V>, steps: seq<Step>)
    requires Legal(embed, s, steps) && !ClearsIn(steps)
    ensures s.log <= Exec(embed, s, steps).log
    decreases steps
  {
    if steps != [] {
      ClearsLater(steps);
      hide Patched, OpsOf, Keys, Filled;
      assert s.log <= Apply(embed, s, steps[0]).log;
      LogOnlyGrows(embed, Apply(embed, s, steps[0]), steps[1..]);
    }
  }

  /** What a run reads since its last clearing is what its final log holds. */
  lemma {:induction false} FinalLogIsRead<V>(embed: Embedder<V>, s: State<V>, steps: seq<Step>)
    requires Legal(embed, s, steps)
    ensures RunReads(embed, s, steps, Exec(embed, s, steps).log)
    decreases steps
  {
    if steps != [] {
      hide Patched, OpsOf, Keys, Filled;
      var next := Apply(embed, s, steps[0]);
      FinalLogIsRead(embed, next, steps[1..]);
      if !ClearsIn(steps[1..]) {
        LogOnlyGrows(embed, next, steps[1..]);
      }
    }
  }
}
