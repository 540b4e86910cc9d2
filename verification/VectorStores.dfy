/**
 The in-memory vector index and the batch that feeds it, as the program runs them: records in a
 list, a batch coalesced in a map, its changes applied one at a time with the cursor written last.
 */
module VectorStores {
  import opened Wrappers
  import opened VectorIndexing
  import opened VectorConvergence

  datatype Record<V> = Record(id: VectorKey, embedding: V, modelId: ModelId)

  datatype ResolvedOp<V> = Upsert(record: Record<V>) | Drop(id: VectorKey)

  function KeyOf<V>(op: ResolvedOp<V>): VectorKey {
    match op
    case Upsert(record) => record.id
    case Drop(id) => id
  }

  // ---------------------------------------------------------------------------------------------
  // Records
  // ---------------------------------------------------------------------------------------------

  /** The vector stored under `id`: the first record that carries it. */
  function Lookup<V>(records: seq<Record<V>>, id: VectorKey): Option<Vector<V>> {
    if records == [] then None
    else if records[0].id == id then Some(Vector(records[0].embedding, records[0].modelId))
    else Lookup(records[1..], id)
  }

  ghost predicate Unique<V>(records: seq<Record<V>>) {
    forall i, j :: 0 <= i < j < |records| ==> records[i].id != records[j].id
  }

  lemma {:induction false} LookupFinds<V>(records: seq<Record<V>>, id: VectorKey, at: nat)
    requires at < |records| && records[at].id == id
    requires forall i :: 0 <= i < at ==> records[i].id != id
    ensures Lookup(records, id) == Some(Vector(records[at].embedding, records[at].modelId))
    decreases records
  {
    if at > 0 {
      LookupFinds(records[1..], id, at - 1);
    }
  }

  lemma {:induction false} LookupMisses<V>(records: seq<Record<V>>, id: VectorKey)
    requires forall i :: 0 <= i < |records| ==> records[i].id != id
    ensures Lookup(records, id).None?
    decreases records
  {
    if records != [] {
      LookupMisses(records[1..], id);
    }
  }

  lemma {:induction false} LookupSplit<V>(a: seq<Record<V>>, b: seq<Record<V>>, id: VectorKey)
    ensures Lookup(a + b, id) == if Lookup(a, id).Some? then Lookup(a, id) else Lookup(b, id)
    decreases a
  {
    if a == [] {
      assert a + b == b;
    } else {
      LookupSplit(a[1..], b, id);
      assert (a + b)[1..] == a[1..] + b;
    }
  }

  lemma LookupOne<V>(record: Record<V>, id: VectorKey)
    ensures Lookup([record], id) ==
            if record.id == id then Some(Vector(record.embedding, record.modelId)) else None
  {
  }

  /** Replacing or appending a record changes what is stored under its id and nothing else. */
  lemma ReplaceLaw<V>(records: seq<Record<V>>, at: nat, record: Record<V>, id: VectorKey)
    requires Unique(records) && at < |records| && records[at].id == record.id
    ensures Lookup(records[at := record], id) ==
            if id == record.id then Some(Vector(record.embedding, record.modelId)) else Lookup(records, id)
  {
    hide Lookup;
    var before, after := records[..at], records[at + 1..];
    LookupOne(records[at], id);
    LookupOne(record, id);
    assert records == before + ([records[at]] + after) && records[at := record] == before + ([record] + after);
    LookupSplit(before, [records[at]] + after, id);
    LookupSplit(before, [record] + after, id);
    LookupSplit([records[at]], after, id);
    LookupSplit([record], after, id);
    if id == record.id {
      LookupMisses(before, id);
    }
  }

  function Retained<V>(records: seq<Record<V>>, id: VectorKey): seq<Record<V>> {
    if records == [] then []
    else if records[0].id == id then Retained(records[1..], id)
    else [records[0]] + Retained(records[1..], id)
  }

  lemma {:induction false} RetainedLaw<V>(records: seq<Record<V>>, id: VectorKey, k: VectorKey)
    ensures Lookup(Retained(records, id), k) == if k == id then None else Lookup(records, k)
    decreases records
  {
    if records != [] {
      RetainedLaw(records[1..], id, k);
      if records[0].id != id {
        assert ([records[0]] + Retained(records[1..], id))[1..] == Retained(records[1..], id);
      }
    }
  }

  lemma {:induction false} RetainedUnique<V>(records: seq<Record<V>>, id: VectorKey)
    requires Unique(records)
    ensures Unique(Retained(records, id))
    ensures forall i :: 0 <= i < |Retained(records, id)| ==>
              exists j :: 0 <= j < |records| && records[j] == Retained(records, id)[i]
    decreases records
  {
    if records != [] {
      RetainedUnique(records[1..], id);
      var rest := Retained(records[1..], id);
      forall i | 0 <= i < |rest|
        ensures rest[i].id != records[0].id && exists j :: 0 <= j < |records| && records[j] == rest[i]
      {
        var j :| 0 <= j < |records[1..]| && records[1..][j] == rest[i];
        assert records[j + 1] == rest[i];
      }
    }
  }

  class InMemoryVectorIndex<V> {
    var records: seq<Record<V>>
    var cursor: nat

    ghost predicate Valid()
      reads this
    {
      Unique(records)
    }

    constructor ()
      ensures Valid() && records == [] && cursor == 0
    {
      records, cursor := [], 0;
    }

    method Upsert(record: Record<V>)
      requires Valid()
      modifies this`records
      ensures Valid()
      ensures forall id :: Lookup(records, id) ==
                if id == record.id then Some(Vector(record.embedding, record.modelId)) else Lookup(old(records), id)
    {
      ghost var was := records;
      for i := 0 to |records|
        invariant records == was
        invariant forall j :: 0 <= j < i ==> records[j].id != record.id
      {
        if records[i].id == record.id {
          records := records[i := record];
          forall id
            ensures Lookup(records, id) ==
                    if id == record.id then Some(Vector(record.embedding, record.modelId)) else Lookup(was, id)
          {
            ReplaceLaw(was, i, record, id);
          }
          return;
        }
      }
      records := records + [record];
      forall id
        ensures Lookup(records, id) ==
                if id == record.id then Some(Vector(record.embedding, record.modelId)) else Lookup(was, id)
      {
        LookupSplit(was, [record], id);
        if id == record.id {
          LookupMisses(was, id);
        }
      }
    }

    method Remove(id: VectorKey)
      requires Valid()
      modifies this`records
      ensures Valid()
      ensures forall k :: Lookup(records, k) == if k == id then None else Lookup(old(records), k)
    {
      ghost var was := records;
      var kept := [];
      var i := |records|;
      while i > 0
        invariant 0 <= i <= |records| && records == was
        invariant kept == Retained(records[i..], id)
      {
        i := i - 1;
        assert records[i..][1..] == records[i + 1..];
        if records[i].id != id {
          kept := [records[i]] + kept;
        }
      }
      assert was[0..] == was;
      records := kept;
      RetainedUnique(was, id);
      forall k ensures Lookup(records, k) == if k == id then None else Lookup(was, k) { RetainedLaw(was, id, k); }
    }

    method Get(id: VectorKey) returns (v: Option<V>)
      requires Valid()
      ensures v == match Lookup(records, id) case None => None case Some(found) => Some(found.embedding)
    {
      for i := 0 to |records|
        invariant forall j :: 0 <= j < i ==> records[j].id != id
      {
        if records[i].id == id {
          LookupFinds(records, id, i);
          return Some(records[i].embedding);
        }
      }
      LookupMisses(records, id);
      v := None;
    }

    /** The model of one stored vector, or none when the index is empty. */
    method StoredModel() returns (model: Option<ModelId>)
      requires Valid()
      ensures model == if records == [] then None else Some(records[0].modelId)
      ensures model.Some? ==> exists id :: Lookup(records, id).Some? && Lookup(records, id).value.modelId == model.value
    {
      if |records| == 0 {
        model := None;
      } else {
        model := Some(records[0].modelId);
        LookupFinds(records, records[0].id, 0);
      }
    }

    method SetCursor(seqNo: nat)
      modifies this`cursor
      ensures cursor == seqNo
    {
      cursor := seqNo;
    }

    method Clear()
      modifies this
      ensures Valid() && records == [] && cursor == 0
    {
      records, cursor := [], 0;
    }
  }

  // ---------------------------------------------------------------------------------------------
  // Batches
  // ---------------------------------------------------------------------------------------------

  /** One resolved change is what the coalesced batch asks for. */
  ghost predicate Resolves<V>(embed: Embedder<V>, model: ModelId, ops: seq<Op>, op: ResolvedOp<V>) {
    match op
    case Drop(id) => LastOp(ops, id) == Some(Pending.Remove)
    case Upsert(r) =>
      && LastOp(ops, r.id).Some? && Writes(LastOp(ops, r.id).value)
      && r == Record(r.id, embed(model, LastOp(ops, r.id).value.text), model)
  }

  /** The batch has one change for every vector whose last change asks for one, and no other. */
  ghost predicate IsBatch<V>(embed: Embedder<V>, model: ModelId, ops: seq<Op>, batch: seq<ResolvedOp<V>>) {
    && (forall i :: 0 <= i < |batch| ==> Resolves(embed, model, ops, batch[i]))
    && (forall i, j :: 0 <= i < j < |batch| ==> KeyOf(batch[i]) != KeyOf(batch[j]))
    && (forall k :: LastOp(ops, k).Some? && (LastOp(ops, k).value.Remove? || Writes(LastOp(ops, k).value)) ==>
          exists i :: 0 <= i < |batch| && KeyOf(batch[i]) == k)
  }

  /** The batch writes the embedding of `text` under `k`, or says nothing of `k` when the text is blank. */
  ghost predicate Carries<V>(embed: Embedder<V>, model: ModelId, batch: seq<ResolvedOp<V>>, k: VectorKey, text: Text) {
    if Blank(text) then forall i :: 0 <= i < |batch| ==> KeyOf(batch[i]) != k
    else Upsert(Record(k, embed(model, text), model)) in batch
  }

  /** Coalesce the events' changes, last one wins, then resolve every vector that has one to make. */
  method EmbedBatch<V>(embed: Embedder<V>, names: Names, model: ModelId, events: seq<Payload>)
      returns (batch: seq<ResolvedOp<V>>)
    ensures IsBatch(embed, model, OpsOf(names, events), batch)
    ensures forall i :: 0 <= i < |batch| ==> Mentioned(events, KeyOf(batch[i]))
    ensures forall k, j :: LastFor(events, j, k) ==>
              var p := events[j];
              && (p.ContentAppended? && k.EntryText? ==> Carries(embed, model, batch, k, p.text))
              && (p.ContentAppended? && k.EntryContextual? && p.memory in names ==>
                    Carries(embed, model, batch, k, names[p.memory] + ": " + p.text))
              && (p.DescriptionRegenerated? ==> Carries(embed, model, batch, k, p.text))
              && (!p.ContentAppended? && !p.DescriptionRegenerated? ==> Drop(k) in batch)
  {
    hide LastFor, Mentioned, Carries, OpsOf, LastOp;
    var pending := Coalesce(names, events);
    ghost var ops := OpsOf(names, events);
    batch := [];
    var todo := pending.Keys;
    while todo != {}
      invariant todo <= pending.Keys
      invariant forall i :: 0 <= i < |batch| ==> Resolves(embed, model, ops, batch[i]) && KeyOf(batch[i]) !in todo
      invariant forall i, j :: 0 <= i < j < |batch| ==> KeyOf(batch[i]) != KeyOf(batch[j])
      invariant forall k :: k in pending && k !in todo && (pending[k].Remove? || Writes(pending[k])) ==>
                  exists i :: 0 <= i < |batch| && KeyOf(batch[i]) == k
      decreases todo
    {
      var k :| k in todo;
      todo := todo - {k};
      ghost var before := batch;
      match pending[k] {
        case Remove => batch := batch + [Drop(k)];
        case Embed(text) =>
          if !Blank(text) {
            batch := batch + [Upsert(Record(k, embed(model, text), model))];
          }
      }
      assert forall i :: 0 <= i < |before| ==> batch[i] == before[i];
      assert pending[k].Remove? || Writes(pending[k]) ==> KeyOf(batch[|before|]) == k;
    }
    BatchMeans(embed, names, model, events, batch);
  }

  /** The map holds each vector's last change among `ops`. */
  ghost predicate Coalesces(pending: map<VectorKey, Pending>, ops: seq<Op>) {
    forall k :: (if k in pending then Some(pending[k]) else None) == LastOp(ops, k)
  }

  lemma CoalescePush(pending: map<VectorKey, Pending>, ops: seq<Op>, op: Op)
    requires Coalesces(pending, ops)
    ensures Coalesces(pending[op.key := op.pending], ops + [op])
  {
    hide LastOp;
    var next := pending[op.key := op.pending];
    forall k ensures (if k in next then Some(next[k]) else None) == LastOp(ops + [op], k) {
      LastOpPush(ops, op, k);
    }
  }

  lemma CoalesceNothing()
    ensures Coalesces(map[], [])
  {
  }

  method Coalesce(names: Names, events: seq<Payload>) returns (pending: map<VectorKey, Pending>)
    ensures Coalesces(pending, OpsOf(names, events))
    ensures forall k :: k in pending ==> Mentioned(events, k)
    ensures forall k, i :: LastFor(events, i, k) ==>
              var p := events[i];
              var asked := if k in pending then Some(pending[k]) else None;
              && (p.ContentAppended? && k.EntryText? ==> asked == Some(Embed(p.text)))
              && (p.ContentAppended? && k.EntryContextual? && p.memory in names ==>
                    asked == Some(Embed(names[p.memory] + ": " + p.text)))
              && (p.DescriptionRegenerated? ==> asked == Some(Embed(p.text)))
              && (!p.ContentAppended? && !p.DescriptionRegenerated? ==> asked == Some(Pending.Remove))
  {
    hide Coalesces, OpsOf, EventOps;
    pending := map[];
    CoalesceNothing();
    NoOps(names);
    assert events[..0] == [];
    for i := 0 to |events|
      invariant Coalesces(pending, OpsOf(names, events[..i]))
    {
      var ops := EventOps(names, events[i]);
      ghost var before := OpsOf(names, events[..i]);
      assert before + ops[..0] == before;
      for j := 0 to |ops|
        invariant Coalesces(pending, before + ops[..j])
      {
        CoalescePush(pending, before + ops[..j], ops[j]);
        assert before + ops[..j + 1] == before + ops[..j] + [ops[j]];
        pending := pending[ops[j].key := ops[j].pending];
      }
      assert ops[..|ops|] == ops && events[..i + 1] == events[..i] + [events[i]];
      OpsOfPush(names, events[..i], events[i]);
    }
    assert events[..|events|] == events;
    CoalescedMeans(names, events, pending);
  }

  /** What the coalesced map says of each vector is what the last event to speak of it asks. */
  lemma CoalescedMeans(names: Names, events: seq<Payload>, pending: map<VectorKey, Pending>)
    requires Coalesces(pending, OpsOf(names, events))
    ensures forall k :: k in pending ==> Mentioned(events, k)
    ensures forall k, i :: LastFor(events, i, k) ==>
              var p := events[i];
              var asked := if k in pending then Some(pending[k]) else None;
              && (p.ContentAppended? && k.EntryText? ==> asked == Some(Embed(p.text)))
              && (p.ContentAppended? && k.EntryContextual? && p.memory in names ==>
                    asked == Some(Embed(names[p.memory] + ": " + p.text)))
              && (p.DescriptionRegenerated? ==> asked == Some(Embed(p.text)))
              && (!p.ContentAppended? && !p.DescriptionRegenerated? ==> asked == Some(Pending.Remove))
  {
    hide OpsOf, LastOp;
    forall k | k in pending ensures Mentioned(events, k) {
      assert LastOp(OpsOf(names, events), k).Some?;
      AskedIsSpokenOf(names, events, k);
    }
    forall k, i | LastFor(events, i, k)
      ensures var p, last := events[i], LastOp(OpsOf(names, events), k);
              && (p.ContentAppended? && k.EntryText? ==> last == Some(Embed(p.text)))
              && (p.ContentAppended? && k.EntryContextual? && p.memory in names ==>
                    last == Some(Embed(names[p.memory] + ": " + p.text)))
              && (p.DescriptionRegenerated? ==> last == Some(Embed(p.text)))
              && (!p.ContentAppended? && !p.DescriptionRegenerated? ==> last == Some(Pending.Remove))
    {
      LastEventAsks(names, events, i, k);
    }
  }

  /** One vector's last change, found again in the batch. */
  lemma BatchHas<V>(embed: Embedder<V>, model: ModelId, ops: seq<Op>, batch: seq<ResolvedOp<V>>, k: VectorKey)
    requires IsBatch(embed, model, ops, batch)
    ensures match LastOp(ops, k)
            case None => true
            case Some(Remove) => Drop(k) in batch
            case Some(Embed(text)) => Carries(embed, model, batch, k, text)
  {
    hide LastOp;
    var last := LastOp(ops, k);
    if last.Some? && (last.value.Remove? || Writes(last.value)) {
      var i :| 0 <= i < |batch| && KeyOf(batch[i]) == k;
      assert Resolves(embed, model, ops, batch[i]);
    }
  }

  lemma BatchMeans<V>(embed: Embedder<V>, names: Names, model: ModelId, events: seq<Payload>,
                      batch: seq<ResolvedOp<V>>)
    requires IsBatch(embed, model, OpsOf(names, events), batch)
    ensures forall i :: 0 <= i < |batch| ==> Mentioned(events, KeyOf(batch[i]))
    ensures forall k, j :: LastFor(events, j, k) ==>
              var p := events[j];
              && (p.ContentAppended? && k.EntryText? ==> Carries(embed, model, batch, k, p.text))
              && (p.ContentAppended? && k.EntryContextual? && p.memory in names ==>
                    Carries(embed, model, batch, k, names[p.memory] + ": " + p.text))
              && (p.DescriptionRegenerated? ==> Carries(embed, model, batch, k, p.text))
              && (!p.ContentAppended? && !p.DescriptionRegenerated? ==> Drop(k) in batch)
  {
    hide OpsOf, LastOp, Concerns, Carries, IsBatch;
    forall i | 0 <= i < |batch| ensures Mentioned(events, KeyOf(batch[i])) {
      BatchAsked(embed, model, OpsOf(names, events), batch, i);
      AskedIsSpokenOf(names, events, KeyOf(batch[i]));
    }
    forall k, j | LastFor(events, j, k)
      ensures var p := events[j];
              && (p.ContentAppended? && k.EntryText? ==> Carries(embed, model, batch, k, p.text))
              && (p.ContentAppended? && k.EntryContextual? && p.memory in names ==>
                    Carries(embed, model, batch, k, names[p.memory] + ": " + p.text))
              && (p.DescriptionRegenerated? ==> Carries(embed, model, batch, k, p.text))
              && (!p.ContentAppended? && !p.DescriptionRegenerated? ==> Drop(k) in batch)
    {
      LastEventAsks(names, events, j, k);
      BatchHas(embed, model, OpsOf(names, events), batch, k);
    }
  }

  lemma BatchAsked<V>(embed: Embedder<V>, model: ModelId, ops: seq<Op>, batch: seq<ResolvedOp<V>>, i: nat)
    requires IsBatch(embed, model, ops, batch) && i < |batch|
    ensures LastOp(ops, KeyOf(batch[i])).Some?
  {
    hide LastOp;
    assert Resolves(embed, model, ops, batch[i]);
  }

  lemma NoOps(names: Names)
    ensures OpsOf(names, []) == []
  {
  }

  /** The records hold exactly the vectors of `index`. */
  ghost predicate Represents<V>(records: seq<Record<V>>, index: map<VectorKey, Vector<V>>) {
    forall k :: Lookup(records, k) == At(index, k)
  }

  function KeysOf<V>(batch: seq<ResolvedOp<V>>): set<VectorKey> {
    set i | 0 <= i < |batch| :: KeyOf(batch[i])
  }

  /** One more applied change is one more patched vector. */
  lemma PatchOne<V>(embed: Embedder<V>, model: ModelId, index: map<VectorKey, Vector<V>>, ops: seq<Op>,
                    batch: seq<ResolvedOp<V>>, n: nat, k: VectorKey)
    requires IsBatch(embed, model, ops, batch) && n < |batch|
    ensures At(Patched(embed, model, index, ops, KeysOf(batch[..n + 1])), k) ==
            if k != KeyOf(batch[n]) then At(Patched(embed, model, index, ops, KeysOf(batch[..n])), k)
            else match batch[n]
                 case Drop(_) => None
                 case Upsert(r) => Some(Vector(r.embedding, r.modelId))
  {
    hide Patched, LastOp;
    PatchedAt(embed, model, index, ops, KeysOf(batch[..n + 1]), k);
    PatchedAt(embed, model, index, ops, KeysOf(batch[..n]), k);
    assert KeysOf(batch[..n + 1]) == KeysOf(batch[..n]) + {KeyOf(batch[n])} by {
      assert forall i :: 0 <= i < n ==> batch[..n + 1][i] == batch[..n][i];
      assert batch[..n + 1][n] == batch[n];
    }
    assert Resolves(embed, model, ops, batch[n]);
  }

  /**
   Apply a batch and advance the cursor last. `stopAt` is where the run stops: the length of the
   batch for a full run, anything less for a crash, which leaves the cursor where it was.
   */
  method ApplyBatch<V>(embed: Embedder<V>, index: InMemoryVectorIndex<V>, batch: seq<ResolvedOp<V>>,
                       upTo: nat, stopAt: nat, ghost model: ModelId, ghost ops: seq<Op>,
                       ghost was: map<VectorKey, Vector<V>>)
    requires index.Valid() && IsBatch(embed, model, ops, batch) && Represents(index.records, was) && stopAt <= |batch|
    modifies index
    ensures index.Valid()
    ensures Represents(index.records, Patched(embed, model, was, ops, KeysOf(batch[..stopAt])))
    ensures index.cursor == if stopAt == |batch| then upTo else old(index.cursor)
    ensures forall n :: 0 <= n < stopAt ==>
              Lookup(index.records, KeyOf(batch[n])) ==
              match batch[n]
              case Drop(_) => None
              case Upsert(r) => Some(Vector(r.embedding, r.modelId))
    ensures forall k :: (forall n :: 0 <= n < stopAt ==> KeyOf(batch[n]) != k) ==>
              Lookup(index.records, k) == Lookup(old(index.records), k)
  {
    forall k ensures At(Patched(embed, model, was, ops, KeysOf(batch[..0])), k) == At(was, k) {
      PatchedAt(embed, model, was, ops, KeysOf(batch[..0]), k);
    }
    for n := 0 to stopAt
      invariant index.Valid() && index.cursor == old(index.cursor)
      invariant Represents(index.records, Patched(embed, model, was, ops, KeysOf(batch[..n])))
    {
      hide Patched, LastOp, IsBatch;
      match batch[n] {
        case Upsert(record) => index.Upsert(record);
        case Drop(id) => index.Remove(id);
      }
      forall k
        ensures Lookup(index.records, k) == At(Patched(embed, model, was, ops, KeysOf(batch[..n + 1])), k)
      {
        PatchOne(embed, model, was, ops, batch, n, k);
      }
    }
    BatchApplied(embed, model, was, ops, batch, stopAt, old(index.records), index.records);
    if stopAt == |batch| {
      index.SetCursor(upTo);
    }
  }

  /** What an applied stretch of a batch leaves, record by record. */
  lemma BatchApplied<V>(embed: Embedder<V>, model: ModelId, was: map<VectorKey, Vector<V>>, ops: seq<Op>,
                        batch: seq<ResolvedOp<V>>, stopAt: nat, before: seq<Record<V>>, after: seq<Record<V>>)
    requires IsBatch(embed, model, ops, batch) && stopAt <= |batch| && Represents(before, was)
    requires Represents(after, Patched(embed, model, was, ops, KeysOf(batch[..stopAt])))
    ensures forall n :: 0 <= n < stopAt ==>
              Lookup(after, KeyOf(batch[n])) ==
              match batch[n]
              case Drop(_) => None
              case Upsert(r) => Some(Vector(r.embedding, r.modelId))
    ensures forall k :: (forall n :: 0 <= n < stopAt ==> KeyOf(batch[n]) != k) ==> Lookup(after, k) == Lookup(before, k)
  {
    hide Patched, LastOp, Lookup;
    var done := KeysOf(batch[..stopAt]);
    forall n | 0 <= n < stopAt
      ensures Lookup(after, KeyOf(batch[n])) ==
              match batch[n]
              case Drop(_) => None
              case Upsert(r) => Some(Vector(r.embedding, r.modelId))
    {
      PatchedAt(embed, model, was, ops, done, KeyOf(batch[n]));
      assert batch[..stopAt][n] == batch[n];
      assert Resolves(embed, model, ops, batch[n]);
    }
    forall k | forall n :: 0 <= n < stopAt ==> KeyOf(batch[n]) != k ensures Lookup(after, k) == Lookup(before, k) {
      PatchedAt(embed, model, was, ops, done, k);
      assert forall n :: 0 <= n < stopAt ==> batch[..stopAt][n] == batch[n];
    }
  }

  lemma FullBatchIsFullPatch<V>(embed: Embedder<V>, model: ModelId, was: map<VectorKey, Vector<V>>, ops: seq<Op>,
                                batch: seq<ResolvedOp<V>>, k: VectorKey)
    requires IsBatch(embed, model, ops, batch)
    ensures At(Patched(embed, model, was, ops, KeysOf(batch)), k) == At(Patched(embed, model, was, ops, Keys(ops)), k)
  {
    hide Patched;
    PatchedAt(embed, model, was, ops, KeysOf(batch), k);
    PatchedAt(embed, model, was, ops, Keys(ops), k);
    KeysAreTouched(ops, k);
  }

  /**
   One catch-up: read past the cursor, embed, apply. It is the state machine's step, on the real
   records. Every vector then is what the last event read leaves there; an entry whose last event drops
   it has neither of its vectors.
   */
  method IndexCatchUp<V>(embed: Embedder<V>, names: Names, index: InMemoryVectorIndex<V>,
                         log: seq<Payload>, model: ModelId, ghost s: State<V>)
      returns (count: nat)
    requires index.Valid() && index.cursor <= |log|
    requires s.log == log && s.cursor == index.cursor && s.configured == model && s.phase.Ready?
    requires Represents(index.records, s.index)
    modifies index
    ensures index.Valid() && count == |log| - old(index.cursor)
    ensures Represents(index.records, Apply(embed, s, CatchUp(names, |log|)).index)
    ensures index.cursor == Apply(embed, s, CatchUp(names, |log|)).cursor
    ensures index.cursor == |log|
    ensures forall k :: Reflects(embed, model, names, log[old(index.cursor)..], k,
                                 Lookup(old(index.records), k), Lookup(index.records, k))
    ensures forall i, e ::
              && old(index.cursor) <= i < |log| && DropsEntry(log[i], e)
              && (forall j :: i < j < |log| ==> !(log[j].ContentAppended? && log[j].entry == e))
              ==> Lookup(index.records, EntryText(e)).None? && Lookup(index.records, EntryContextual(e)).None?
  {
    hide Reflects, IsBatch, Patched, LastFor, Mentioned, Carries, OpsOf, Keys, DropsEntry;
    var events := log[index.cursor..];
    assert events == log[index.cursor..|log|];
    count := |events|;
    var batch := EmbedBatch(embed, names, model, events);
    ghost var ops := OpsOf(names, events);
    ApplyBatch(embed, index, batch, |log|, |batch|, model, ops, s.index);
    assert batch[..|batch|] == batch;
    forall k ensures Lookup(index.records, k) == At(Patched(embed, model, s.index, ops, Keys(ops)), k) {
      FullBatchIsFullPatch(embed, model, s.index, ops, batch, k);
    }
    PatchReflects(embed, model, names, events, old(index.records), s.index, index.records);
    DroppedHaveNoVector(embed, model, names, log, old(index.cursor), old(index.records), index.records);
  }

  /** The index after a batch, vector by vector: what the last event read leaves. */
  lemma PatchReflects<V>(embed: Embedder<V>, model: ModelId, names: Names, events: seq<Payload>,
                         was: seq<Record<V>>, index: map<VectorKey, Vector<V>>, now: seq<Record<V>>)
    requires Represents(was, index)
    requires Represents(now, Patched(embed, model, index, OpsOf(names, events), Keys(OpsOf(names, events))))
    ensures forall k :: Reflects(embed, model, names, events, k, Lookup(was, k), Lookup(now, k))
  {
    hide Patched, OpsOf, Keys, LastOp, Reflects, Lookup;
    forall k ensures Reflects(embed, model, names, events, k, Lookup(was, k), Lookup(now, k)) {
      FullyPatchedAt(embed, model, index, OpsOf(names, events), k);
      LastChangeReflects(embed, model, names, events, k, At(index, k));
    }
  }

  /** The event takes the entry out of use: superseded, retracted, or consolidated away. */
  predicate DropsEntry(p: Payload, e: string) {
    || ((p.MemorySuperseded? || p.EntryRetracted?) && p.entry == e)
    || (p.EntriesConsolidated? && e in p.sources)
  }

  lemma DroppedHaveNoVector<V>(embed: Embedder<V>, model: ModelId, names: Names, log: seq<Payload>, from: nat,
                               was: seq<Record<V>>, now: seq<Record<V>>)
    requires from <= |log|
    requires forall k :: Reflects(embed, model, names, log[from..], k, Lookup(was, k), Lookup(now, k))
    ensures forall i, e ::
              && from <= i < |log| && DropsEntry(log[i], e)
              && (forall j :: i < j < |log| ==> !(log[j].ContentAppended? && log[j].entry == e))
              ==> Lookup(now, EntryText(e)).None? && Lookup(now, EntryContextual(e)).None?
  {
    hide Lookup, Reflects, LastFor;
    var events := log[from..];
    forall i, e |
      && from <= i < |log| && DropsEntry(log[i], e)
      && (forall j :: i < j < |log| ==> !(log[j].ContentAppended? && log[j].entry == e))
      ensures Lookup(now, EntryText(e)).None? && Lookup(now, EntryContextual(e)).None?
    {
      assert events[i - from] == log[i];
      assert forall j :: i - from < j < |events| ==> events[j] == log[from + j];
      DroppedIsNone(embed, model, names, events, i - from, e, EntryText(e), was, now);
      DroppedIsNone(embed, model, names, events, i - from, e, EntryContextual(e), was, now);
    }
  }

  lemma DroppedIsNone<V>(embed: Embedder<V>, model: ModelId, names: Names, events: seq<Payload>, i: nat, e: string,
                         k: VectorKey, was: seq<Record<V>>, now: seq<Record<V>>)
    requires i < |events| && DropsEntry(events[i], e) && (k == EntryText(e) || k == EntryContextual(e))
    requires forall j :: i < j < |events| ==> !(events[j].ContentAppended? && events[j].entry == e)
    requires Reflects(embed, model, names, events, k, Lookup(was, k), Lookup(now, k))
    ensures Lookup(now, k).None?
  {
    hide Lookup;
    var j := LastWord(events, i, e, k);
  }

  /** Once dropped and never appended again, the last event to speak of an entry drops it. */
  lemma LastWord(events: seq<Payload>, i: nat, e: string, k: VectorKey) returns (j: int)
    requires i < |events| && DropsEntry(events[i], e) && (k == EntryText(e) || k == EntryContextual(e))
    requires forall j :: i < j < |events| ==> !(events[j].ContentAppended? && events[j].entry == e)
    ensures LastFor(events, j, k) && !events[j].ContentAppended? && !events[j].DescriptionRegenerated?
  {
    assert Concerns(events[i], k);
    assert Mentioned(events, k);
    AskedIsSpokenOf(map[], events, k);
    j :| LastFor(events, j, k);
  }

  /**
   The boot's reconciliation. When the stored vectors were made with another model than the configured
   one, log the migration, empty the index and embed the whole log again; otherwise leave everything.
   It is the state machine's reconciliation, clearing and catch-up, for the vector `sample`.
   */
  method ReembedIfChanged<V>(embed: Embedder<V>, names: Names, index: InMemoryVectorIndex<V>,
                             log: seq<Payload>, model: ModelId, ghost s: State<V>)
      returns (changed: bool, log': seq<Payload>, ghost sample: VectorKey)
    requires index.Valid() && Represents(index.records, s.index)
    requires s.log == log && s.cursor == index.cursor && s.configured == model && s.phase.Started?
    modifies index
    ensures index.Valid()
    ensures changed <==> old(index.records) != [] && old(index.records)[0].modelId != model
    ensures !changed ==> log' == log && index.records == old(index.records) && index.cursor == old(index.cursor)
    ensures changed ==>
              && log' == log + [EmbeddingModelChanged(old(index.records)[0].modelId, model)]
              && index.cursor == |log'|
              && Represents(index.records, Rebuilt(embed, model, names, log'))
              && forall k :: Reflects(embed, model, names, log', k, None, Lookup(index.records, k))
    ensures Enabled(s, Reconcile(sample))
    ensures var next := Apply(embed, s, Reconcile(sample));
            && log' == next.log && (changed <==> next.phase.Migrating?)
            && (changed ==>
                  var done := Apply(embed, Apply(embed, next, Step.Clear), CatchUp(names, |log'|));
                  Represents(index.records, done.index) && index.cursor == done.cursor && log' == done.log)
  {
    hide Reflects, Patched, OpsOf, Keys, DropsEntry;
    sample := SampleOf(index.records, s.index);
    var recorded := index.StoredModel();
    changed, log' := false, log;
    if recorded.Some? && recorded.value != model {
      changed, log' := true, log + [EmbeddingModelChanged(recorded.value, model)];
      index.Clear();
      ghost var cleared := Apply(embed, Apply(embed, s, Reconcile(sample)), Step.Clear);
      var _ := IndexCatchUp(embed, names, index, log', model, cleared);
      assert log'[0..] == log' && log'[0..|log'|] == log';
    }
  }

  /** The stored vector whose model the index reports. */
  lemma SampleOf<V>(records: seq<Record<V>>, index: map<VectorKey, Vector<V>>) returns (sample: VectorKey)
    requires Represents(records, index)
    ensures records == [] ==> index == map[]
    ensures records != [] ==> sample in index && index[sample].modelId == records[0].modelId
  {
    if records == [] {
      sample := Description("");
      assert forall k :: At(index, k) == Lookup(records, k);
      assert forall k :: k in index <==> At(index, k).Some?;
      assert index.Keys == {};
    } else {
      sample := records[0].id;
      assert At(index, sample) == Lookup(records, sample);
    }
  }
}
