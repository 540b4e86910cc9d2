/**
 A batch of wire messages against its attachment budgets: one pass with running word-sized totals and
 early exits, against plain sums over the whole batch.
 */
module AttachmentBudget {
  import opened Words
  import opened Wrappers

  type BlobHash = string

  datatype Meta = Meta(mime: string, byteLen: U64)

  /** What the blob store says of an address. */
  datatype Lookup = Found(meta: Meta) | Missing | Failed

  datatype WireAttachment = WireAttachment(name: string, blob: BlobHash)
  datatype WireMessage = WireMessage(sender: string, text: string, attachments: seq<WireAttachment>)

  datatype Attachment<K> = Attachment(name: string, mime: string, blob: BlobHash, byteLen: U64, kind: K)
  datatype MessageInput<P, K> = MessageInput(sender: P, text: string, attachments: seq<Attachment<K>>)

  datatype BatchError =
    | LookupFailed
    | UnknownBlob(blob: BlobHash)
    | CountOverflow
    | TooMany
    | BytesOverflow
    | TooLarge

  /** The server's side of a delivery: its blob table, its naming rules and the configured caps. */
  datatype Desk<!P, !K> = Desk(
    lookup: BlobHash -> Lookup,
    sanitize: string -> string,
    person: string -> P,
    kindOf: string -> K,
    maxCount: U64,
    maxBytes: U64)

  function CheckedAdd(a: U64, b: U64): Option<U64> {
    if a + b < TWO_64 then Some(a + b) else None
  }

  // ---------------------------------------------------------------------------------------------
  // Plain sums
  // ---------------------------------------------------------------------------------------------

  /** Every reference of a batch, in message order and then attachment order. */
  function References(messages: seq<WireMessage>): seq<WireAttachment> {
    if messages == [] then []
    else References(messages[..|messages| - 1]) + messages[|messages| - 1].attachments
  }

  function SizeOf<P, K>(desk: Desk<P, K>, a: WireAttachment): nat {
    match desk.lookup(a.blob)
    case Found(meta) => meta.byteLen
    case _ => 0
  }

  /** The total size, as an unbounded integer. */
  function Total<P, K>(desk: Desk<P, K>, refs: seq<WireAttachment>): nat {
    if refs == [] then 0 else Total(desk, refs[..|refs| - 1]) + SizeOf(desk, refs[|refs| - 1])
  }

  /** What the two sums add for one more message and one more reference. */
  lemma OneMore<P, K>(desk: Desk<P, K>, messages: seq<WireMessage>, m: WireMessage, refs: seq<WireAttachment>,
                      a: WireAttachment)
    ensures References([]) == [] && References(messages + [m]) == References(messages) + m.attachments
    ensures Total(desk, []) == 0
    ensures Total(desk, refs + [a]) == Total(desk, refs) + match desk.lookup(a.blob)
                                                           case Found(meta) => meta.byteLen
                                                           case _ => 0
  {
    assert (messages + [m])[..|messages|] == messages && (refs + [a])[..|refs|] == refs;
  }

  ghost predicate AllFound<P, K>(desk: Desk<P, K>, refs: seq<WireAttachment>) {
    forall i :: 0 <= i < |refs| ==> desk.lookup(refs[i].blob).Found?
  }

  ghost predicate Within<P, K>(desk: Desk<P, K>, refs: seq<WireAttachment>) {
    AllFound(desk, refs) && |refs| <= desk.maxCount && Total(desk, refs) <= desk.maxBytes
  }

  lemma {:induction false} TotalSplit<P, K>(desk: Desk<P, K>, a: seq<WireAttachment>, b: seq<WireAttachment>)
    ensures Total(desk, a + b) == Total(desk, a) + Total(desk, b)
    decreases |b|
  {
    if b == [] {
      assert a + b == a;
    } else {
      assert (a + b)[..|a + b| - 1] == a + b[..|b| - 1];
      TotalSplit(desk, a, b[..|b| - 1]);
    }
  }

  lemma {:induction false} ReferencesSplit(a: seq<WireMessage>, b: seq<WireMessage>)
    ensures References(a + b) == References(a) + References(b)
    decreases |b|
  {
    if b == [] {
      assert a + b == a;
    } else {
      assert (a + b)[..|a + b| - 1] == a + b[..|b| - 1];
      ReferencesSplit(a, b[..|b| - 1]);
    }
  }

  /** Stopping early is safe: what is over budget so far stays over budget. */
  lemma OverBudgetStays<P, K>(desk: Desk<P, K>, a: seq<WireAttachment>, b: seq<WireAttachment>)
    requires Within(desk, a + b)
    ensures Within(desk, a)
  {
    TotalSplit(desk, a, b);
    forall i | 0 <= i < |a| ensures desk.lookup(a[i].blob).Found? {
      assert (a + b)[i] == a[i];
    }
  }

  /** What is wrong with reference `k`, given that everything before it is within budget. */
  function Fault<P, K>(desk: Desk<P, K>, refs: seq<WireAttachment>, k: nat): BatchError
    requires k < |refs|
  {
    match desk.lookup(refs[k].blob)
    case Failed => LookupFailed
    case Missing => UnknownBlob(refs[k].blob)
    case Found(_) =>
      if k + 1 >= TWO_64 then CountOverflow
      else if k + 1 > desk.maxCount then TooMany
      else if Total(desk, refs[..k + 1]) >= TWO_64 then BytesOverflow
      else TooLarge
  }

  /**
   What each refusal says of reference `k`: its lookup failed, or found nothing, or it found a blob and
   counting it, or adding its length, would overflow a word or pass the cap, in that order.
   */
  ghost predicate Refuses<P, K>(desk: Desk<P, K>, refs: seq<WireAttachment>, k: nat, error: BatchError)
    requires k < |refs|
  {
    var found := desk.lookup(refs[k].blob);
    match error
    case LookupFailed => found == Failed
    case UnknownBlob(blob) => found == Missing && blob == refs[k].blob
    case CountOverflow => found.Found? && k + 1 >= TWO_64
    case TooMany => found.Found? && desk.maxCount < k + 1 < TWO_64
    case BytesOverflow =>
      found.Found? && k + 1 <= desk.maxCount && Total(desk, refs[..k]) + found.meta.byteLen >= TWO_64
    case TooLarge =>
      found.Found? && k + 1 <= desk.maxCount
      && desk.maxBytes < Total(desk, refs[..k]) + found.meta.byteLen < TWO_64
  }

  ghost predicate FirstFault<P, K>(desk: Desk<P, K>, refs: seq<WireAttachment>, k: nat) {
    k < |refs| && Within(desk, refs[..k]) && !Within(desk, refs[..k + 1])
  }

  lemma {:induction false} OverBudgetHasFirstFault<P, K>(desk: Desk<P, K>, refs: seq<WireAttachment>, n: nat)
      returns (k: nat)
    requires n <= |refs| && !Within(desk, refs[..n])
    ensures FirstFault(desk, refs, k)
    decreases n
  {
    hide Within;
    NothingIsWithin(desk);
    assert refs[..0] == [];
    k := n - 1;
    if !Within(desk, refs[..n - 1]) {
      k := OverBudgetHasFirstFault(desk, refs, n - 1);
    }
  }

  /** A batch is over budget iff it has a first faulty reference. */
  lemma OverBudgetIff<P, K>(desk: Desk<P, K>, refs: seq<WireAttachment>)
    ensures !Within(desk, refs) <==> exists k: nat :: FirstFault(desk, refs, k)
  {
    hide Within;
    assert refs[..|refs|] == refs;
    if !Within(desk, refs) {
      var k := OverBudgetHasFirstFault(desk, refs, |refs|);
    }
    if k: nat :| FirstFault(desk, refs, k) {
      FirstFaultIsUnique(desk, refs, k, k);
    }
  }

  /** There is only one, whatever comes after it. */
  lemma FirstFaultIsUnique<P, K>(desk: Desk<P, K>, refs: seq<WireAttachment>, j: nat, k: nat)
    requires FirstFault(desk, refs, j) && FirstFault(desk, refs, k)
    ensures j == k && !Within(desk, refs)
  {
    assert refs == refs[..j + 1] + refs[j + 1..];
    if Within(desk, refs) {
      OverBudgetStays(desk, refs[..j + 1], refs[j + 1..]);
    } else if j < k {
      assert refs[..k] == refs[..j + 1] + refs[j + 1..k];
      OverBudgetStays(desk, refs[..j + 1], refs[j + 1..k]);
    } else if k < j {
      assert refs[..j] == refs[..k + 1] + refs[k + 1..j];
      OverBudgetStays(desk, refs[..k + 1], refs[k + 1..j]);
    }
  }

  // ---------------------------------------------------------------------------------------------
  // The pass
  // ---------------------------------------------------------------------------------------------

  /** The input carries the reference: the client's name for it, cleaned, and the stored blob's own facts. */
  predicate Carries<P, K(==)>(desk: Desk<P, K>, wire: WireAttachment, got: Attachment<K>) {
    && desk.lookup(wire.blob) == Found(Meta(got.mime, got.byteLen))
    && got.name == desk.sanitize(wire.name) && got.blob == wire.blob && got.kind == desk.kindOf(got.mime)
  }

  ghost predicate CarriesAll<P, K>(desk: Desk<P, K>, wires: seq<WireAttachment>, got: seq<Attachment<K>>) {
    |got| == |wires| && forall j :: 0 <= j < |wires| ==> Carries(desk, wires[j], got[j])
  }

  ghost predicate Delivers<P, K>(desk: Desk<P, K>, wire: WireMessage, input: MessageInput<P, K>) {
    && input.sender == desk.person(wire.sender) && input.text == wire.text
    && CarriesAll(desk, wire.attachments, input.attachments)
  }

  ghost predicate DeliversAll<P, K>(desk: Desk<P, K>, wires: seq<WireMessage>, inputs: seq<MessageInput<P, K>>) {
    |inputs| == |wires| && forall i :: 0 <= i < |wires| ==> Delivers(desk, wires[i], inputs[i])
  }

  /** Delivery, field by field: senders, texts and attachments stay in place, and only the name is the client's own. */
  lemma DeliveryMeans<P, K>(desk: Desk<P, K>, wires: seq<WireMessage>, inputs: seq<MessageInput<P, K>>)
    ensures DeliversAll(desk, wires, inputs) <==>
            && |inputs| == |wires|
            && forall i :: 0 <= i < |wires| ==>
                 && inputs[i].sender == desk.person(wires[i].sender) && inputs[i].text == wires[i].text
                 && |inputs[i].attachments| == |wires[i].attachments|
                 && forall j :: 0 <= j < |wires[i].attachments| ==>
                      var wire, got := wires[i].attachments[j], inputs[i].attachments[j];
                      && desk.lookup(wire.blob).Found?
                      && var meta := desk.lookup(wire.blob).meta;
                         got == Attachment(desk.sanitize(wire.name), meta.mime, wire.blob, meta.byteLen,
                                           desk.kindOf(meta.mime))
  {
  }

  /** One reference against the running totals. */
  method Admit<P, K>(desk: Desk<P, K>, ghost done: seq<WireAttachment>, a: WireAttachment, count: U64, bytes: U64)
    returns (r: Result<Attachment<K>, BatchError>, newCount: U64, newBytes: U64)
    requires Within(desk, done) && count == |done| && bytes == Total(desk, done)
    ensures r.Ok? <==> Within(desk, done + [a])
    ensures r.Ok? ==> newCount == |done| + 1 && newBytes == Total(desk, done + [a]) && Carries(desk, a, r.value)
    ensures r.Err? ==> r.error == Fault(desk, done + [a], |done|)
    ensures r.Ok? <==>
            && desk.lookup(a.blob).Found?
            && count + 1 <= desk.maxCount && bytes + desk.lookup(a.blob).meta.byteLen <= desk.maxBytes
    ensures r.Ok? ==>
              var meta := desk.lookup(a.blob).meta;
              && r.value == Attachment(desk.sanitize(a.name), meta.mime, a.blob, meta.byteLen, desk.kindOf(meta.mime))
              && newCount == count + 1 && newBytes == bytes + meta.byteLen
    ensures r.Err? ==>
              && newCount == count && newBytes == bytes
              && match r.error
                 case LookupFailed => desk.lookup(a.blob) == Failed
                 case UnknownBlob(blob) => desk.lookup(a.blob) == Missing && blob == a.blob
                 case CountOverflow => desk.lookup(a.blob).Found? && count + 1 == TWO_64
                 case TooMany => desk.lookup(a.blob).Found? && desk.maxCount < count + 1 < TWO_64
                 case BytesOverflow =>
                   desk.lookup(a.blob).Found? && bytes + desk.lookup(a.blob).meta.byteLen >= TWO_64
                 case TooLarge =>
                   desk.lookup(a.blob).Found? && desk.maxBytes < bytes + desk.lookup(a.blob).meta.byteLen < TWO_64
  {
    newCount, newBytes := count, bytes;
    ghost var after := done + [a];
    assert after[..|done|] == done && after[..|done| + 1] == after;
    assert AllFound(desk, after) <==> desk.lookup(a.blob).Found? by {
      assert after[|done|] == a;
      assert forall i :: 0 <= i < |done| ==> after[i] == done[i];
    }
    match desk.lookup(a.blob) {
      case Failed => return Err(LookupFailed), newCount, newBytes;
      case Missing => return Err(UnknownBlob(a.blob)), newCount, newBytes;
      case Found(meta) =>
        var nextCount := CheckedAdd(count, 1);
        if nextCount.None? {
          return Err(CountOverflow), newCount, newBytes;
        }
        if nextCount.value > desk.maxCount {
          return Err(TooMany), newCount, newBytes;
        }
        var nextBytes := CheckedAdd(bytes, meta.byteLen);
        if nextBytes.None? {
          return Err(BytesOverflow), newCount, newBytes;
        }
        if nextBytes.value > desk.maxBytes {
          return Err(TooLarge), newCount, newBytes;
        }
        newCount, newBytes := nextCount.value, nextBytes.value;
        r := Ok(Attachment(desk.sanitize(a.name), meta.mime, a.blob, meta.byteLen, desk.kindOf(meta.mime)));
    }
  }

  lemma FaultIsLocal<P, K>(desk: Desk<P, K>, done: seq<WireAttachment>, a: WireAttachment, later: seq<WireAttachment>)
    requires Within(desk, done) && !Within(desk, done + [a])
    ensures FirstFault(desk, done + [a] + later, |done|)
    ensures Fault(desk, done + [a] + later, |done|) == Fault(desk, done + [a], |done|)
    ensures !Within(desk, done + [a] + later)
  {
    var all := done + [a] + later;
    assert all[..|done|] == done && all[..|done| + 1] == done + [a] && (done + [a])[..|done| + 1] == done + [a];
    if Within(desk, all) {
      OverBudgetStays(desk, done + [a], later);
    }
  }

  lemma BatchSplit(messages: seq<WireMessage>, i: nat, j: nat)
    requires i < |messages| && j < |messages[i].attachments|
    ensures References(messages) ==
            References(messages[..i]) + messages[i].attachments[..j] + [messages[i].attachments[j]]
            + (messages[i].attachments[j + 1..] + References(messages[i + 1..]))
  {
    var m := messages[i];
    var before, after := References(messages[..i]), References(messages[i + 1..]);
    assert References([m]) == m.attachments by {
      assert [m][..0] == [];
    }
    assert References(messages) == before + (m.attachments + after) by {
      assert messages == messages[..i] + ([m] + messages[i + 1..]);
      ReferencesSplit(messages[..i], [m] + messages[i + 1..]);
      ReferencesSplit([m], messages[i + 1..]);
    }
    Regroup(before, m.attachments, j, after);
  }

  lemma Regroup<T>(before: seq<T>, here: seq<T>, j: nat, after: seq<T>)
    requires j < |here|
    ensures before + (here + after) == before + here[..j] + [here[j]] + (here[j + 1..] + after)
  {
  }

  /**
   The pass accepts exactly the batches within both plain budgets, delivers them in order, and
   otherwise reports the first reference that breaks one.
   */
  method MessageInputs<P, K>(desk: Desk<P, K>, messages: seq<WireMessage>)
    returns (r: Result<seq<MessageInput<P, K>>, BatchError>)
    ensures r.Ok? <==> Within(desk, References(messages))
    ensures var refs := References(messages);
            r.Ok? <==>
            && (forall i :: 0 <= i < |refs| ==> desk.lookup(refs[i].blob).Found?)
            && |refs| <= desk.maxCount && Total(desk, refs) <= desk.maxBytes
    ensures r.Ok? ==> DeliversAll(desk, messages, r.value)
    ensures r.Err? ==> exists k: nat :: FirstFault(desk, References(messages), k) &&
                                        r.error == Fault(desk, References(messages), k) &&
                                        Refuses(desk, References(messages), k, r.error)
  {
    WithinMeans(desk, References(messages));
    hide Within, Fault, FirstFault, Total, Refuses;
    var inputs: seq<MessageInput<P, K>> := [];
    var count: U64, bytes: U64 := 0, 0;
    NothingIsWithin(desk);
    for i := 0 to |messages|
      invariant Within(desk, References(messages[..i]))
      invariant count == |References(messages[..i])| && bytes == Total(desk, References(messages[..i]))
      invariant DeliversAll(desk, messages[..i], inputs)
    {
      var message := messages[i];
      ghost var before := References(messages[..i]);
      var attachments: seq<Attachment<K>> := [];
      assert before + message.attachments[..0] == before;
      for j := 0 to |message.attachments|
        invariant Within(desk, before + message.attachments[..j])
        invariant count == |before + message.attachments[..j]|
        invariant bytes == Total(desk, before + message.attachments[..j])
        invariant CarriesAll(desk, message.attachments[..j], attachments)
      {
        var a := message.attachments[j];
        ghost var done := before + message.attachments[..j];
        var admitted, nextCount, nextBytes := Admit(desk, done, a, count, bytes);
        if admitted.Err? {
          BatchSplit(messages, i, j);
          ghost var later := message.attachments[j + 1..] + References(messages[i + 1..]);
          FaultIsLocal(desk, done, a, later);
          RefusalMeans(desk, References(messages), |done|);
          return Err(admitted.error);
        }
        count, bytes := nextCount, nextBytes;
        attachments := attachments + [admitted.value];
        assert before + message.attachments[..j + 1] == done + [a];
      }
      assert message.attachments[..|message.attachments|] == message.attachments;
      assert messages[..i + 1][..i] == messages[..i];
      inputs := inputs + [MessageInput(desk.person(message.sender), message.text, attachments)];
    }
    assert messages[..|messages|] == messages;
    return Ok(inputs);
  }

  lemma NothingIsWithin<P, K>(desk: Desk<P, K>)
    ensures Within(desk, []) && Total(desk, []) == 0
  {
  }

  lemma WithinMeans<P, K>(desk: Desk<P, K>, refs: seq<WireAttachment>)
    ensures Within(desk, refs) <==>
            && (forall i :: 0 <= i < |refs| ==> desk.lookup(refs[i].blob).Found?)
            && |refs| <= desk.maxCount && Total(desk, refs) <= desk.maxBytes
  {
  }

  /**
   What each refusal says of the batch, and that only one applies; a count can overflow only under a cap
   as large as the word itself.
   */
  lemma RefusalMeans<P, K>(desk: Desk<P, K>, refs: seq<WireAttachment>, k: nat)
    requires FirstFault(desk, refs, k)
    ensures Fault(desk, refs, k) == CountOverflow ==> desk.maxCount == TWO_64 - 1 && k == TWO_64 - 1
    ensures Fault(desk, refs, k) == BytesOverflow ==> Total(desk, refs[..k]) + SizeOf(desk, refs[k]) >= TWO_64
    ensures Fault(desk, refs, k) == TooLarge ==> desk.maxBytes < Total(desk, refs[..k + 1]) < TWO_64
    ensures Fault(desk, refs, k) == TooMany ==> k == desk.maxCount
    ensures forall error :: Refuses(desk, refs, k, error) <==> error == Fault(desk, refs, k)
  {
    assert refs[..k + 1][..k] == refs[..k];
    assert forall i :: 0 <= i < k ==> refs[..k + 1][i] == refs[..k][i];
  }
}
