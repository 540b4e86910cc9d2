/**
 The live event stream: the log's feed, the thread that forwards it to a bounded broadcast, and any
 number of clients that each subscribe, read a snapshot and then follow the broadcast, dropping what
 the snapshot already covered.
 */
module EventStreams {
  import opened Words
  import opened EventLog

  /**
   A connected client: subscribed to the broadcast but without its snapshot, streaming, or ended.
   `pos` is its place in the broadcast, `backlog` what is left of its snapshot, `out` what it was
   sent, and `base` the number of log rows its stream starts after.
   */
  datatype Client =
    | Subscribed(from: U64, pos: nat)
    | Streaming(from: U64, pos: nat, base: nat, backlog: seq<Event>, lastSeq: int, out: seq<Event>)
    | Ended(from: U64, base: nat, out: seq<Event>)

  /** `start` is the log's length when the forwarding thread subscribed; `sent` is all it has broadcast. */
  datatype State = State(
    log: seq<Event>,
    start: nat,
    queue: seq<Event>,
    sent: seq<Event>,
    clients: map<nat, Client>)

  datatype Step =
    | Commit(payloads: seq<string>)
    | Forward
    | Subscribe(c: nat, subscribeFrom: U64)
    | Snapshot(c: nat)
    | Yield(c: nat)
    | Receive(c: nat)
    | End(c: nat)

  /** The horizon below which an empty snapshot delivers nothing. */
  function SaturatingPred(x: U64): nat {
    if x == 0 then 0 else x - 1
  }

  function Stamp(payloads: seq<string>, after: nat): (rows: seq<Event>)
    ensures |rows| == |payloads|
    ensures forall i :: 0 <= i < |rows| ==> rows[i] == Event(after + i + 1, payloads[i])
  {
    seq(|payloads|, i requires 0 <= i < |payloads| => Event(after + i + 1, payloads[i]))
  }

  function TakeSnapshot(log: seq<Event>, from: U64, pos: nat): Client {
    var snapshot := ReadFrom(log, from);
    var horizon := SaturatingPred(from);
    if snapshot == [] then Streaming(from, pos, horizon, [], horizon, [])
    else
      var base := if snapshot[0].seqNo >= 1 then snapshot[0].seqNo - 1 else 0;
      Streaming(from, pos, base, snapshot, snapshot[|snapshot| - 1].seqNo, [])
  }

  /** One `recv`: an overrun ends the stream, an event the snapshot covered is dropped, any other is sent. */
  function TakeNext(client: Client, sent: seq<Event>, capacity: nat): Client
    requires client.Streaming? && client.pos < |sent|
  {
    if |sent| - client.pos > capacity then Ended(client.from, client.base, client.out)
    else
      var event := sent[client.pos];
      if event.seqNo <= client.lastSeq then client.(pos := client.pos + 1)
      else client.(pos := client.pos + 1, lastSeq := event.seqNo, out := client.out + [event])
  }

  function EndOf(client: Client): Client {
    match client
    case Subscribed(from, _) => Ended(from, 0, [])
    case Streaming(from, _, base, _, _, out) => Ended(from, base, out)
    case Ended(_, _, _) => client
  }

  predicate Enabled(s: State, step: Step) {
    match step
    case Commit(payloads) => |s.log| + |payloads| <= I64_MAX
    case Forward => s.queue != []
    case Subscribe(c, _) => c !in s.clients
    case Snapshot(c) => c in s.clients && s.clients[c].Subscribed?
    case Yield(c) => c in s.clients && s.clients[c].Streaming? && s.clients[c].backlog != []
    case Receive(c) =>
      c in s.clients && s.clients[c].Streaming? && s.clients[c].backlog == [] && s.clients[c].pos < |s.sent|
    case End(c) => c in s.clients
  }

  function Apply(s: State, step: Step, capacity: nat): State
    requires Enabled(s, step)
  {
    match step
    case Commit(payloads) =>
      var rows := Stamp(payloads, |s.log|);
      s.(log := s.log + rows, queue := s.queue + rows)
    case Forward => s.(queue := s.queue[1..], sent := s.sent + [s.queue[0]])
    case Subscribe(c, from) => s.(clients := s.clients[c := Subscribed(from, |s.sent|)])
    case Snapshot(c) =>
      s.(clients := s.clients[c := TakeSnapshot(s.log, s.clients[c].from, s.clients[c].pos)])
    case Yield(c) =>
      var k := s.clients[c];
      s.(clients := s.clients[c := k.(backlog := k.backlog[1..], out := k.out + [k.backlog[0]])])
    case Receive(c) => s.(clients := s.clients[c := TakeNext(s.clients[c], s.sent, capacity)])
    case End(c) => s.(clients := s.clients[c := EndOf(s.clients[c])])
  }

  predicate Legal(s: State, steps: seq<Step>, capacity: nat)
    decreases steps
  {
    steps == [] || (Enabled(s, steps[0]) && Legal(Apply(s, steps[0], capacity), steps[1..], capacity))
  }

  function Exec(s: State, steps: seq<Step>, capacity: nat): State
    requires Legal(s, steps, capacity)
    decreases steps
  {
    if steps == [] then s else Exec(Apply(s, steps[0], capacity), steps[1..], capacity)
  }

  /** A run is its steps, one after another: each has to be possible when its turn comes. */
  lemma {:induction false} RunsCompose(s: State, a: seq<Step>, b: seq<Step>, capacity: nat)
    ensures Legal(s, [], capacity) && Exec(s, [], capacity) == s
    ensures forall step :: Legal(s, [step], capacity) <==> Enabled(s, step)
    ensures forall step :: Enabled(s, step) ==> Exec(s, [step], capacity) == Apply(s, step, capacity)
    ensures Legal(s, a + b, capacity) <==> Legal(s, a, capacity) && Legal(Exec(s, a, capacity), b, capacity)
    ensures Legal(s, a + b, capacity) ==> Exec(s, a + b, capacity) == Exec(Exec(s, a, capacity), b, capacity)
    decreases a
  {
    hide Apply, Enabled;
    forall step: Step ensures [step][1..] == [] && [step][0] == step {
    }
    if a == [] {
      assert a + b == b;
    } else {
      assert (a + b)[1..] == a[1..] + b;
      if Enabled(s, a[0]) {
        RunsCompose(Apply(s, a[0], capacity), a[1..], b, capacity);
      }
    }
  }

  /** The state once the forwarding thread has subscribed to a log that already holds `log`. */
  function Started(log: seq<Event>): State {
    State(log, |log|, [], [], map[])
  }

  // ---------------------------------------------------------------------------------------------
  // The invariant
  // ---------------------------------------------------------------------------------------------

  /** What was broadcast and what is queued are the log since the thread subscribed. */
  ghost predicate FeedLaw(s: State) {
    && Contiguous(s.log)
    && s.start <= |s.log|
    && s.sent + s.queue == s.log[s.start..]
  }

  /** `rows` are the log rows after the first `base`, in order and without a gap. */
  ghost predicate Follows(log: seq<Event>, base: nat, rows: seq<Event>) {
    rows == [] || (base + |rows| <= |log| && rows == log[base..base + |rows|])
  }

  ghost predicate ClientLaw(s: State, k: Client) {
    match k
    case Subscribed(_, pos) => pos <= |s.sent|
    case Streaming(from, pos, base, backlog, lastSeq, out) =>
      && pos <= |s.sent|
      && Follows(s.log, base, out + backlog)
      && lastSeq == base + |out + backlog|
      && s.start + pos <= lastSeq
      && (from < TWO_63 ==> base == SaturatingPred(from))
    case Ended(from, base, out) =>
      && Follows(s.log, base, out)
      && (from < TWO_63 && out != [] ==> base == SaturatingPred(from))
  }

  ghost predicate Inv(s: State) {
    FeedLaw(s) && forall c :: c in s.clients ==> ClientLaw(s, s.clients[c])
  }

  /** A snapshot is a tail of the log ending at its head; an empty one means the horizon is at or past the head. */
  lemma SnapshotShape(log: seq<Event>, from: U64, snapshot: seq<Event>)
    requires Contiguous(log) && snapshot == ReadFrom(log, from)
    ensures |snapshot| <= |log| && snapshot == log[|log| - |snapshot|..]
    ensures snapshot == [] ==> SaturatingPred(from) >= |log|
    ensures snapshot != [] && from < TWO_63 ==> |log| - |snapshot| == SaturatingPred(from)
    ensures snapshot != [] ==> snapshot[0].seqNo == |log| - |snapshot| + 1
    ensures snapshot != [] ==> snapshot[|snapshot| - 1].seqNo == |log|
  {
    hide ReadFrom;
    ReadFromIsTail(log, from);
  }

  /**
   Subscribing first is what makes the cut gapless: nothing forwarded before the subscription is past
   the snapshot.
   */
  lemma SnapshotKeepsLaw(s: State, from: U64, pos: nat)
    requires FeedLaw(s) && pos <= |s.sent|
    ensures ClientLaw(s, TakeSnapshot(s.log, from, pos))
  {
    hide ReadFrom, Contiguous, Follows;
    var snapshot := ReadFrom(s.log, from);
    SnapshotShape(s.log, from, snapshot);
    SentIsBounded(s);
    var k := TakeSnapshot(s.log, from, pos);
    assert k.out + k.backlog == snapshot;
    TailFollows(s.log, k.base, snapshot);
  }

  lemma SentIsBounded(s: State)
    requires FeedLaw(s)
    ensures s.start + |s.sent| <= |s.log|
  {
    assert |s.sent| + |s.queue| == |s.log[s.start..]|;
  }

  lemma TailFollows(log: seq<Event>, base: nat, rows: seq<Event>)
    requires |rows| <= |log| && rows == log[|log| - |rows|..]
    requires rows != [] ==> base == |log| - |rows|
    ensures Follows(log, base, rows)
  {
  }

  lemma ReceiveKeepsLaw(s: State, k: Client, capacity: nat)
    requires FeedLaw(s) && ClientLaw(s, k)
    requires k.Streaming? && k.backlog == [] && k.pos < |s.sent|
    ensures ClientLaw(s, TakeNext(k, s.sent, capacity))
  {
    assert s.sent[k.pos] == (s.sent + s.queue)[k.pos] == s.log[s.start + k.pos];
    assert k.out + [] == k.out;
    var k' := TakeNext(k, s.sent, capacity);
    if k'.Streaming? && k'.out != k.out {
      assert k'.out + [] == k'.out;
      assert s.start + k.pos == k.lastSeq;
      assert k'.out == s.log[k.base..k.base + |k'.out|];
    }
  }

  lemma YieldKeepsLaw(s: State, k: Client)
    requires ClientLaw(s, k) && k.Streaming? && k.backlog != []
    ensures ClientLaw(s, k.(backlog := k.backlog[1..], out := k.out + [k.backlog[0]]))
  {
    assert k.out + [k.backlog[0]] + k.backlog[1..] == k.out + k.backlog;
  }

  lemma EndKeepsLaw(s: State, k: Client)
    requires ClientLaw(s, k)
    ensures ClientLaw(s, EndOf(k))
  {
    if k.Streaming? && k.out != [] {
      assert k.out == (k.out + k.backlog)[..|k.out|];
    }
  }

  /** A commit extends the log and the queue and takes nothing from any client. */
  lemma GrowthKeepsLaw(s: State, s': State, k: Client)
    requires ClientLaw(s, k) && s.log <= s'.log && s.sent <= s'.sent && s.start == s'.start
    ensures ClientLaw(s', k)
  {
  }

  lemma CommitKeepsFeed(s: State, payloads: seq<string>, capacity: nat)
    requires FeedLaw(s) && Enabled(s, Commit(payloads))
    ensures FeedLaw(Apply(s, Commit(payloads), capacity))
  {
    var rows := Stamp(payloads, |s.log|);
    assert s.sent + (s.queue + rows) == (s.sent + s.queue) + rows;
    assert (s.log + rows)[s.start..] == s.log[s.start..] + rows;
  }

  lemma StepKeepsInvariant(s: State, step: Step, capacity: nat)
    requires Inv(s) && Enabled(s, step)
    ensures Inv(Apply(s, step, capacity))
  {
    var s' := Apply(s, step, capacity);
    match step
    case Commit(payloads) =>
      CommitKeepsFeed(s, payloads, capacity);
      forall c | c in s.clients ensures ClientLaw(s', s.clients[c]) { GrowthKeepsLaw(s, s', s.clients[c]); }
    case Forward =>
      assert s'.sent + s'.queue == s.sent + s.queue;
      forall c | c in s.clients ensures ClientLaw(s', s.clients[c]) { GrowthKeepsLaw(s, s', s.clients[c]); }
    case Subscribe(c, from) =>
    case Snapshot(c) => SnapshotKeepsLaw(s, s.clients[c].from, s.clients[c].pos);
    case Yield(c) => YieldKeepsLaw(s, s.clients[c]);
    case Receive(c) => ReceiveKeepsLaw(s, s.clients[c], capacity);
    case End(c) => EndKeepsLaw(s, s.clients[c]);
  }

  /** The log and its feed: only a commit writes rows, and only the thread forwards them, one at a time. */
  lemma FeedSteps(s: State, step: Step, capacity: nat)
    requires Enabled(s, step)
    ensures var s' := Apply(s, step, capacity);
            && s'.start == s.start
            && (step.Commit? ==>
                  var n := |step.payloads|;
                  && |s'.log| == |s.log| + n && s'.log[..|s.log|] == s.log
                  && |s'.queue| == |s.queue| + n && s'.queue[..|s.queue|] == s.queue
                  && s'.sent == s.sent
                  && (forall i :: 0 <= i < n ==>
                        s'.log[|s.log| + i] == s'.queue[|s.queue| + i] == Event(|s.log| + i + 1, step.payloads[i])))
            && (step.Forward? ==>
                  && s'.log == s.log
                  && s'.sent == s.sent + [s.queue[0]] && [s.queue[0]] + s'.queue == s.queue)
            && (!step.Commit? && !step.Forward? ==> s'.log == s.log && s'.queue == s.queue && s'.sent == s.sent)
  {
  }

  /** Whose step it is; a commit and a forward are no client's. */
  function Mover(step: Step): set<nat> {
    match step
    case Commit(_) => {}
    case Forward => {}
    case Subscribe(c, _) => {c}
    case Snapshot(c) => {c}
    case Yield(c) => {c}
    case Receive(c) => {c}
    case End(c) => {c}
  }

  /** No step touches another client, and none makes a client vanish. */
  lemma OtherClientsStand(s: State, step: Step, capacity: nat, d: nat)
    requires Enabled(s, step) && d !in Mover(step)
    ensures var s' := Apply(s, step, capacity);
            (d in s'.clients <==> d in s.clients) && (d in s.clients ==> s'.clients[d] == s.clients[d])
    ensures Mover(step) <= Apply(s, step, capacity).clients.Keys
  {
  }

  /**
   What each step does to its own client. A subscription starts at the broadcast's end; reading the
   snapshot keeps that place; the backlog is sent in order; a receive ends the stream exactly when more
   than `capacity` rows are waiting, and otherwise takes one row and sends it unless it was covered; the
   end keeps what was sent.
   */
  lemma ClientSteps(s: State, step: Step, capacity: nat, c: nat)
    requires Enabled(s, step) && Mover(step) == {c}
    ensures var k' := Apply(s, step, capacity).clients[c];
            && (step.Subscribe? ==> k' == Subscribed(step.subscribeFrom, |s.sent|))
            && (!step.Subscribe? ==>
                  var k := s.clients[c];
                  && k'.from == k.from
                  && (step.Snapshot? ==>
                        && k'.Streaming? && k'.pos == k.pos && k'.out == []
                        && (k.from >= TWO_63 && Contiguous(s.log) ==> k'.backlog == s.log)
                        && (k.from < TWO_63 && Contiguous(s.log) ==>
                              && |k'.backlog| == (if k.from == 0 then |s.log|
                                                  else if k.from - 1 < |s.log| then |s.log| - (k.from - 1) else 0)
                              && k'.backlog == s.log[|s.log| - |k'.backlog|..]))
                  && (step.Yield? ==>
                        && k'.Streaming? && k'.pos == k.pos && k'.base == k.base && k'.lastSeq == k.lastSeq
                        && k'.out == k.out + [k.backlog[0]] && [k.backlog[0]] + k'.backlog == k.backlog)
                  && (step.Receive? ==>
                        var row := s.sent[k.pos];
                        && (k'.Ended? <==> |s.sent| - k.pos > capacity)
                        && k'.base == k.base
                        && k'.out == (if k'.Ended? || row.seqNo <= k.lastSeq then k.out else k.out + [row])
                        && (k'.Streaming? ==>
                              && k'.pos == k.pos + 1 && k'.backlog == k.backlog
                              && k'.lastSeq == if row.seqNo <= k.lastSeq then k.lastSeq else row.seqNo))
                  && (step.End? ==>
                        && k'.Ended?
                        && (k.Subscribed? ==> k'.out == [])
                        && (!k.Subscribed? ==> k'.out == k.out && k'.base == k.base)))
  {
    if step.Snapshot? && Contiguous(s.log) {
      ReadFromIsTail(s.log, s.clients[c].from);
    }
  }

  /** A queued row can always be forwarded, and a client can go on unless it has drained its feed. */
  lemma NobodyIsStuck(s: State)
    requires Inv(s)
    ensures s.queue != [] ==> Enabled(s, Forward)
    ensures forall c :: c in s.clients ==>
              var k := s.clients[c];
              || k.Ended?
              || (k.Streaming? && k.backlog == [] && k.pos == |s.sent|)
              || (exists step :: step in {Snapshot(c), Yield(c), Receive(c)} && Enabled(s, step))
  {
    forall c | c in s.clients && !s.clients[c].Ended?
      ensures var k := s.clients[c];
              || (k.Streaming? && k.backlog == [] && k.pos == |s.sent|)
              || (exists step :: step in {Snapshot(c), Yield(c), Receive(c)} && Enabled(s, step))
    {
      var k := s.clients[c];
      assert ClientLaw(s, k);
      if k.Subscribed? {
        assert Enabled(s, Snapshot(c));
      } else if k.backlog != [] {
        assert Enabled(s, Yield(c));
      } else if k.pos < |s.sent| {
        assert Enabled(s, Receive(c));
      }
    }
  }

  lemma {:induction false} EveryRunKeepsInvariant(s: State, steps: seq<Step>, capacity: nat)
    requires Inv(s) && Legal(s, steps, capacity)
    ensures Inv(Exec(s, steps, capacity))
    decreases steps
  {
    if steps != [] {
      StepKeepsInvariant(s, steps[0], capacity);
      EveryRunKeepsInvariant(Apply(s, steps[0], capacity), steps[1..], capacity);
    }
  }

  // ---------------------------------------------------------------------------------------------
  // The theorems
  // ---------------------------------------------------------------------------------------------

  predicate Connected(s: State, c: nat) {
    c in s.clients && !s.clients[c].Subscribed?
  }

  /**
   Whatever the interleaving, what a client was sent is the log from one row on: no gap, no
   duplicate, no reordering. For a `from` below 2^63 that row is the one it asked for.
   */
  lemma GaplessCut(log: seq<Event>, steps: seq<Step>, capacity: nat, s: State, c: nat)
    requires Contiguous(log) && Legal(Started(log), steps, capacity) && s == Exec(Started(log), steps, capacity)
    requires Connected(s, c)
    ensures var k := s.clients[c];
            && (k.out != [] ==> k.base + |k.out| <= |s.log| && k.out == s.log[k.base..k.base + |k.out|])
            && (forall i :: 0 <= i < |k.out| ==> k.out[i].seqNo == k.base + i + 1)
            && (k.from < TWO_63 && k.out != [] ==> k.out[0].seqNo == if k.from == 0 then 1 else k.from)
  {
    EveryRunKeepsInvariant(Started(log), steps, capacity);
    var k := s.clients[c];
    assert ClientLaw(s, k);
    if k.Streaming? && k.out != [] {
      assert k.out == (k.out + k.backlog)[..|k.out|];
    }
  }

  /** A streaming client that has drained everything has the whole log from its start. */
  lemma DrainedClientHasEverything(s: State, c: nat)
    requires Inv(s) && c in s.clients && s.clients[c].Streaming?
    requires s.clients[c].backlog == [] && s.clients[c].pos == |s.sent| && s.queue == []
    requires s.clients[c].base <= |s.log|
    ensures s.clients[c].out == s.log[s.clients[c].base..]
  {
    var k := s.clients[c];
    assert ClientLaw(s, k);
    assert k.out + [] == k.out;
    assert s.sent + [] == s.sent;
  }

  /**
   Where a stream starts, exactly. The table reads the word `from` as signed, so at or past 2^63 a
   non-empty log is replayed whole; a stream starts where it was asked to precisely when `from` is
   below 2^63 or the log is still empty.
   */
  lemma StartsWhereAskedIff(log: seq<Event>, from: U64, pos: nat)
    requires Contiguous(log)
    ensures TakeSnapshot(log, from, pos).Streaming?
    ensures TakeSnapshot(log, from, pos).base == SaturatingPred(from) <==> from < TWO_63 || log == []
  {
    ReadFromIsTail(log, from);
  }

  /** A one-row log read from 2^63: the client asked for nothing below 2^63 and is sent row 1. */
  lemma HighFromReplaysTheLog(payload: string)
    ensures TakeSnapshot([Event(1, payload)], TWO_63, 0).backlog == [Event(1, payload)]
  {
    ReadFromIsTail([Event(1, payload)], TWO_63);
  }

  /** What a connected client was sent, whether it still streams or not. */
  lemma SentFollows(s: State, c: nat)
    requires Inv(s) && Connected(s, c)
    ensures var k := s.clients[c];
            Follows(s.log, k.base, k.out) && (k.from < TWO_63 && k.out != [] ==> k.base == SaturatingPred(k.from))
  {
    var k := s.clients[c];
    assert ClientLaw(s, k);
    if k.Streaming? {
      assert k.out == (k.out + k.backlog)[..|k.out|];
    }
  }

  lemma FollowsOn(log: seq<Event>, base: nat, rows: seq<Event>, more: seq<Event>)
    requires Follows(log, base, rows) && Follows(log, base + |rows|, more)
    ensures Follows(log, base, rows + more)
  {
    if rows == [] {
      assert rows + more == more;
    } else if more == [] {
      assert rows + more == rows;
    } else {
      var mid, end := base + |rows|, base + |rows| + |more|;
      assert log[base..mid] + log[mid..end] == log[base..end];
    }
  }

  /** Reconnecting from the last row seen continues the same gapless sequence. */
  lemma ReconnectContinues(s: State, c: nat, c': nat)
    requires Inv(s) && Connected(s, c) && Connected(s, c')
    requires s.clients[c'].from < TWO_63 && s.clients[c'].from == s.clients[c].base + |s.clients[c].out| + 1
    ensures Follows(s.log, s.clients[c].base, s.clients[c].out + s.clients[c'].out)
  {
    hide Inv, Follows;
    var a, b := s.clients[c], s.clients[c'];
    SentFollows(s, c);
    SentFollows(s, c');
    if b.out == [] {
      assert a.out + b.out == a.out;
    } else {
      FollowsOn(s.log, a.base, a.out, b.out);
    }
  }

  // ---------------------------------------------------------------------------------------------
  // The handler's own loop
  // ---------------------------------------------------------------------------------------------

  datatype Received = Got(event: Event) | Lagged | Closed
  datatype Frame = EventFrame(event: Event) | EndFrame

  function Frames(rows: seq<Event>): (f: seq<Frame>)
    ensures |f| == |rows|
    ensures forall i :: 0 <= i < |rows| ==> f[i] == EventFrame(rows[i])
  {
    seq(|rows|, i requires 0 <= i < |rows| => EventFrame(rows[i]))
  }

  /**
   The events a connection sends after its snapshot: what it receives past `lastSeq`, until the feed
   lags or closes.
   */
  function Fresh(feed: seq<Received>, lastSeq: int): seq<Event> {
    if feed == [] || !feed[0].Got? then []
    else if feed[0].event.seqNo <= lastSeq then Fresh(feed[1..], lastSeq)
    else [feed[0].event] + Fresh(feed[1..], feed[0].event.seqNo)
  }

  predicate Breaks(feed: seq<Received>) {
    exists i :: 0 <= i < |feed| && !feed[i].Got?
  }

  /** The first `n` items are events. */
  ghost predicate Heard(feed: seq<Received>, n: nat) {
    n <= |feed| && forall i :: 0 <= i < n ==> feed[i].Got?
  }

  function Horizon(from: U64, snapshot: seq<Event>): int {
    if snapshot == [] then SaturatingPred(from) else snapshot[|snapshot| - 1].seqNo
  }

  /** The receiver hands over consecutive log rows from `at` on until it lags or closes. */
  ghost predicate FeedOf(log: seq<Event>, at: nat, feed: seq<Received>) {
    forall n :: 0 < n && Heard(feed, n) ==> at + n <= |log| && feed[n - 1].event == log[at + n - 1]
  }

  /**
   What a connection is given once the log has grown to `log`: the snapshot was read when the log held
   `head` rows, and the subscription taken before it hands over the rows from `at` on.
   */
  ghost predicate Offered(
    log: seq<Event>, head: nat, at: nat, from: U64, snapshot: seq<Event>, feed: seq<Received>)
  {
    && Contiguous(log)
    && at <= head <= |log|
    && snapshot == ReadFrom(log[..head], from)
    && FeedOf(log, at, feed)
  }

  lemma PrependRow(log: seq<Event>, at: nat, rows: seq<Event>)
    requires at < |log| && Follows(log, at + 1, rows)
    ensures Follows(log, at, [log[at]] + rows)
  {
    assert log[at..at + 1 + |rows|] == [log[at]] + log[at + 1..at + 1 + |rows|];
  }

  lemma FeedTail(log: seq<Event>, at: nat, feed: seq<Received>)
    requires Contiguous(log) && FeedOf(log, at, feed) && feed != [] && feed[0].Got?
    ensures at < |log| && feed[0].event == log[at] && log[at].seqNo == at + 1
    ensures FeedOf(log, at + 1, feed[1..]) && (!Breaks(feed) ==> !Breaks(feed[1..]))
  {
    assert Heard(feed, 1);
    assert forall i :: 0 <= i < |feed| - 1 ==> feed[1..][i] == feed[i + 1];
    forall n | 0 < n && Heard(feed[1..], n)
      ensures at + 1 + n <= |log| && feed[1..][n - 1].event == log[at + n]
    {
      assert Heard(feed, n + 1);
    }
  }

  /** A feed that begins no later than the horizon continues the log from the horizon, and reaches its own end. */
  lemma {:induction false} FreshContinues(log: seq<Event>, at: nat, feed: seq<Received>, lastSeq: nat)
    requires Contiguous(log) && FeedOf(log, at, feed) && at <= lastSeq
    ensures Follows(log, lastSeq, Fresh(feed, lastSeq))
    ensures !Breaks(feed) ==> lastSeq + |Fresh(feed, lastSeq)| >= at + |feed|
    decreases feed
  {
    if feed != [] && feed[0].Got? {
      hide FeedOf, Breaks, Follows, Contiguous;
      FeedTail(log, at, feed);
      var next := if feed[0].event.seqNo <= lastSeq then lastSeq else feed[0].event.seqNo;
      FreshContinues(log, at + 1, feed[1..], next);
      if next != lastSeq {
        PrependRow(log, lastSeq, Fresh(feed[1..], next));
      }
    }
  }

  /** How many rows that is, whether the feed breaks or not: what was heard, less what the horizon covers. */
  lemma {:induction false} FreshCounts(log: seq<Event>, at: nat, feed: seq<Received>, lastSeq: nat, heard: nat)
    requires Contiguous(log) && FeedOf(log, at, feed) && at <= lastSeq
    requires Heard(feed, heard) && (heard < |feed| ==> !feed[heard].Got?)
    ensures |Fresh(feed, lastSeq)| == if at + heard > lastSeq then at + heard - lastSeq else 0
    decreases feed
  {
    if heard > 0 {
      FeedTail(log, at, feed);
      var next := if feed[0].event.seqNo <= lastSeq then lastSeq else feed[0].event.seqNo;
      FreshCounts(log, at + 1, feed[1..], next, heard - 1);
    }
  }

  /** The snapshot and what follows it: the log after `base` rows, up to the later of its head and the feed's. */
  lemma RelayedRows(
    log: seq<Event>, head: nat, at: nat, from: U64, snapshot: seq<Event>, feed: seq<Received>, heard: nat, base: nat)
    requires Offered(log, head, at, from, snapshot, feed)
    requires Heard(feed, heard) && (heard < |feed| ==> !feed[heard].Got?)
    requires base == if from == 0 || (from >= TWO_63 && head > 0) then 0 else from - 1
    ensures var rows := snapshot + Fresh(feed, Horizon(from, snapshot));
            && Follows(log, base, rows)
            && base + |rows| == (if base > head && base > at + heard then base
                                 else if head > at + heard then head else at + heard)
  {
    hide ReadFrom, Fresh, FeedOf, Follows, Heard;
    SnapshotFollows(log, head, from, snapshot, base);
    var lastSeq := base + |snapshot|;
    FreshContinues(log, at, feed, lastSeq);
    FreshCounts(log, at, feed, lastSeq, heard);
    FollowsOn(log, base, snapshot, Fresh(feed, lastSeq));
  }

  lemma SnapshotFollows(log: seq<Event>, head: nat, from: U64, snapshot: seq<Event>, base: nat)
    requires Contiguous(log) && head <= |log| && snapshot == ReadFrom(log[..head], from)
    requires base == if from == 0 || (from >= TWO_63 && head > 0) then 0 else from - 1
    ensures Follows(log, base, snapshot) && Horizon(from, snapshot) == base + |snapshot| >= head
    ensures base + |snapshot| == if base > head then base else head
  {
    PrefixIsContiguous(log, head);
    hide ReadFrom, Contiguous, Follows;
    ReadFromIsTail(log[..head], from);
    SnapshotShape(log[..head], from, snapshot);
    TailFollows(log[..head], base, snapshot);
    FollowsInLonger(log, head, base, snapshot);
  }

  lemma PrefixIsContiguous(log: seq<Event>, head: nat)
    requires Contiguous(log) && head <= |log|
    ensures Contiguous(log[..head]) && |log[..head]| == head
  {
  }

  lemma FollowsInLonger(log: seq<Event>, head: nat, base: nat, rows: seq<Event>)
    requires head <= |log| && Follows(log[..head], base, rows)
    ensures Follows(log, base, rows)
  {
    if rows != [] {
      assert log[..head][base..base + |rows|] == log[base..base + |rows|];
    }
  }

  lemma FollowsAt(log: seq<Event>, base: nat, rows: seq<Event>, i: nat)
    requires Follows(log, base, rows) && i < |rows|
    ensures base + |rows| <= |log| && rows[i] == log[base + i]
  {
  }

  /** The same of the frames themselves, whether an end frame follows them or not. */
  lemma RelayedFrames(
    log: seq<Event>, head: nat, at: nat, from: U64, snapshot: seq<Event>, feed: seq<Received>, heard: nat,
    base: nat, frames: seq<Frame>, events: nat)
    requires Heard(feed, heard) && (heard < |feed| ==> !feed[heard].Got?)
    requires base == if from == 0 || (from >= TWO_63 && head > 0) then 0 else from - 1
    requires events <= |frames| && frames[..events] == Frames(snapshot + Fresh(feed, Horizon(from, snapshot)))
    ensures Offered(log, head, at, from, snapshot, feed) ==>
              && (base <= head || base <= at + heard ==>
                    base + events == if head > at + heard then head else at + heard)
              && (head < base && at + heard < base ==> events == 0)
              && (events > 0 ==> base + events <= |log|)
              && (forall i :: 0 <= i < events ==> frames[i] == EventFrame(log[base + i]))
  {
    if Offered(log, head, at, from, snapshot, feed) {
      hide Offered, Heard, Fresh, Horizon, Follows;
      RelayedRows(log, head, at, from, snapshot, feed, heard, base);
      var rows := snapshot + Fresh(feed, Horizon(from, snapshot));
      assert |frames[..events]| == events;
      forall i | 0 <= i < events ensures base + events <= |log| && frames[i] == EventFrame(log[base + i]) {
        FollowsAt(log, base, rows, i);
        assert frames[i] == frames[..events][i];
      }
      if events > 0 {
        FollowsAt(log, base, rows, 0);
      }
    }
  }

  /**
   One connection's frames: the snapshot, the fresh events, and an end frame when the feed lags or
   closes. `heard` is how many events came before that. Whatever `log` the connection was offered, its
   event frames are the log's consecutive rows from `from` on, each once, up to the later of the
   snapshot's head and the last event heard.
   */
  method Relay(
      ghost log: seq<Event>, ghost head: nat, ghost at: nat, from: U64, snapshot: seq<Event>, feed: seq<Received>)
    returns (frames: seq<Frame>, ghost heard: nat)
    ensures frames == Frames(snapshot + Fresh(feed, Horizon(from, snapshot)))
                      + (if Breaks(feed) then [EndFrame] else [])
    ensures heard <= |feed|
    ensures forall i :: 0 <= i < heard ==> feed[i].Got?
    ensures heard < |feed| ==> !feed[heard].Got? && |frames| > 0 && frames[|frames| - 1] == EndFrame
    ensures heard == |feed| ==> EndFrame !in frames
    ensures Offered(log, head, at, from, snapshot, feed) ==>
              var base := if from == 0 || (from >= TWO_63 && head > 0) then 0 else from - 1;
              var events := if heard < |feed| then |frames| - 1 else |frames|;
              && (base <= head || base <= at + heard ==>
                    base + events == (if head > at + heard then head else at + heard))
              && (head < base && at + heard < base ==> events == 0)
              && (events > 0 ==> base + events <= |log|)
              && (forall i :: 0 <= i < events ==> frames[i] == EventFrame(log[base + i]))
  {
    hide Offered, Fresh, Frames;
    ghost var base := if from == 0 || (from >= TWO_63 && head > 0) then 0 else from - 1;
    ghost var all := snapshot + Fresh(feed, Horizon(from, snapshot));
    var lastSeq := if |snapshot| > 0 then snapshot[|snapshot| - 1].seqNo else SaturatingPred(from);
    frames := [];
    NoFrames();
    for i := 0 to |snapshot|
      invariant frames == Frames(snapshot[..i])
    {
      FramesPush(snapshot[..i], snapshot[i]);
      assert snapshot[..i + 1] == snapshot[..i] + [snapshot[i]];
      frames := frames + [EventFrame(snapshot[i])];
    }
    ghost var rows := snapshot;
    assert snapshot[..|snapshot|] == snapshot && feed[0..] == feed;
    for i := 0 to |feed|
      invariant frames == Frames(rows) && rows + Fresh(feed[i..], lastSeq) == all
      invariant forall j :: 0 <= j < i ==> feed[j].Got?
    {
      FreshStep(feed, i, lastSeq);
      if !feed[i].Got? {
        assert rows + [] == rows;
        heard := i;
        frames := frames + [EndFrame];
        RelayedFrames(log, head, at, from, snapshot, feed, heard, base, frames, |frames| - 1);
        return;
      }
      var event := feed[i].event;
      if event.seqNo <= lastSeq {
        continue;
      }
      FramesPush(rows, event);
      assert rows + ([event] + Fresh(feed[i + 1..], event.seqNo)) == rows + [event] + Fresh(feed[i + 1..], event.seqNo);
      lastSeq, rows := event.seqNo, rows + [event];
      frames := frames + [EventFrame(event)];
    }
    FreshEnd(feed, lastSeq);
    assert rows + [] == rows;
    heard := |feed|;
    assert frames + [] == frames && frames[..|frames|] == frames;
    RelayedFrames(log, head, at, from, snapshot, feed, heard, base, frames, |frames|);
    EventsOnly(rows);
  }

  lemma NoFrames()
    ensures Frames([]) == []
  {
  }

  lemma FramesPush(rows: seq<Event>, event: Event)
    ensures Frames(rows + [event]) == Frames(rows) + [EventFrame(event)]
  {
  }

  lemma EventsOnly(rows: seq<Event>)
    ensures EndFrame !in Frames(rows)
  {
  }

  lemma FreshStep(feed: seq<Received>, i: nat, lastSeq: int)
    requires i < |feed|
    ensures Fresh(feed[i..], lastSeq) ==
            if !feed[i].Got? then []
            else if feed[i].event.seqNo <= lastSeq then Fresh(feed[i + 1..], lastSeq)
            else [feed[i].event] + Fresh(feed[i + 1..], feed[i].event.seqNo)
  {
    assert feed[i..][1..] == feed[i + 1..];
  }

  lemma FreshEnd(feed: seq<Received>, lastSeq: int)
    ensures Fresh(feed[|feed|..], lastSeq) == []
  {
  }
}
