/**
 The event log: rows keyed by consecutive sequence numbers from 1, appended in batches and read by
 tail. A sequence number is an unsigned 64-bit word in the program and a signed one in the table,
 so every bound goes through `AsI64` on its way into a query.
 */
module EventLog {
  import opened Words

  datatype Event = Event(seqNo: int, payload: string)

  /** Row i holds sequence number i + 1, and every number fits the table's column. */
  ghost predicate Contiguous(log: seq<Event>) {
    && |log| <= I64_MAX
    && (forall i :: 0 <= i < |log| ==> log[i].seqNo == i + 1)
  }

  /** The rows at or past a bound, in order. */
  function RowsSince(log: seq<Event>, bound: int): seq<Event> {
    if log == [] then []
    else if log[0].seqNo >= bound then [log[0]] + RowsSince(log[1..], bound)
    else RowsSince(log[1..], bound)
  }

  /** The rows at or below a bound, in order. */
  function RowsThrough(log: seq<Event>, bound: int): seq<Event> {
    if log == [] then []
    else if log[0].seqNo <= bound then [log[0]] + RowsThrough(log[1..], bound)
    else RowsThrough(log[1..], bound)
  }

  function ReadFrom(log: seq<Event>, from: U64): seq<Event> {
    RowsSince(log, AsI64(from))
  }

  function Clamp(x: int, hi: nat): nat {
    if x < 0 then 0 else if x > hi then hi else x
  }

  lemma {:induction false} RowsSinceIsTail(log: seq<Event>, shift: int, bound: int)
    requires forall i :: 0 <= i < |log| ==> log[i].seqNo == shift + i + 1
    ensures RowsSince(log, bound) == log[Clamp(bound - 1 - shift, |log|)..]
    decreases |log|
  {
    if log != [] {
      RowsSinceIsTail(log[1..], shift + 1, bound);
      if log[0].seqNo >= bound {
        assert log[1..][Clamp(bound - 2 - shift, |log| - 1)..] == log[1..];
        assert [log[0]] + log[1..] == log;
      } else {
        assert log[1..][Clamp(bound - 2 - shift, |log| - 1)..] == log[Clamp(bound - 1 - shift, |log|)..];
      }
    }
  }

  lemma {:induction false} RowsThroughIsPrefix(log: seq<Event>, shift: int, bound: int)
    requires forall i :: 0 <= i < |log| ==> log[i].seqNo == shift + i + 1
    ensures RowsThrough(log, bound) == log[..Clamp(bound - shift, |log|)]
    decreases |log|
  {
    if log != [] {
      RowsThroughIsPrefix(log[1..], shift + 1, bound);
      var k := Clamp(bound - shift, |log|);
      if log[0].seqNo <= bound {
        assert log[..k] == [log[0]] + log[1..][..k - 1];
      }
    }
  }

  /**
   A tail read of a contiguous log, for every word: below 2^63 it starts where asked, at or past it at
   the first row.
   */
  lemma ReadFromIsTail(log: seq<Event>, from: U64)
    requires Contiguous(log)
    ensures from < TWO_63 ==> ReadFrom(log, from) == log[Clamp(from - 1, |log|)..]
    ensures from >= TWO_63 ==> ReadFrom(log, from) == log
  {
    RowsSinceIsTail(log, 0, AsI64(from));
  }

  /** The store: the rows, and one queue per live subscriber. */
  class EventStore {
    var events: seq<Event>
    var feeds: seq<seq<Event>>

    ghost predicate Valid()
      reads this
    {
      Contiguous(events)
    }

    constructor ()
      ensures Valid() && events == [] && feeds == []
    {
      events, feeds := [], [];
    }

    /** Append one batch and hand it to every subscriber, as one critical section. */
    method Append(payloads: seq<string>) returns (committed: seq<Event>)
      requires Valid() && |events| + |payloads| <= I64_MAX
      modifies this
      ensures Valid()
      ensures events == old(events) + committed
      ensures |committed| == |payloads|
      ensures forall i :: 0 <= i < |payloads| ==>
                committed[i] == Event(|old(events)| + i + 1, payloads[i])
      ensures |feeds| == |old(feeds)|
      ensures forall k :: 0 <= k < |feeds| ==> feeds[k] == old(feeds)[k] + committed
    {
      var seqNo := |events|;
      committed := [];
      for i := 0 to |payloads|
        invariant seqNo == |events| + i
        invariant |committed| == i
        invariant forall k :: 0 <= k < i ==> committed[k] == Event(|events| + k + 1, payloads[k])
      {
        seqNo := seqNo + 1;
        committed := committed + [Event(seqNo, payloads[i])];
      }
      events := events + committed;
      var before := feeds;
      feeds := seq(|before|, k requires 0 <= k < |before| => before[k] + committed);
    }

    method Read(from: U64) returns (rows: seq<Event>)
      requires Valid()
      ensures from < TWO_63 ==> rows == events[Clamp(from - 1, |events|)..]
      ensures from >= TWO_63 ==> rows == events
      ensures |rows| <= |events| && rows == events[|events| - |rows|..]
      ensures from < TWO_63 ==>
                forall i :: 0 <= i < |events| ==> (events[i].seqNo >= from <==> i >= |events| - |rows|)
    {
      ReadFromIsTail(events, from);
      rows := Select(events, AsI64(from));
    }

    /** The scan behind a tail read. */
    static method Select(log: seq<Event>, bound: int) returns (rows: seq<Event>)
      ensures rows == RowsSince(log, bound)
    {
      rows := [];
      var i := |log|;
      while i > 0
        invariant 0 <= i <= |log|
        invariant rows == RowsSince(log[i..], bound)
      {
        i := i - 1;
        assert log[i..][1..] == log[i + 1..];
        if log[i].seqNo >= bound {
          rows := [log[i]] + rows;
        }
      }
    }

    method Head() returns (h: nat)
      requires Valid()
      ensures h == |events|
      ensures events != [] ==> h == events[|events| - 1].seqNo
    {
      h := if events == [] then 0 else events[|events| - 1].seqNo;
    }

    /** Delete every row past `to`, the one exception to append-only. */
    method TruncateTo(to: U64) returns (removed: nat)
      requires Valid()
      modifies this`events
      ensures Valid()
      ensures events == old(events)[..Clamp(AsI64(to), |old(events)|)]
      ensures events <= old(events)
      ensures to < TWO_63 ==> |events| == if to <= |old(events)| then to else |old(events)|
      ensures to >= TWO_63 ==> events == []
      ensures removed == |old(events)| - |events|
    {
      RowsThroughIsPrefix(events, 0, AsI64(to));
      var kept := RowsThrough(events, AsI64(to));
      removed := |events| - |kept|;
      events := kept;
    }

    /** A new subscriber sees what commits from now on. */
    method Subscribe() returns (k: nat)
      requires Valid()
      modifies this`feeds
      ensures feeds == old(feeds) + [[]] && k == |old(feeds)|
    {
      k := |feeds|;
      feeds := feeds + [[]];
    }
  }
}
