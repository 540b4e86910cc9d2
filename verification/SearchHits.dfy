/**
 What a search hit shows besides its score: one occurrence date and a few salient relations, both cut
 down to what the participants present may see.
 */
module SearchHits {
  import opened Wrappers

  /** The elements of `s` that satisfy `p`, in order. */
  function Filter<T>(s: seq<T>, p: T -> bool): (r: seq<T>) {
    if s == [] then []
    else Filter(s[..|s| - 1], p) + if p(s[|s| - 1]) then [s[|s| - 1]] else []
  }

  lemma FilterPush<T>(s: seq<T>, x: T, p: T -> bool)
    ensures Filter(s + [x], p) == Filter(s, p) + if p(x) then [x] else []
  {
    assert (s + [x])[..|s|] == s;
  }

  lemma {:induction false} FilterSplit<T>(a: seq<T>, b: seq<T>, p: T -> bool)
    ensures Filter(a + b, p) == Filter(a, p) + Filter(b, p)
    decreases |b|
  {
    if b == [] {
      assert a + b == a;
    } else {
      assert a + b == (a + b[..|b| - 1]) + [b[|b| - 1]];
      FilterPush(a + b[..|b| - 1], b[|b| - 1], p);
      FilterSplit(a, b[..|b| - 1], p);
    }
  }

  lemma {:induction false} FilterMembers<T>(s: seq<T>, p: T -> bool, x: T)
    ensures x in Filter(s, p) <==> x in s && p(x)
    decreases |s|
  {
    if s != [] {
      FilterMembers(s[..|s| - 1], p, x);
      assert s == s[..|s| - 1] + [s[|s| - 1]];
    }
  }

  lemma {:induction false} FilterAll<T>(s: seq<T>, p: T -> bool)
    ensures (forall x <- s :: p(x)) ==> Filter(s, p) == s
    ensures (forall x <- s :: !p(x)) ==> Filter(s, p) == []
    decreases |s|
  {
    if s != [] {
      FilterAll(s[..|s| - 1], p);
      assert s == s[..|s| - 1] + [s[|s| - 1]];
    }
  }

  /** Whatever is put in or taken out that `p` rejects, at any place, leaves the filtered list alone. */
  lemma RejectedLeavesNoTrace<T>(a: seq<T>, x: T, b: seq<T>, p: T -> bool)
    requires !p(x)
    ensures Filter(a + [x] + b, p) == Filter(a + b, p)
  {
    FilterSplit(a + [x], b, p);
    FilterSplit(a, b, p);
    FilterPush(a, x, p);
  }

  // ---------------------------------------------------------------------------------------------
  // Stable sorting on a two-valued key
  // ---------------------------------------------------------------------------------------------

  function Not<T>(p: T -> bool): T -> bool {
    x => !p(x)
  }

  /** The elements that satisfy `first`, then the others, each group as it came. */
  function Floated<T>(s: seq<T>, first: T -> bool): seq<T> {
    Filter(s, first) + Filter(s, Not(first))
  }

  ghost predicate Leads<T>(s: seq<T>, first: T -> bool) {
    forall i, j :: 0 <= i < j < |s| && first(s[j]) ==> first(s[i])
  }

  ghost predicate SameGroups<T>(s: seq<T>, t: seq<T>, first: T -> bool) {
    Filter(t, first) == Filter(s, first) && Filter(t, Not(first)) == Filter(s, Not(first))
  }

  lemma {:induction false} FilterHolds<T>(s: seq<T>, p: T -> bool)
    ensures forall x <- Filter(s, p) :: p(x)
    decreases |s|
  {
    if s != [] {
      FilterHolds(s[..|s| - 1], p);
    }
  }

  lemma FilterTwice<T>(s: seq<T>, p: T -> bool)
    ensures Filter(Filter(s, p), p) == Filter(s, p)
    ensures Filter(Filter(s, p), Not(p)) == []
    ensures Filter(Filter(s, Not(p)), p) == []
  {
    hide Filter;
    FilterHolds(s, p);
    FilterHolds(s, Not(p));
    assert forall x <- Filter(s, Not(p)) :: !p(x);
    assert forall x <- Filter(s, p) :: !Not(p)(x);
    FilterAll(Filter(s, p), p);
    FilterAll(Filter(s, p), Not(p));
    FilterAll(Filter(s, Not(p)), p);
  }

  lemma {:induction false} SortedIsFloated<T>(t: seq<T>, first: T -> bool)
    requires Leads(t, first)
    ensures t == Floated(t, first)
    decreases |t|
  {
    if t == [] {
      return;
    }
    var front, last := t[..|t| - 1], t[|t| - 1];
    SortedIsFloated(front, first);
    assert t == front + [last];
    FloatedPush(front, last, first);
    if first(last) {
      assert forall x <- front :: first(x) && !Not(first)(x);
      FilterAll(front, Not(first));
    }
  }

  lemma FloatedPush<T>(s: seq<T>, x: T, first: T -> bool)
    ensures Floated(s + [x], first) ==
            if first(x) then Filter(s, first) + [x] + Filter(s, Not(first)) else Floated(s, first) + [x]
  {
    hide Filter;
    FilterPush(s, x, first);
    FilterPush(s, x, Not(first));
    var a, b := Filter(s, first), Filter(s, Not(first));
    assert a + (b + [x]) == a + b + [x] && a + [] == a && b + [] == b;
  }

  lemma FloatedIsSorted<T>(s: seq<T>, first: T -> bool)
    ensures Leads(Floated(s, first), first) && SameGroups(s, Floated(s, first), first)
  {
    hide Filter;
    var a, b := Filter(s, first), Filter(s, Not(first));
    FilterSplit(a, b, first);
    FilterSplit(a, b, Not(first));
    FilterTwice(s, first);
    FilterHolds(s, first);
    FilterHolds(s, Not(first));
    FilterAll(b, Not(first));
    assert forall i :: 0 <= i < |a + b| ==> (first((a + b)[i]) <==> i < |a|) by {
      assert forall i :: 0 <= i < |a| ==> a[i] in a;
      assert forall i :: 0 <= i < |b| ==> b[i] in b && Not(first)(b[i]);
    }
  }

  /** Such a sort has one answer: `Floated(s, first)`, and nothing else, is sorted with both groups in order. */
  lemma FloatedIsTheStableSort<T>(s: seq<T>, t: seq<T>, first: T -> bool)
    ensures t == Floated(s, first) <==> Leads(t, first) && SameGroups(s, t, first)
  {
    hide Filter, Leads;
    FloatedIsSorted(s, first);
    if Leads(t, first) {
      SortedIsFloated(t, first);
    }
  }

  lemma {:induction false} FloatedCovers<T>(s: seq<T>, first: T -> bool)
    ensures multiset(Floated(s, first)) == multiset(s)
    decreases |s|
  {
    if s != [] {
      var front, last := s[..|s| - 1], s[|s| - 1];
      FloatedCovers(front, first);
      FloatedPush(front, last, first);
      assert s == front + [last];
    }
  }

  // ---------------------------------------------------------------------------------------------
  // The occurrence date
  // ---------------------------------------------------------------------------------------------

  /** The visibility predicate's answer on one entry; a graph read behind it can fail. */
  datatype Verdict = Shown | Hidden | Failed

  datatype Entry<D> = Entry(occurredAt: Option<D>, assertedAt: nat, authored: bool, text: string)

  datatype Dated<D> = Dated(occurredAt: D, assertedAt: nat)

  datatype GraphError = GraphError

  /** The entries that can reach the hit line: dated and shown. */
  predicate Surfaces<D>(e: Entry<D>, verdict: Entry<D> -> Verdict) {
    e.occurredAt.Some? && verdict(e).Shown?
  }

  function Surfacing<D>(verdict: Entry<D> -> Verdict): Entry<D> -> bool {
    e => Surfaces(e, verdict)
  }

  function Visible<D>(entries: seq<Entry<D>>, verdict: Entry<D> -> Verdict): seq<Entry<D>> {
    Filter(entries, Surfacing(verdict))
  }

  /** The last dated entry of one tier. */
  function LastOf<D>(entries: seq<Entry<D>>, authored: bool): Option<Dated<D>> {
    if entries == [] then None
    else
      var e := entries[|entries| - 1];
      if e.authored == authored && e.occurredAt.Some? then Some(Dated(e.occurredAt.value, e.assertedAt))
      else LastOf(entries[..|entries| - 1], authored)
  }

  function Or<T>(a: Option<T>, b: Option<T>): Option<T> {
    if a.Some? then a else b
  }

  /** The date a list of visible entries puts on the hit. */
  function Occurrence<D>(visible: seq<Entry<D>>): Option<Dated<D>> {
    Or(LastOf(visible, true), LastOf(visible, false))
  }

  /** `at` is the last dated entry of its tier. */
  ghost predicate Latest<D>(entries: seq<Entry<D>>, at: nat) {
    && at < |entries| && entries[at].occurredAt.Some?
    && forall j :: at < j < |entries| && entries[j].occurredAt.Some? ==> entries[j].authored != entries[at].authored
  }

  ghost predicate NoneIn<D>(entries: seq<Entry<D>>, authored: bool) {
    forall i :: 0 <= i < |entries| && entries[i].occurredAt.Some? ==> entries[i].authored != authored
  }

  lemma {:induction false} LastOfLaw<D>(entries: seq<Entry<D>>, authored: bool)
    ensures LastOf(entries, authored).None? <==> NoneIn(entries, authored)
    ensures forall at: nat :: Latest(entries, at) && entries[at].authored == authored ==>
              LastOf(entries, authored) == Some(Dated(entries[at].occurredAt.value, entries[at].assertedAt))
    ensures LastOf(entries, authored).Some? ==>
              exists at: nat :: Latest(entries, at) && entries[at].authored == authored
    decreases |entries|
  {
    if entries != [] {
      var n := |entries| - 1;
      var front, e := entries[..n], entries[n];
      LastOfLaw(front, authored);
      if e.authored == authored && e.occurredAt.Some? {
        assert Latest(entries, n);
      } else {
        forall at | 0 <= at < n && entries[at].authored == authored ensures Latest(entries, at) <==> Latest(front, at) {
          assert forall j :: 0 <= j < n ==> front[j] == entries[j];
        }
      }
    }
  }

  lemma LastOfPush<D>(entries: seq<Entry<D>>, e: Entry<D>, authored: bool)
    requires e.occurredAt.Some?
    ensures LastOf(entries + [e], authored) ==
            if e.authored == authored then Some(Dated(e.occurredAt.value, e.assertedAt)) else LastOf(entries, authored)
  {
    assert (entries + [e])[..|entries|] == entries;
  }

  /** Authored dates beat extracted ones, and later beats earlier. */
  lemma OccurrenceLaw<D>(visible: seq<Entry<D>>, at: nat)
    requires Latest(visible, at)
    requires visible[at].authored || NoneIn(visible, true)
    ensures Occurrence(visible) == Some(Dated(visible[at].occurredAt.value, visible[at].assertedAt))
  {
    LastOfLaw(visible, true);
    LastOfLaw(visible, false);
  }

  lemma OccurrenceShownIff<D>(entries: seq<Entry<D>>, verdict: Entry<D> -> Verdict)
    ensures Occurrence(Visible(entries, verdict)).Some? <==> exists e :: e in entries && Surfaces(e, verdict)
  {
    var visible := Visible(entries, verdict);
    LastOfLaw(visible, true);
    LastOfLaw(visible, false);
    if e :| e in entries && Surfaces(e, verdict) {
      FilterMembers(entries, Surfacing(verdict), e);
      var i :| 0 <= i < |visible| && visible[i] == e;
      assert !NoneIn(visible, visible[i].authored);
    }
    if at: nat :| Latest(visible, at) {
      assert visible[at] in visible;
      FilterMembers(entries, Surfacing(verdict), visible[at]);
    }
  }

  /** An entry that is hidden or undated changes no date, wherever in the class it stands. */
  lemma HiddenEntryLeavesNoTrace<D>(before: seq<Entry<D>>, e: Entry<D>, after: seq<Entry<D>>,
                                    verdict: Entry<D> -> Verdict)
    requires !Surfaces(e, verdict)
    ensures Visible(before + [e] + after, verdict) == Visible(before + after, verdict)
    ensures Occurrence(Visible(before + [e] + after, verdict)) == Occurrence(Visible(before + after, verdict))
  {
    RejectedLeavesNoTrace(before, e, after, Surfacing(verdict));
  }

  lemma NothingVisible<D>(verdict: Entry<D> -> Verdict)
    ensures forall authored :: LastOf(Visible([], verdict), authored).None?
  {
  }

  lemma VisiblePush<D>(entries: seq<Entry<D>>, i: nat, verdict: Entry<D> -> Verdict)
    requires i < |entries|
    ensures Visible(entries[..i + 1], verdict) ==
            if Surfaces(entries[i], verdict) then Visible(entries[..i], verdict) + [entries[i]]
            else Visible(entries[..i], verdict)
  {
    assert entries[..i + 1] == entries[..i] + [entries[i]];
    FilterPush(entries[..i], entries[i], Surfacing(verdict));
  }

  /** A shown, dated entry among the first `n`. */
  ghost predicate ShownDated<D>(entries: seq<Entry<D>>, verdict: Entry<D> -> Verdict, n: nat, i: int) {
    0 <= i < n && i < |entries| && entries[i].occurredAt.Some? && verdict(entries[i]) == Shown
  }

  /**
   The scan reads every class entry, yet its answer is a function of the visible ones alone: the date of
   entry `at`, the last authored one shown, or the last extracted one when no authored one is.
   */
  method VisibleOccurrence<D>(entries: seq<Entry<D>>, verdict: Entry<D> -> Verdict)
    returns (r: Result<Option<Dated<D>>, GraphError>, ghost at: int)
    ensures r.Err? <==> exists i :: 0 <= i < |entries| && entries[i].occurredAt.Some? && verdict(entries[i]).Failed?
    ensures r.Ok? ==> r.value == Occurrence(Visible(entries, verdict))
    ensures r.Ok? && r.value.None? ==> forall i :: !ShownDated(entries, verdict, |entries|, i)
    ensures r.Ok? && r.value.Some? ==>
              && ShownDated(entries, verdict, |entries|, at)
              && r.value.value.occurredAt == entries[at].occurredAt.value
              && r.value.value.assertedAt == entries[at].assertedAt
              && forall i :: ShownDated(entries, verdict, |entries|, i) && i != at ==>
                   if entries[i].authored == entries[at].authored then i < at else entries[at].authored
  {
    hide LastOf, Visible;
    NothingVisible(verdict);
    assert entries[..0] == [];
    var latestAuthored: Option<Dated<D>> := None;
    var latestExtracted: Option<Dated<D>> := None;
    ghost var authoredAt, extractedAt := -1, -1;
    at := -1;
    for i := 0 to |entries|
      invariant forall j :: 0 <= j < i && entries[j].occurredAt.Some? ==> !verdict(entries[j]).Failed?
      invariant latestAuthored == LastOf(Visible(entries[..i], verdict), true)
      invariant latestExtracted == LastOf(Visible(entries[..i], verdict), false)
      invariant LastShown(entries, verdict, i, authoredAt, true, latestAuthored)
      invariant LastShown(entries, verdict, i, extractedAt, false, latestExtracted)
    {
      var entry := entries[i];
      ghost var before := Visible(entries[..i], verdict);
      VisiblePush(entries, i, verdict);
      if entry.occurredAt.Some? {
        var answer := verdict(entry);
        if answer.Failed? {
          return Err(GraphError), at;
        }
        if answer.Shown? {
          LastOfPush(before, entry, true);
          LastOfPush(before, entry, false);
          var dated := Dated(entry.occurredAt.value, entry.assertedAt);
          if entry.authored {
            latestAuthored, authoredAt := Some(dated), i;
          } else {
            latestExtracted, extractedAt := Some(dated), i;
          }
        }
      }
    }
    assert entries[..|entries|] == entries;
    at := if latestAuthored.Some? then authoredAt else extractedAt;
    return Ok(Or(latestAuthored, latestExtracted)), at;
  }

  /** `found` is the date of entry `at`, the last of its tier shown among the first `n`, if there is one. */
  ghost predicate LastShown<D>(entries: seq<Entry<D>>, verdict: Entry<D> -> Verdict, n: nat, at: int, authored: bool,
                               found: Option<Dated<D>>)
  {
    && (found.None? ==> forall i :: ShownDated(entries, verdict, n, i) ==> entries[i].authored != authored)
    && (found.Some? ==>
          && ShownDated(entries, verdict, n, at) && entries[at].authored == authored
          && found.value == Dated(entries[at].occurredAt.value, entries[at].assertedAt)
          && forall i :: ShownDated(entries, verdict, n, i) && entries[i].authored == authored ==> i <= at)
  }

  // ---------------------------------------------------------------------------------------------
  // Salient relations
  // ---------------------------------------------------------------------------------------------

  const PERSON := "person/"
  const SALIENCE_CAP: nat := 3

  /** One edge out of the hit's class; `posture` is all that its visibility turns on. */
  datatype Link<P> = Link(relation: string, incoming: bool, other: nat, otherName: string, posture: P)

  datatype Direction = Incoming | Outgoing

  datatype SalientRelation = SalientRelation(relation: string, direction: Direction, otherName: string)

  datatype Key = Key(relation: string, incoming: bool, other: nat)

  function KeyOf<P>(l: Link<P>): Key {
    Key(l.relation, l.incoming, l.other)
  }

  function Render<P>(l: Link<P>): SalientRelation {
    SalientRelation(l.relation, if l.incoming then Incoming else Outgoing, l.otherName)
  }

  function Rendered<P>(links: seq<Link<P>>): seq<SalientRelation> {
    seq(|links|, i requires 0 <= i < |links| => Render(links[i]))
  }

  predicate IsPerson<P>(l: Link<P>) {
    |PERSON| <= |l.otherName| && l.otherName[..|PERSON|] == PERSON
  }

  function ToPerson<P>(): Link<P> -> bool {
    l => IsPerson(l)
  }

  ghost predicate First<P>(links: seq<Link<P>>, i: nat) {
    i < |links| && forall j :: 0 <= j < i ==> KeyOf(links[j]) != KeyOf(links[i])
  }

  function Keys<P>(links: seq<Link<P>>): set<Key> {
    if links == [] then {} else Keys(links[..|links| - 1]) + {KeyOf(links[|links| - 1])}
  }

  /** Parallel edges collapsed onto the first of them. */
  function Collapsed<P>(links: seq<Link<P>>): seq<Link<P>> {
    if links == [] then []
    else
      var front, last := links[..|links| - 1], links[|links| - 1];
      Collapsed(front) + if KeyOf(last) in Keys(front) then [] else [last]
  }

  function Picked<T>(s: seq<T>, at: seq<nat>): seq<T>
    requires Rising(at, |s|)
  {
    seq(|at|, k requires 0 <= k < |at| => s[at[k]])
  }

  lemma {:induction false} KeysLaw<P>(links: seq<Link<P>>, key: Key)
    ensures key in Keys(links) <==> exists i :: 0 <= i < |links| && KeyOf(links[i]) == key
    decreases |links|
  {
    if links != [] {
      var n := |links| - 1;
      KeysLaw(links[..n], key);
      if i :| 0 <= i < n && KeyOf(links[i]) == key {
        assert KeyOf(links[..n][i]) == key;
      }
    }
  }

  ghost predicate Rising(at: seq<nat>, limit: nat) {
    && (forall k :: 0 <= k < |at| ==> at[k] < limit)
    && (forall i, k :: 0 <= i < k < |at| ==> at[i] < at[k])
  }

  lemma FirstInFront<P>(links: seq<Link<P>>, n: nat, i: nat)
    requires i < n <= |links|
    ensures First(links[..n], i) <==> First(links, i)
  {
    assert forall j :: 0 <= j < n ==> links[..n][j] == links[j];
  }

  lemma LastIsFirstIff<P>(links: seq<Link<P>>)
    requires links != []
    ensures First(links, |links| - 1) <==> KeyOf(links[|links| - 1]) !in Keys(links[..|links| - 1])
  {
    hide KeyOf;
    var n := |links| - 1;
    KeysLaw(links[..n], KeyOf(links[n]));
    assert forall j :: 0 <= j < n ==> links[..n][j] == links[j];
  }

  /** The survivors are, in order, exactly the links no earlier link shares a key with. */
  lemma {:induction false} CollapsedLaw<P>(links: seq<Link<P>>) returns (at: seq<nat>)
    ensures Rising(at, |links|) && Collapsed(links) == Picked(links, at)
    ensures forall i :: i in at <==> First(links, i)
    decreases |links|
  {
    hide KeyOf, Keys, First, Picked;
    at := [];
    if links == [] {
      NoFirst(links);
      assert Picked(links, at) == [] by { PickedSize(links, at); }
    } else {
      var n := |links| - 1;
      var kept := CollapsedLaw(links[..n]);
      LastIsFirstIff(links);
      FirstOf(links, n, kept);
      PickedPush(links, n, kept);
      at := if First(links, n) then kept + [n] else kept;
    }
  }

  lemma PickedSize<T>(s: seq<T>, at: seq<nat>)
    requires Rising(at, |s|)
    ensures |Picked(s, at)| == |at|
  {
  }

  lemma PickedPush<T>(s: seq<T>, n: nat, at: seq<nat>)
    requires n < |s| && Rising(at, n)
    ensures Rising(at + [n], |s|) && Rising(at, |s|)
    ensures Picked(s[..n], at) == Picked(s, at)
    ensures Picked(s, at + [n]) == Picked(s, at) + [s[n]]
  {
  }

  lemma FirstOf<P>(links: seq<Link<P>>, n: nat, kept: seq<nat>)
    requires n == |links| - 1 && forall i :: i in kept <==> First(links[..n], i)
    ensures forall i :: i in (if First(links, n) then kept + [n] else kept) <==> First(links, i)
  {
    hide KeyOf;
    var at := if First(links, n) then kept + [n] else kept;
    forall i: nat ensures i in at <==> First(links, i) {
      if i < n { FirstInFront(links, n, i); }
    }
  }

  lemma NoFirst<P>(links: seq<Link<P>>)
    requires links == []
    ensures forall i: nat :: !First(links, i)
  {
  }

  /** One survivor per key: nothing is lost but duplicates. */
  lemma {:induction false} CollapsedKeys<P>(links: seq<Link<P>>)
    ensures Keys(Collapsed(links)) == Keys(links) && |Collapsed(links)| == |Keys(links)|
    decreases |links|
  {
    if links != [] {
      var front, last := links[..|links| - 1], links[|links| - 1];
      CollapsedKeys(front);
      if KeyOf(last) !in Keys(front) {
        assert (Collapsed(front) + [last])[..|Collapsed(front)|] == Collapsed(front);
      } else {
        assert Keys(links) == Keys(front);
        assert Collapsed(links) == Collapsed(front);
      }
    }
  }

  lemma KeysOfMembers<P(!new)>(a: seq<Link<P>>, b: seq<Link<P>>)
    requires multiset(a) == multiset(b)
    ensures |a| == |b| && Keys(a) == Keys(b)
  {
    hide Keys, KeyOf;
    assert |a| == |multiset(a)| == |multiset(b)| == |b|;
    forall key ensures key in Keys(a) <==> key in Keys(b) {
      KeysLaw(a, key);
      KeysLaw(b, key);
      if i :| 0 <= i < |a| && KeyOf(a[i]) == key {
        assert a[i] in multiset(b);
      }
      if i :| 0 <= i < |b| && KeyOf(b[i]) == key {
        assert b[i] in multiset(a);
      }
    }
  }

  /** Every relation a list of visible links puts forward, most salient first. */
  function Salient<P>(visible: seq<Link<P>>): seq<Link<P>> {
    Floated(Collapsed(visible), ToPerson())
  }

  /** The audience filter applies only when somebody is present. */
  function Audible<P>(links: seq<Link<P>>, someonePresent: bool, shown: Link<P> -> bool): seq<Link<P>> {
    if someonePresent then Filter(links, shown) else links
  }

  /** Where the elements a filter keeps stand. */
  lemma {:induction false} FilterAt<T>(s: seq<T>, p: T -> bool) returns (at: seq<nat>)
    ensures Rising(at, |s|) && Filter(s, p) == Picked(s, at)
    ensures forall i :: i in at <==> 0 <= i < |s| && p(s[i])
    decreases |s|
  {
    if s == [] {
      at := [];
      PickedSize(s, at);
    } else {
      hide Picked;
      var n := |s| - 1;
      var front := FilterAt(s[..n], p);
      PickedPush(s, n, front);
      at := if p(s[n]) then front + [n] else front;
    }
  }

  /** Positions of positions. */
  lemma PickedThrough<T>(s: seq<T>, outer: seq<nat>, inner: seq<nat>) returns (at: seq<nat>)
    requires Rising(outer, |s|) && Rising(inner, |outer|)
    ensures Rising(at, |s|) && |at| == |inner| && forall k :: 0 <= k < |at| ==> at[k] == outer[inner[k]]
    ensures Picked(Picked(s, outer), inner) == Picked(s, at)
    ensures forall i :: i in at <==> exists k :: k in inner && outer[k] == i
  {
    at := seq(|inner|, k requires 0 <= k < |inner| => outer[inner[k]]);
    forall i ensures i in at <==> exists k :: k in inner && outer[k] == i {
      if k :| k in inner && outer[k] == i {
        var j :| 0 <= j < |inner| && inner[j] == k;
        assert at[j] == i;
      }
    }
  }

  /** A link somebody may be shown: every link when nobody is present. */
  ghost predicate Considered<P>(links: seq<Link<P>>, someonePresent: bool, shown: Link<P> -> bool, i: int) {
    0 <= i < |links| && (someonePresent ==> shown(links[i]))
  }

  /** The link makes a relation of its own: no link considered before it reaches the same far end the same way. */
  ghost predicate Fresh<P>(links: seq<Link<P>>, someonePresent: bool, shown: Link<P> -> bool, i: int) {
    && Considered(links, someonePresent, shown, i)
    && forall j :: j < i && Considered(links, someonePresent, shown, j) ==>
         || links[j].relation != links[i].relation
         || links[j].incoming != links[i].incoming
         || links[j].other != links[i].other
  }

  /** What filtering and collapsing keep, in the order of the read. */
  lemma KeptAt<P>(links: seq<Link<P>>, someonePresent: bool, shown: Link<P> -> bool) returns (at: seq<nat>)
    ensures Rising(at, |links|) && Collapsed(Audible(links, someonePresent, shown)) == Picked(links, at)
    ensures forall i :: i in at <==> Fresh(links, someonePresent, shown, i)
  {
    var heard := (l: Link<P>) => someonePresent ==> shown(l);
    var visible := Audible(links, someonePresent, shown);
    var outer := FilterAt(links, heard);
    assert visible == Picked(links, outer) by { AudibleIsFiltered(links, someonePresent, shown, heard); }
    var inner := CollapsedLaw(visible);
    at := PickedThrough(links, outer, inner);
    forall i ensures i in at <==> Fresh(links, someonePresent, shown, i) {
      FreshIff(links, someonePresent, shown, outer, inner, i);
    }
  }

  lemma AudibleIsFiltered<P>(links: seq<Link<P>>, someonePresent: bool, shown: Link<P> -> bool, heard: Link<P> -> bool)
    requires forall l :: heard(l) <==> (someonePresent ==> shown(l))
    ensures Audible(links, someonePresent, shown) == Filter(links, heard)
  {
    if someonePresent {
      SameFilter(links, shown, heard);
    } else {
      FilterAll(links, heard);
    }
  }

  lemma {:induction false} SameFilter<T>(s: seq<T>, p: T -> bool, q: T -> bool)
    requires forall x <- s :: p(x) <==> q(x)
    ensures Filter(s, p) == Filter(s, q)
    decreases |s|
  {
    if s != [] {
      assert s == s[..|s| - 1] + [s[|s| - 1]];
      SameFilter(s[..|s| - 1], p, q);
    }
  }

  lemma FreshIff<P>(links: seq<Link<P>>, someonePresent: bool, shown: Link<P> -> bool, outer: seq<nat>, inner: seq<nat>,
                    i: int)
    requires Rising(outer, |links|) && Rising(inner, |outer|)
    requires forall j :: j in outer <==> Considered(links, someonePresent, shown, j)
    requires forall k :: k in inner <==> First(Picked(links, outer), k)
    ensures (exists k :: k in inner && outer[k] == i) <==> Fresh(links, someonePresent, shown, i)
  {
    var visible := Picked(links, outer);
    if k :| k in inner && outer[k] == i {
      assert First(visible, k);
      forall j | j < i && Considered(links, someonePresent, shown, j) ensures KeyOf(links[j]) != KeyOf(links[i]) {
        var n :| 0 <= n < |outer| && outer[n] == j;
        assert n < k && visible[n] == links[j];
      }
    }
    if Fresh(links, someonePresent, shown, i) {
      var k :| 0 <= k < |outer| && outer[k] == i;
      forall n | 0 <= n < k ensures KeyOf(visible[n]) != KeyOf(visible[k]) {
        assert outer[n] in outer && outer[n] < i;
      }
      assert First(visible, k);
    }
  }

  /** A person's name, spelled out. */
  ghost predicate NamesAPerson<P>(l: Link<P>) {
    "person/" <= l.otherName
  }

  /** `at` lists links persons first, and within each group in the order of the read. */
  ghost predicate PersonsFirst<P>(links: seq<Link<P>>, at: seq<nat>) {
    && (forall k :: 0 <= k < |at| ==> at[k] < |links|)
    && forall j, k :: 0 <= j < k < |at| ==>
         if NamesAPerson(links[at[j]]) == NamesAPerson(links[at[k]]) then at[j] < at[k] else NamesAPerson(links[at[j]])
  }

  /** Floating the persons is a choice of positions: theirs, then the others'. */
  lemma FloatedAt<P>(links: seq<Link<P>>, kept: seq<nat>) returns (at: seq<nat>)
    requires Rising(kept, |links|)
    ensures PersonsFirst(links, at) && |Floated(Picked(links, kept), ToPerson())| == |at|
    ensures forall k :: 0 <= k < |at| ==> Floated(Picked(links, kept), ToPerson())[k] == links[at[k]]
    ensures forall i :: i in at <==> i in kept
  {
    var list := Picked(links, kept);
    var persons := FilterAt(list, ToPerson());
    var others := FilterAt(list, Not(ToPerson()));
    var a := PickedThrough(links, kept, persons);
    var b := PickedThrough(links, kept, others);
    at := a + b;
    forall k | 0 <= k < |at| ensures NamesAPerson(links[at[k]]) <==> k < |a| {
      var n := if k < |a| then persons[k] else others[k - |a|];
      assert n in (if k < |a| then persons else others);
      assert at[k] == kept[n] && list[n] == links[at[k]];
      PersonIff(links[at[k]]);
    }
    forall i | i in kept ensures i in at {
      var n :| 0 <= n < |kept| && kept[n] == i;
      assert ToPerson()(list[n]) ==> n in persons;
      assert !ToPerson()(list[n]) ==> Not(ToPerson<P>())(list[n]);
      assert n in persons || n in others;
    }
  }

  lemma PersonIff<P>(l: Link<P>)
    ensures ToPerson()(l) <==> NamesAPerson(l)
  {
  }

  /** All of a hit's relations, by the positions of their links. */
  lemma SalientAt<P>(links: seq<Link<P>>, someonePresent: bool, shown: Link<P> -> bool) returns (at: seq<nat>)
    ensures PersonsFirst(links, at)
    ensures var list := Salient(Audible(links, someonePresent, shown));
            |list| == |at| && forall k :: 0 <= k < |at| ==> list[k] == links[at[k]]
    ensures forall i :: i in at <==> Fresh(links, someonePresent, shown, i)
  {
    hide Floated, Collapsed, Fresh;
    var kept := KeptAt(links, someonePresent, shown);
    at := FloatedAt(links, kept);
  }

  /**
   The relations a hit shows and how many it elides. `at` places them all among the links read: each
   one the first of its kind among the links considered, persons first, in the order of the read.
   */
  method SalientRelations<P(==)>(links: seq<Link<P>>, someonePresent: bool, shown: Link<P> -> bool)
    returns (relations: seq<SalientRelation>, more: nat, ghost at: seq<nat>)
    ensures var list := Salient(Audible(links, someonePresent, shown));
            |relations| + more == |list| && relations == Rendered(list[..|relations|])
    ensures |relations| <= SALIENCE_CAP && (|relations| < SALIENCE_CAP ==> more == 0)
    ensures PersonsFirst(links, at)
    ensures forall i :: i in at <==> Fresh(links, someonePresent, shown, i)
    ensures |relations| == (if |at| < 3 then |at| else 3) && |relations| + more == |at|
    ensures forall k :: 0 <= k < |relations| ==>
              && relations[k].relation == links[at[k]].relation
              && relations[k].otherName == links[at[k]].otherName
              && (relations[k].direction == Incoming <==> links[at[k]].incoming)
  {
    at := SalientAt(links, someonePresent, shown);
    hide Fresh, PersonsFirst, Salient, Collapsed, Floated;
    var neighbors := links;
    if someonePresent {
      neighbors := Retain(links, shown);
    }
    neighbors := Distinct(neighbors);
    neighbors := SortPersonsFirst(neighbors);
    assert neighbors == Salient(Audible(links, someonePresent, shown)) by {
      SalientUnfolds(Audible(links, someonePresent, shown));
    }
    var total := |neighbors|;
    relations := Rendered(neighbors[..if total < SALIENCE_CAP then total else SALIENCE_CAP]);
    more := total - |relations|;
  }

  lemma SalientUnfolds<P>(visible: seq<Link<P>>)
    ensures Salient(visible) == Floated(Collapsed(visible), ToPerson())
  {
  }

  method Retain<T>(s: seq<T>, keep: T -> bool) returns (kept: seq<T>)
    ensures kept == Filter(s, keep)
  {
    kept := [];
    for i := 0 to |s|
      invariant kept == Filter(s[..i], keep)
    {
      assert s[..i + 1] == s[..i] + [s[i]];
      FilterPush(s[..i], s[i], keep);
      if keep(s[i]) {
        kept := kept + [s[i]];
      }
    }
    assert s[..|s|] == s;
  }

  method Distinct<P>(links: seq<Link<P>>) returns (kept: seq<Link<P>>)
    ensures kept == Collapsed(links)
  {
    kept := [];
    var seen: set<Key> := {};
    for i := 0 to |links|
      invariant kept == Collapsed(links[..i]) && seen == Keys(links[..i])
    {
      assert links[..i + 1][..i] == links[..i];
      if KeyOf(links[i]) !in seen {
        kept := kept + [links[i]];
      }
      seen := seen + {KeyOf(links[i])};
    }
    assert links[..|links|] == links;
  }

  /** The source's stable sort on `other_name` being a person's, as its two groups. */
  method SortPersonsFirst<P>(links: seq<Link<P>>) returns (sorted: seq<Link<P>>)
    ensures sorted == Floated(links, ToPerson())
  {
    var persons := Retain(links, ToPerson());
    var others := Retain(links, Not(ToPerson()));
    sorted := persons + others;
  }

  /** What the hit shows and what it elides, together, is one relation per key some visible link has. */
  lemma ShownPlusMoreIsVisibleKeys<P(!new)>(links: seq<Link<P>>, shown: Link<P> -> bool, key: Key)
    ensures |Salient(Filter(links, shown))| == |Keys(Filter(links, shown))|
    ensures key in Keys(Salient(Filter(links, shown))) <==> exists l :: l in links && shown(l) && KeyOf(l) == key
  {
    hide Keys, KeyOf, Filter, Collapsed, Floated;
    var visible := Filter(links, shown);
    CollapsedKeys(visible);
    FloatedCovers(Collapsed(visible), ToPerson());
    KeysOfMembers(Salient(visible), Collapsed(visible));
    KeysLaw(visible, key);
    forall l ensures l in visible <==> l in links && shown(l) {
      FilterMembers(links, shown, l);
    }
    if l :| l in links && shown(l) && KeyOf(l) == key {
      assert l in visible;
    }
  }

  /** A hidden edge, wherever it stands and whatever it runs parallel to, changes nothing on the hit. */
  lemma HiddenEdgeLeavesNoTrace<P>(before: seq<Link<P>>, hidden: Link<P>, after: seq<Link<P>>, shown: Link<P> -> bool)
    requires !shown(hidden)
    ensures Salient(Audible(before + [hidden] + after, true, shown)) == Salient(Audible(before + after, true, shown))
  {
    RejectedLeavesNoTrace(before, hidden, after, shown);
  }

  /** Collapsing before filtering would let a hidden edge take a visible one's place. */
  lemma CollapsingFirstLosesVisibleEdges<P>(hidden: Link<P>, visible: Link<P>, shown: Link<P> -> bool)
    requires !shown(hidden) && shown(visible) && KeyOf(hidden) == KeyOf(visible)
    ensures Filter(Collapsed([hidden, visible]), shown) == []
    ensures Collapsed(Filter([hidden, visible], shown)) == [visible]
  {
    assert [hidden, visible] == [] + [hidden] + [visible] && [hidden, visible][..1] == [hidden];
    FilterPush([], hidden, shown);
    FilterPush([hidden], visible, shown);
    FilterPush([], visible, shown);
    KeysLaw([hidden], KeyOf(hidden));
    assert KeyOf([hidden][0]) == KeyOf(hidden);
    assert [hidden][..0] == [] && [visible][..0] == [];
    assert [] + [hidden] == [hidden] && [] + [visible] == [visible];
    assert Collapsed([hidden]) == [hidden] && Collapsed([hidden, visible]) == [hidden];
  }
}
