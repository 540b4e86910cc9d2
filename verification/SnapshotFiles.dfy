/**
 The snapshot directory: how a snapshot's name carries the head it was captured at, and the
 operations that list, pick, prune and discard snapshots. A directory is the sequence of its files
 in the order it lists them; files that are not snapshots are left alone.
 */
module SnapshotFiles {
  import opened Words
  import opened Decimal
  import opened Wrappers

  const PREFIX := "snapshot-"
  const SUFFIX := ".sqlite"

  function Filename(head: U64): string {
    PREFIX + Padded(head, 20) + SUFFIX
  }

  function StripPrefix(s: string, p: string): Option<string> {
    if p <= s then Some(s[|p|..]) else None
  }

  function StripSuffix(s: string, p: string): Option<string> {
    if |p| <= |s| && s[|s| - |p|..] == p then Some(s[..|s| - |p|]) else None
  }

  function ParseHead(name: string): Option<U64> {
    match StripPrefix(name, PREFIX)
    case None => None
    case Some(rest) =>
      match StripSuffix(rest, SUFFIX)
      case None => None
      case Some(digits) => ParseU64(digits)
  }

  lemma AffixesStrip(d: string)
    ensures StripPrefix(PREFIX + d + SUFFIX, PREFIX) == Some(d + SUFFIX)
    ensures StripSuffix(d + SUFFIX, SUFFIX) == Some(d)
  {
    assert PREFIX + d + SUFFIX == PREFIX + (d + SUFFIX);
  }

  /** A name counts as a snapshot at `h` iff the text between the affixes reads as `h`, padded or not. */
  lemma ParsesIff(name: string, h: U64)
    ensures ParseHead(name) == Some(h) <==> exists d :: name == PREFIX + d + SUFFIX && ParseU64(d) == Some(h)
  {
    hide ParseU64;
    if ParseHead(name) == Some(h) {
      var rest := StripPrefix(name, PREFIX).value;
      var d := StripSuffix(rest, SUFFIX).value;
      assert rest == d + SUFFIX && name == PREFIX + rest;
      assert name == PREFIX + d + SUFFIX;
    }
    if d :| name == PREFIX + d + SUFFIX && ParseU64(d) == Some(h) {
      AffixesStrip(d);
    }
  }

  /** Parsing a printed name gives back its head, for every word. */
  lemma NameRoundTrip(head: U64)
    ensures ParseHead(Filename(head)) == Some(head)
  {
    hide ParseU64, Padded;
    ParsePadded(head);
    AffixesStrip(Padded(head, 20));
  }

  /** A name is the fixed affixes around twenty digits with leading zeros. */
  lemma NamesSpelled()
    ensures Filename(0) == "snapshot-" + "00000000000000000000" + ".sqlite"
    ensures Filename(42) == "snapshot-" + "00000000000000000042" + ".sqlite"
  {
    PaddedSpelled();
  }

  /** Sorting names as text sorts them by head. */
  lemma NameOrderIsHeadOrder(a: U64, b: U64)
    ensures LexLess(Filename(a), Filename(b)) <==> a < b
    ensures Filename(a) == Filename(b) <==> a == b
  {
    TwentyDigitsHoldAWord();
    PaddedValue(a, 20);
    PaddedValue(b, 20);
    LexUnderAffixes(PREFIX, Padded(a, 20), Padded(b, 20), SUFFIX);
    LexIsNumeric(Padded(a, 20), Padded(b, 20));
    NameRoundTrip(a);
    NameRoundTrip(b);
  }

  /** A name that parses need not be a printed one: the shortest digits do, and so does a plus before them. */
  lemma UnpaddedNamesParse(head: U64)
    ensures ParseHead(PREFIX + Print(head) + SUFFIX) == Some(head)
    ensures ParseHead(PREFIX + ("+" + Print(head)) + SUFFIX) == Some(head)
  {
    hide ParseHead, Print;
    ParsePrint(head);
    ParsesIff(PREFIX + Print(head) + SUFFIX, head);
    assert Print(head)[0] != '+' && ("+" + Print(head))[1..] == Print(head);
    assert ParseU64("+" + Print(head)) == Some(head);
    ParsesIff(PREFIX + ("+" + Print(head)) + SUFFIX, head);
  }

  // ---------------------------------------------------------------------------------------------
  // Listing
  // ---------------------------------------------------------------------------------------------

  datatype File<T> = File(name: string, content: T)
  datatype Found<T> = Found(file: File<T>, head: U64)

  /** The snapshots among `dir`, in directory order. */
  function Scan<T>(dir: seq<File<T>>): seq<Found<T>> {
    if dir == [] then []
    else
      match ParseHead(dir[0].name)
      case None => Scan(dir[1..])
      case Some(head) => [Found(dir[0], head)] + Scan(dir[1..])
  }

  /** Put `x` before the first element that is not below it: the insertion that keeps a sort stable. */
  function Insert<T>(x: Found<T>, sorted: seq<Found<T>>): seq<Found<T>> {
    if sorted == [] || x.head <= sorted[0].head then [x] + sorted
    else [sorted[0]] + Insert(x, sorted[1..])
  }

  function StableSort<T>(s: seq<Found<T>>): seq<Found<T>> {
    if s == [] then [] else Insert(s[0], StableSort(s[1..]))
  }

  /** Every snapshot of `dir`, oldest first. */
  function Snapshots<T>(dir: seq<File<T>>): seq<Found<T>> {
    StableSort(Scan(dir))
  }

  ghost predicate Ordered<T>(s: seq<Found<T>>) {
    forall i, j :: 0 <= i <= j < |s| ==> s[i].head <= s[j].head
  }

  lemma {:induction false} InsertAdds<T>(x: Found<T>, sorted: seq<Found<T>>)
    ensures multiset(Insert(x, sorted)) == multiset(sorted) + multiset{x}
    decreases sorted
  {
    if sorted != [] && x.head > sorted[0].head {
      InsertAdds(x, sorted[1..]);
      assert sorted == [sorted[0]] + sorted[1..];
    }
  }

  lemma {:induction false} InsertOrders<T>(x: Found<T>, sorted: seq<Found<T>>, lo: int)
    requires Ordered(sorted) && lo <= x.head && forall i :: 0 <= i < |sorted| ==> lo <= sorted[i].head
    ensures Ordered(Insert(x, sorted))
    ensures forall i :: 0 <= i < |Insert(x, sorted)| ==> lo <= Insert(x, sorted)[i].head
    decreases sorted
  {
    if sorted != [] && x.head > sorted[0].head {
      InsertOrders(x, sorted[1..], sorted[0].head);
    }
  }

  /** The listing is sorted by head and is a rearrangement of what the scan found. */
  lemma {:induction false} SortLaw<T>(s: seq<Found<T>>)
    ensures Ordered(StableSort(s)) && multiset(StableSort(s)) == multiset(s)
    decreases s
  {
    if s != [] {
      SortLaw(s[1..]);
      InsertAdds(s[0], StableSort(s[1..]));
      InsertOrders(s[0], StableSort(s[1..]), 0);
      assert s == [s[0]] + s[1..];
    }
  }

  /** The listing entries captured at one head, in order. */
  function CapturedAt<T>(s: seq<Found<T>>, head: U64): seq<Found<T>> {
    if s == [] then []
    else if s[0].head == head then [s[0]] + CapturedAt(s[1..], head)
    else CapturedAt(s[1..], head)
  }

  lemma {:induction false} InsertIsStable<T>(x: Found<T>, sorted: seq<Found<T>>, head: U64)
    ensures CapturedAt(Insert(x, sorted), head) == CapturedAt([x] + sorted, head)
    decreases sorted
  {
    assert ([x] + sorted)[1..] == sorted;
    if sorted != [] && sorted[0].head < x.head {
      InsertIsStable(x, sorted[1..], head);
      assert ([sorted[0]] + Insert(x, sorted[1..]))[1..] == Insert(x, sorted[1..]);
      assert ([x] + sorted[1..])[1..] == sorted[1..];
    }
  }

  /** Files at one head keep the order the directory lists them in. */
  lemma {:induction false} SortIsStable<T>(s: seq<Found<T>>, head: U64)
    ensures CapturedAt(StableSort(s), head) == CapturedAt(s, head)
    decreases s
  {
    if s != [] {
      SortIsStable(s[1..], head);
      InsertIsStable(s[0], StableSort(s[1..]), head);
      assert ([s[0]] + StableSort(s[1..]))[1..] == StableSort(s[1..]);
    }
  }

  /** The newest snapshot: the last of the highest heads in the listing. */
  function Latest<T>(dir: seq<File<T>>): Option<Found<T>> {
    var all := Snapshots(dir);
    if all == [] then None else Some(all[|all| - 1])
  }

  lemma {:induction false} ScanAppend<T>(a: seq<File<T>>, b: seq<File<T>>)
    ensures Scan(a + b) == Scan(a) + Scan(b)
    decreases a
  {
    hide ParseHead;
    if a == [] {
      assert a + b == b;
    } else {
      ScanAppend(a[1..], b);
      assert (a + b)[1..] == a[1..] + b && (a + b)[0] == a[0];
    }
  }

  lemma {:induction false} CapturedAppend<T>(a: seq<Found<T>>, b: seq<Found<T>>, head: U64)
    ensures CapturedAt(a + b, head) == CapturedAt(a, head) + CapturedAt(b, head)
    decreases a
  {
    if a == [] {
      assert a + b == b;
    } else {
      CapturedAppend(a[1..], b, head);
      assert (a + b)[1..] == a[1..] + b;
    }
  }

  lemma {:induction false} CapturedNone<T>(s: seq<Found<T>>, head: U64)
    requires forall i :: 0 <= i < |s| ==> s[i].head != head
    ensures CapturedAt(s, head) == []
    decreases s
  {
    if s != [] {
      CapturedNone(s[1..], head);
    }
  }

  lemma LastCaptured<T>(all: seq<Found<T>>)
    requires all != []
    ensures var last := all[|all| - 1];
            var same := CapturedAt(all, last.head);
            same != [] && same[|same| - 1] == last
  {
    var front, last := all[..|all| - 1], all[|all| - 1];
    assert all == front + [last];
    CapturedAppend(front, [last], last.head);
    assert CapturedAt([last], last.head) == [last];
  }

  /** Sorting leaves last the last element of those no other exceeds. */
  lemma SortedLast<T>(before: seq<Found<T>>, x: Found<T>, after: seq<Found<T>>)
    requires forall i :: 0 <= i < |before| ==> before[i].head <= x.head
    requires forall i :: 0 <= i < |after| ==> after[i].head < x.head
    ensures var all := StableSort(before + [x] + after);
            all != [] && all[|all| - 1] == x
  {
    hide StableSort;
    var found := before + [x] + after;
    var all := StableSort(found);
    SortLaw(found);
    SortIsStable(found, x.head);
    CapturedAppend(before + [x], after, x.head);
    CapturedAppend(before, [x], x.head);
    CapturedNone(after, x.head);
    assert CapturedAt([x], x.head) == [x];
    assert x in multiset(found);
    var last := all[|all| - 1];
    assert last in multiset(all);
    assert last in found;
    assert last.head == x.head;
    LastCaptured(all);
  }

  /** Which snapshot a boot restores: one that no other leads, and of those the one the directory lists last. */
  lemma LatestIs<T>(before: seq<File<T>>, f: File<T>, after: seq<File<T>>, head: U64)
    requires ParseHead(f.name) == Some(head)
    requires forall g :: g in before && ParseHead(g.name).Some? ==> ParseHead(g.name).value <= head
    requires forall g :: g in after && ParseHead(g.name).Some? ==> ParseHead(g.name).value < head
    ensures Latest(before + [f] + after) == Some(Found(f, head))
  {
    hide ParseHead, StableSort;
    ScanAppend(before + [f], after);
    ScanAppend(before, [f]);
    assert Scan([f]) == [Found(f, head)];
    ScanFinds(before);
    ScanFinds(after);
    SortedLast(Scan(before), Found(f, head), Scan(after));
  }

  lemma LatestNone<T>(dir: seq<File<T>>)
    ensures Latest(dir).None? <==> forall f :: f in dir ==> ParseHead(f.name).None?
  {
    hide ParseHead;
    SortLaw(Scan(dir));
    ScanFinds(dir);
    if f :| f in dir && ParseHead(f.name).Some? {
      ScanMisses(dir, f);
      assert Found(f, ParseHead(f.name).value) in multiset(Scan(dir));
    }
    if Latest(dir).Some? {
      assert Latest(dir).value in multiset(Scan(dir));
    }
  }

  // ---------------------------------------------------------------------------------------------
  // Removing files
  // ---------------------------------------------------------------------------------------------

  /** `dir` without the files named in `gone`. */
  function Without<T>(dir: seq<File<T>>, gone: set<string>): seq<File<T>> {
    if dir == [] then []
    else if dir[0].name in gone then Without(dir[1..], gone)
    else [dir[0]] + Without(dir[1..], gone)
  }

  function Remaining<T>(s: seq<Found<T>>, gone: set<string>): seq<Found<T>> {
    if s == [] then []
    else if s[0].file.name in gone then Remaining(s[1..], gone)
    else [s[0]] + Remaining(s[1..], gone)
  }

  lemma {:induction false} ScanWithout<T>(dir: seq<File<T>>, gone: set<string>)
    ensures Scan(Without(dir, gone)) == Remaining(Scan(dir), gone)
    decreases dir
  {
    if dir != [] {
      ScanWithout(dir[1..], gone);
      var kept := Without(dir[1..], gone);
      if dir[0].name !in gone {
        assert ([dir[0]] + kept)[1..] == kept;
      }
      if ParseHead(dir[0].name).Some? {
        var x := Found(dir[0], ParseHead(dir[0].name).value);
        assert ([x] + Scan(dir[1..]))[1..] == Scan(dir[1..]);
      }
    }
  }

  lemma {:induction false} RemainingOfInsert<T>(x: Found<T>, sorted: seq<Found<T>>, gone: set<string>)
    requires Ordered(sorted)
    ensures Remaining(Insert(x, sorted), gone) ==
            if x.file.name in gone then Remaining(sorted, gone) else Insert(x, Remaining(sorted, gone))
    decreases sorted
  {
    if sorted == [] || x.head <= sorted[0].head {
      assert ([x] + sorted)[1..] == sorted;
      RemainingIsAtLeast(x.head, sorted, gone);
    } else {
      RemainingOfInsert(x, sorted[1..], gone);
      var rest := Insert(x, sorted[1..]);
      assert ([sorted[0]] + rest)[1..] == rest;
      if sorted[0].file.name !in gone {
        var kept := Remaining(sorted[1..], gone);
        assert ([sorted[0]] + kept)[1..] == kept;
      }
    }
  }

  lemma {:induction false} RemainingIsAtLeast<T>(lo: int, s: seq<Found<T>>, gone: set<string>)
    requires forall i :: 0 <= i < |s| ==> lo <= s[i].head
    ensures forall i :: 0 <= i < |Remaining(s, gone)| ==> lo <= Remaining(s, gone)[i].head
    decreases s
  {
    if s != [] {
      RemainingIsAtLeast(lo, s[1..], gone);
    }
  }

  /** Removing files and listing is listing and leaving them out: the sort is stable. */
  lemma {:induction false} SortRemaining<T>(s: seq<Found<T>>, gone: set<string>)
    ensures StableSort(Remaining(s, gone)) == Remaining(StableSort(s), gone)
    decreases s
  {
    if s != [] {
      SortRemaining(s[1..], gone);
      SortLaw(s[1..]);
      RemainingOfInsert(s[0], StableSort(s[1..]), gone);
      if s[0].file.name !in gone {
        var kept := Remaining(s[1..], gone);
        assert ([s[0]] + kept)[1..] == kept;
      }
    }
  }

  lemma SnapshotsWithout<T>(dir: seq<File<T>>, gone: set<string>)
    ensures Snapshots(Without(dir, gone)) == Remaining(Snapshots(dir), gone)
  {
    ScanWithout(dir, gone);
    SortRemaining(Scan(dir), gone);
  }

  // ---------------------------------------------------------------------------------------------
  // A directory names each file once
  // ---------------------------------------------------------------------------------------------

  ghost predicate Named<T>(dir: seq<File<T>>) {
    forall i, j :: 0 <= i < j < |dir| ==> dir[i].name != dir[j].name
  }

  ghost predicate NamedApart<T>(s: seq<Found<T>>) {
    forall i, j :: 0 <= i < j < |s| ==> s[i].file.name != s[j].file.name
  }

  lemma {:induction false} ScanFinds<T>(dir: seq<File<T>>)
    ensures forall k :: 0 <= k < |Scan(dir)| ==>
              Scan(dir)[k].file in dir && ParseHead(Scan(dir)[k].file.name) == Some(Scan(dir)[k].head)
    decreases dir
  {
    hide ParseHead;
    if dir != [] {
      ScanFinds(dir[1..]);
    }
  }

  lemma {:induction false} ScanApart<T>(dir: seq<File<T>>)
    requires Named(dir)
    ensures NamedApart(Scan(dir))
    decreases dir
  {
    hide ParseHead;
    if dir != [] {
      ScanApart(dir[1..]);
      ScanFinds(dir[1..]);
      var rest := Scan(dir[1..]);
      forall k | 0 <= k < |rest| ensures rest[k].file.name != dir[0].name {
        var i :| 0 <= i < |dir[1..]| && dir[1..][i] == rest[k].file;
        assert dir[i + 1] == rest[k].file;
      }
    }
  }

  lemma {:induction false} ScanMisses<T>(dir: seq<File<T>>, f: File<T>)
    requires f in dir && ParseHead(f.name).Some?
    ensures Found(f, ParseHead(f.name).value) in Scan(dir)
    decreases dir
  {
    if dir[0] == f {
      assert Scan(dir)[0] == Found(f, ParseHead(f.name).value);
    } else {
      assert f in dir[1..];
      ScanMisses(dir[1..], f);
      var x := Found(f, ParseHead(f.name).value);
      var i :| 0 <= i < |Scan(dir[1..])| && Scan(dir[1..])[i] == x;
      if ParseHead(dir[0].name).Some? {
        assert Scan(dir)[i + 1] == x;
      }
    }
  }

  lemma {:induction false} InsertApart<T>(x: Found<T>, s: seq<Found<T>>)
    requires NamedApart(s) && forall i :: 0 <= i < |s| ==> s[i].file.name != x.file.name
    ensures NamedApart(Insert(x, s))
    ensures forall k :: 0 <= k < |Insert(x, s)| ==> Insert(x, s)[k] == x || Insert(x, s)[k] in s
    decreases s
  {
    if s != [] && x.head > s[0].head {
      InsertApart(x, s[1..]);
      var rest := Insert(x, s[1..]);
      forall k | 0 <= k < |rest| ensures rest[k].file.name != s[0].file.name {
        if rest[k] != x {
          var i :| 0 <= i < |s[1..]| && s[1..][i] == rest[k];
          assert s[i + 1] == rest[k];
        }
      }
    }
  }

  lemma {:induction false} SortApart<T>(s: seq<Found<T>>)
    requires NamedApart(s)
    ensures NamedApart(StableSort(s))
    decreases s
  {
    if s != [] {
      SortApart(s[1..]);
      SortLaw(s[1..]);
      var rest := StableSort(s[1..]);
      forall i | 0 <= i < |rest| ensures rest[i].file.name != s[0].file.name {
        assert rest[i] in multiset(rest);
        var j :| 0 <= j < |s[1..]| && s[1..][j] == rest[i];
        assert s[j + 1] == rest[i];
      }
      InsertApart(s[0], rest);
    }
  }

  lemma SnapshotsApart<T(!new)>(dir: seq<File<T>>)
    requires Named(dir)
    ensures NamedApart(Snapshots(dir)) && Ordered(Snapshots(dir))
    ensures forall k :: 0 <= k < |Snapshots(dir)| ==>
              Snapshots(dir)[k].file in dir
              && ParseHead(Snapshots(dir)[k].file.name) == Some(Snapshots(dir)[k].head)
    ensures forall f :: f in dir && ParseHead(f.name).Some? ==>
              Found(f, ParseHead(f.name).value) in Snapshots(dir)
  {
    ScanFinds(dir);
    ScanApart(dir);
    SortLaw(Scan(dir));
    SortApart(Scan(dir));
    forall k | 0 <= k < |Snapshots(dir)| ensures Snapshots(dir)[k] in Scan(dir) {
      assert Snapshots(dir)[k] in multiset(Snapshots(dir));
    }
    forall f | f in dir && ParseHead(f.name).Some?
      ensures Found(f, ParseHead(f.name).value) in Snapshots(dir)
    {
      ScanMisses(dir, f);
      assert Found(f, ParseHead(f.name).value) in multiset(Scan(dir));
    }
  }

  function Names<T>(s: seq<Found<T>>): (names: set<string>)
    ensures forall i :: 0 <= i < |s| ==> s[i].file.name in names
    ensures forall n :: n in names ==> exists i :: 0 <= i < |s| && s[i].file.name == n
  {
    if s == [] then {} else Names(s[..|s| - 1]) + {s[|s| - 1].file.name}
  }

  lemma {:induction false} RemainingKeepsAll<T>(s: seq<Found<T>>, gone: set<string>)
    requires forall i :: 0 <= i < |s| ==> s[i].file.name !in gone
    ensures Remaining(s, gone) == s
    decreases s
  {
    if s != [] {
      RemainingKeepsAll(s[1..], gone);
      assert s == [s[0]] + s[1..];
    }
  }

  lemma {:induction false} RemainingDropsPrefix<T>(s: seq<Found<T>>, k: nat, gone: set<string>)
    requires k <= |s|
    requires forall i :: 0 <= i < k ==> s[i].file.name in gone
    requires forall i :: k <= i < |s| ==> s[i].file.name !in gone
    ensures Remaining(s, gone) == s[k..]
    decreases k
  {
    if k == 0 {
      RemainingKeepsAll(s, gone);
      assert s[0..] == s;
    } else {
      RemainingDropsPrefix(s[1..], k - 1, gone);
      assert s[1..][k - 1..] == s[k..];
    }
  }

  lemma {:induction false} RemainingDropsSuffix<T>(s: seq<Found<T>>, k: nat, gone: set<string>)
    requires k <= |s|
    requires forall i :: 0 <= i < k ==> s[i].file.name !in gone
    requires forall i :: k <= i < |s| ==> s[i].file.name in gone
    ensures Remaining(s, gone) == s[..k]
    decreases |s|
  {
    if s != [] {
      if k == 0 {
        RemainingDropsSuffix(s[1..], 0, gone);
      } else {
        RemainingDropsSuffix(s[1..], k - 1, gone);
        assert s[..k] == [s[0]] + s[1..][..k - 1];
      }
    }
  }

  // ---------------------------------------------------------------------------------------------
  // Retention and revert
  // ---------------------------------------------------------------------------------------------

  /** How many of the oldest snapshots retention deletes; a `keep` of 0 counts as 1. */
  function Surplus(count: nat, keep: nat): nat {
    var kept := if keep < 1 then 1 else keep;
    if count <= kept then 0 else count - kept
  }

  function Pruned<T>(dir: seq<File<T>>, keep: nat): seq<File<T>> {
    var all := Snapshots(dir);
    Without(dir, Names(all[..Surplus(|all|, keep)]))
  }

  lemma NamesOfPrefix<T>(s: seq<Found<T>>, k: nat)
    requires NamedApart(s) && k <= |s|
    ensures forall i :: 0 <= i < |s| ==> (s[i].file.name in Names(s[..k]) <==> i < k)
  {
    hide Names;
    forall i | 0 <= i < |s| ensures s[i].file.name in Names(s[..k]) <==> i < k {
      assert i < k ==> s[..k][i] == s[i];
      assert forall j :: 0 <= j < k ==> s[..k][j] == s[j];
    }
  }

  /**
   Retention keeps exactly the max(keep, 1) newest snapshots in the listing's own order, duplicate
   heads included, and never changes which one a boot would restore.
   */
  lemma PruneKeepsNewest<T(!new)>(dir: seq<File<T>>, keep: nat)
    requires Named(dir)
    ensures var all := Snapshots(dir);
            Snapshots(Pruned(dir, keep)) == all[Surplus(|all|, keep)..]
    ensures Latest(Pruned(dir, keep)) == Latest(dir)
    ensures var all, left := Snapshots(dir), Snapshots(Pruned(dir, keep));
            var kept := if keep == 0 then 1 else keep;
            && |left| == (if |all| <= kept then |all| else kept)
            && left == all[|all| - |left|..]
  {
    hide Snapshots, Names, Without;
    var all := Snapshots(dir);
    var k := Surplus(|all|, keep);
    var gone := Names(all[..k]);
    SnapshotsApart(dir);
    SnapshotsWithout(dir, gone);
    NamesOfPrefix(all, k);
    RemainingDropsPrefix(all, k, gone);
  }

  function Above<T>(s: seq<Found<T>>, to: U64): (names: set<string>)
    ensures forall i :: 0 <= i < |s| && s[i].head > to ==> s[i].file.name in names
    ensures forall n :: n in names ==> exists i :: 0 <= i < |s| && s[i].head > to && s[i].file.name == n
  {
    if s == [] then {}
    else
      var last := s[|s| - 1];
      Above(s[..|s| - 1], to) + (if last.head > to then {last.file.name} else {})
  }

  function Discarded<T>(dir: seq<File<T>>, to: U64): seq<File<T>> {
    Without(dir, Above(Snapshots(dir), to))
  }

  lemma {:induction false} CutAt<T>(s: seq<Found<T>>, to: U64) returns (k: nat)
    requires Ordered(s)
    ensures k <= |s|
    ensures forall i :: 0 <= i < k ==> s[i].head <= to
    ensures forall i :: k <= i < |s| ==> s[i].head > to
  {
    k := 0;
    while k < |s| && s[k].head <= to
      invariant k <= |s|
      invariant forall i :: 0 <= i < k ==> s[i].head <= to
    {
      k := k + 1;
    }
  }

  /** Discarding past `to` leaves exactly the snapshots at or below it, in order. */
  lemma DiscardKeepsPrefix<T(!new)>(dir: seq<File<T>>, to: U64) returns (k: nat)
    requires Named(dir)
    ensures k <= |Snapshots(dir)|
    ensures Snapshots(Discarded(dir, to)) == Snapshots(dir)[..k]
    ensures forall i :: 0 <= i < k ==> Snapshots(dir)[i].head <= to
    ensures forall i :: k <= i < |Snapshots(dir)| ==> Snapshots(dir)[i].head > to
  {
    var all := Snapshots(dir);
    SnapshotsApart(dir);
    k := CutAt(all, to);
    SnapshotsWithout(dir, Above(all, to));
    RemainingDropsSuffix(all, k, Above(all, to));
  }

  lemma DiscardedSnapshots<T(!new)>(dir: seq<File<T>>, to: U64)
    requires Named(dir)
    ensures forall x :: x in Snapshots(Discarded(dir, to)) <==> x in Snapshots(dir) && x.head <= to
  {
    hide Snapshots, Discarded;
    var all := Snapshots(dir);
    var k := DiscardKeepsPrefix(dir, to);
    forall x ensures x in all[..k] <==> x in all && x.head <= to {
      if x in all && x.head <= to {
        var i :| 0 <= i < |all| && all[i] == x;
        assert i < k && all[..k][i] == x;
      }
    }
  }

  lemma AboveNothing<T>(to: U64)
    ensures Above<T>([], to) == {}
  {
  }

  lemma AbovePush<T>(s: seq<Found<T>>, i: nat, to: U64)
    requires i < |s|
    ensures Above(s[..i + 1], to) ==
            if s[i].head > to then Above(s[..i], to) + {s[i].file.name} else Above(s[..i], to)
  {
    assert s[..i + 1][..i] == s[..i];
  }

  lemma {:induction false} WithoutMembers<T>(dir: seq<File<T>>, gone: set<string>, f: File<T>)
    ensures f in Without(dir, gone) <==> f in dir && f.name !in gone
    decreases dir
  {
    if dir != [] {
      WithoutMembers(dir[1..], gone, f);
      assert dir == [dir[0]] + dir[1..];
    }
  }

  lemma {:induction false} WithoutNamed<T(!new)>(dir: seq<File<T>>, gone: set<string>)
    requires Named(dir)
    ensures Named(Without(dir, gone))
    decreases dir
  {
    if dir != [] {
      WithoutNamed(dir[1..], gone);
      var kept := Without(dir[1..], gone);
      forall k | 0 <= k < |kept| ensures kept[k].name != dir[0].name {
        WithoutMembers(dir[1..], gone, kept[k]);
        var i :| 0 <= i < |dir[1..]| && dir[1..][i] == kept[k];
        assert dir[i + 1] == kept[k];
      }
    }
  }

  lemma WithoutSubset<T(!new)>(dir: seq<File<T>>, gone: set<string>)
    ensures forall f :: f in Without(dir, gone) <==> f in dir && f.name !in gone
    ensures Named(dir) ==> Named(Without(dir, gone))
  {
    hide Without;
    forall f ensures f in Without(dir, gone) <==> f in dir && f.name !in gone {
      WithoutMembers(dir, gone, f);
    }
    if Named(dir) {
      WithoutNamed(dir, gone);
    }
  }

  lemma {:induction false} WithoutTwice<T>(dir: seq<File<T>>, a: set<string>, b: set<string>)
    ensures Without(Without(dir, a), b) == Without(dir, a + b)
    decreases dir
  {
    if dir != [] {
      WithoutTwice(dir[1..], a, b);
      if dir[0].name !in a {
        var kept := Without(dir[1..], a);
        assert ([dir[0]] + kept)[1..] == kept;
      }
    }
  }

  lemma {:induction false} WithoutNone<T>(dir: seq<File<T>>)
    ensures Without(dir, {}) == dir
    decreases dir
  {
    if dir != [] {
      WithoutNone(dir[1..]);
      assert dir == [dir[0]] + dir[1..];
    }
  }

  function NamesOf<T>(s: seq<Found<T>>): seq<string> {
    seq(|s|, i requires 0 <= i < |s| => s[i].file.name)
  }

  lemma NamesPush<T>(s: seq<Found<T>>, from: nat, i: nat)
    requires from <= i < |s|
    ensures NamesOf(s[from..i + 1]) == NamesOf(s[from..i]) + [s[i].file.name]
  {
    assert s[from..i + 1] == s[from..i] + [s[i]];
  }

  lemma NamesNone<T>(s: seq<Found<T>>, from: nat)
    requires from <= |s|
    ensures NamesOf(s[from..from]) == []
  {
  }

  /** Names one more removed file, when it is to be removed. */
  lemma NamesStep<T>(s: seq<Found<T>>, k: nat, i: nat)
    requires k <= |s| && i < |s|
    ensures NamesFrom(s, k, i + 1) == if i < k then NamesFrom(s, k, i) else NamesFrom(s, k, i) + [s[i].file.name]
  {
    if i >= k {
      NamesPush(s, k, i);
      NamesNone(s, k);
    }
  }

  function NamesFrom<T>(s: seq<Found<T>>, k: nat, i: nat): seq<string>
    requires i <= |s|
  {
    if i <= k then [] else NamesOf(s[k..i])
  }

  lemma NamesFromNone<T>(s: seq<Found<T>>, k: nat)
    ensures NamesFrom(s, k, 0) == []
  {
  }

  lemma NamesFromAll<T>(s: seq<Found<T>>, k: nat)
    requires k <= |s|
    ensures NamesFrom(s, k, |s|) == NamesOf(s[k..])
  {
    assert s[k..|s|] == s[k..];
  }

  lemma NoNames<T>()
    ensures Names<T>([]) == {} && NamesOf<T>([]) == []
  {
  }

  lemma NamesFirst<T>(s: seq<Found<T>>, i: nat)
    requires i < |s|
    ensures Names(s[..i + 1]) == Names(s[..i]) + {s[i].file.name}
    ensures NamesOf(s[..i + 1]) == NamesOf(s[..i]) + [s[i].file.name]
  {
    assert s[..i + 1] == s[..i] + [s[i]] && s[..i + 1][..i] == s[..i];
  }

  lemma NamesElementwise<T>(s: seq<Found<T>>)
    ensures |NamesOf(s)| == |s| && forall i :: 0 <= i < |s| ==> NamesOf(s)[i] == s[i].file.name
    ensures forall n :: n in Names(s) <==> n in NamesOf(s)
  {
    hide Names;
    forall n ensures n in Names(s) <==> n in NamesOf(s) {
      if n in Names(s) {
        var i :| 0 <= i < |s| && s[i].file.name == n;
        assert NamesOf(s)[i] == n;
      }
    }
  }

  /** What a discard deletes, said of the files: the snapshots past `to` and nothing else. */
  lemma AboveMeans<T(!new)>(dir: seq<File<T>>, to: U64)
    requires Named(dir)
    ensures forall f :: f in dir ==>
              (f.name in Above(Snapshots(dir), to) <==> ParseHead(f.name).Some? && ParseHead(f.name).value > to)
  {
    hide Above, Snapshots, ParseHead;
    SnapshotsApart(dir);
    var all := Snapshots(dir);
    forall f | f in dir
      ensures f.name in Above(all, to) <==> ParseHead(f.name).Some? && ParseHead(f.name).value > to
    {
      if f.name in Above(all, to) {
        var i :| 0 <= i < |all| && all[i].head > to && all[i].file.name == f.name;
      }
      if ParseHead(f.name).Some? && ParseHead(f.name).value > to {
        var i :| 0 <= i < |all| && all[i] == Found(f, ParseHead(f.name).value);
      }
    }
  }

  /** The directory as the program changes it, one file at a time. */
  class SnapshotDirectory<T(==, !new)> {
    var files: seq<File<T>>

    constructor (listed: seq<File<T>>)
      ensures files == listed
    {
      files := listed;
    }

    /** The newest snapshot, as a maximum over the listing that prefers later elements. */
    method Newest() returns (best: Option<Found<T>>)
      ensures best == Latest(files)
      ensures best.Some? ==> forall x :: x in Snapshots(files) ==> x.head <= best.value.head
    {
      var all := Snapshots(files);
      SortLaw(Scan(files));
      best := None;
      for i := 0 to |all|
        invariant best.None? <==> i == 0
        invariant i > 0 ==> best == Some(all[i - 1])
      {
        if best.None? || all[i].head >= best.value.head {
          best := Some(all[i]);
        }
      }
    }

    method Remove(name: string)
      modifies this
      ensures files == Without(old(files), {name})
    {
      files := Without(files, {name});
    }

    /** Keep the `keep` newest snapshots, deleting the rest oldest first. */
    method Prune(keep: nat) returns (removed: seq<string>)
      requires Named(files)
      modifies this
      ensures files == Pruned(old(files), keep) && Named(files)
      ensures Latest(files) == Latest(old(files))
      ensures removed == NamesOf(old(Snapshots(files))[..Surplus(|old(Snapshots(files))|, keep)])
      ensures var all, left := old(Snapshots(files)), Snapshots(files);
              var kept := if keep == 0 then 1 else keep;
              && |left| == (if |all| <= kept then |all| else kept)
              && left == all[|all| - |left|..]
              && |removed| == |all| - |left|
              && (forall i :: 0 <= i < |removed| ==> removed[i] == all[i].file.name)
      ensures forall f :: f in files <==> f in old(files) && f.name !in removed
    {
      hide Without, Snapshots, Names, NamesOf;
      PruneKeepsNewest(files, keep);
      NoNames<T>();
      var all := Snapshots(files);
      assert all[..0] == [];
      var kept := if keep < 1 then 1 else keep;
      removed := [];
      WithoutNone(files);
      if |all| > kept {
        for i := 0 to |all| - kept
          invariant files == Without(old(files), Names(all[..i]))
          invariant removed == NamesOf(all[..i])
        {
          WithoutTwice(old(files), Names(all[..i]), {all[i].file.name});
          NamesFirst(all, i);
          Remove(all[i].file.name);
          removed := removed + [all[i].file.name];
        }
      }
      WithoutSubset(old(files), Names(all[..Surplus(|all|, keep)]));
      NamesElementwise(all[..Surplus(|all|, keep)]);
    }

    /** Delete every snapshot past `to`. */
    method DiscardAfter(to: U64) returns (removed: seq<string>)
      requires Named(files)
      modifies this
      ensures files == Discarded(old(files), to) && Named(files)
      ensures Snapshots(files) <= old(Snapshots(files))
      ensures removed == NamesOf(old(Snapshots(files))[|Snapshots(files)|..])
      ensures forall x :: x in Snapshots(files) <==> x in old(Snapshots(files)) && x.head <= to
      ensures var all, left := old(Snapshots(files)), |Snapshots(files)|;
              && |removed| == |all| - left
              && (forall i :: 0 <= i < |removed| ==> removed[i] == all[left + i].file.name)
      ensures forall f :: f in files <==>
                f in old(files) && !(ParseHead(f.name).Some? && ParseHead(f.name).value > to)
    {
      hide Above, Without, Snapshots, NamesOf, NamesFrom;
      ghost var k := DiscardKeepsPrefix(files, to);
      DiscardedSnapshots(files, to);
      var all := Snapshots(files);
      removed := [];
      WithoutNone(files);
      AboveNothing<T>(to);
      NamesFromAll(all, k);
      NamesFromNone(all, k);
      assert all[..0] == [];
      for i := 0 to |all|
        invariant files == Without(old(files), Above(all[..i], to))
        invariant removed == NamesFrom(all, k, i)
      {
        WithoutTwice(old(files), Above(all[..i], to), {all[i].file.name});
        AbovePush(all, i, to);
        NamesStep(all, k, i);
        if all[i].head > to {
          Remove(all[i].file.name);
          removed := removed + [all[i].file.name];
        }
      }
      assert all[..|all|] == all;
      WithoutSubset(old(files), Above(all, to));
      AboveMeans(old(files), to);
      NamesElementwise(all[k..]);
    }
  }
}
