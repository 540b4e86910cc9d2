/**
 The `Range` header of a blob request: its text, the range it names, the bytes that range selects
 (sections 14.1.2 and 14.2 of RFC 9110).
 */
module ByteRanges {
  import opened Words
  import opened Decimal
  import opened Wrappers

  // ---------------------------------------------------------------------------------------------
  // Trimming and splitting
  // ---------------------------------------------------------------------------------------------

  /** The whitespace a header value can hold. */
  predicate Blank(c: char) {
    c == ' ' || c == '\t'
  }

  ghost predicate AllBlank(s: string) {
    forall i :: 0 <= i < |s| ==> Blank(s[i])
  }

  function TrimStart(s: string): (r: string)
    ensures r == [] || !Blank(r[0])
  {
    if s != [] && Blank(s[0]) then TrimStart(s[1..]) else s
  }

  function TrimEnd(s: string): (r: string)
    ensures r == [] || !Blank(r[|r| - 1])
  {
    if s != [] && Blank(s[|s| - 1]) then TrimEnd(s[..|s| - 1]) else s
  }

  function Trim(s: string): string {
    TrimEnd(TrimStart(s))
  }

  lemma {:induction false} TrimStartCuts(s: string) returns (p: string)
    ensures AllBlank(p) && s == p + TrimStart(s)
    decreases s
  {
    p := [];
    if s != [] && Blank(s[0]) {
      p := TrimStartCuts(s[1..]);
      p := [s[0]] + p;
    }
  }

  lemma {:induction false} TrimEndCuts(s: string) returns (q: string)
    ensures AllBlank(q) && s == TrimEnd(s) + q
    decreases |s|
  {
    q := [];
    if s != [] && Blank(s[|s| - 1]) {
      q := TrimEndCuts(s[..|s| - 1]);
      q := q + [s[|s| - 1]];
    }
  }

  lemma {:induction false} TrimStartPast(p: string, s: string)
    requires AllBlank(p)
    ensures TrimStart(p + s) == TrimStart(s)
    decreases p
  {
    if p == [] {
      assert p + s == s;
    } else {
      assert (p + s)[1..] == p[1..] + s;
      TrimStartPast(p[1..], s);
    }
  }

  lemma {:induction false} TrimEndPast(s: string, q: string)
    requires AllBlank(q)
    ensures TrimEnd(s + q) == TrimEnd(s)
    decreases |q|
  {
    if q == [] {
      assert s + q == s;
    } else {
      var n := |q| - 1;
      assert (s + q)[..|s + q| - 1] == s + q[..n];
      TrimEndPast(s, q[..n]);
    }
  }

  lemma {:induction false} TrimStartStops(s: string, t: string)
    requires TrimStart(s) != [] || (t != [] && !Blank(t[0]))
    ensures TrimStart(s + t) == TrimStart(s) + t
    decreases s
  {
    if s == [] {
      assert s + t == t;
    } else if Blank(s[0]) {
      assert (s + t)[1..] == s[1..] + t;
      TrimStartStops(s[1..], t);
    }
  }

  lemma {:induction false} TrimEndStops(s: string, t: string)
    requires s != [] && !Blank(s[|s| - 1])
    ensures TrimEnd(s + t) == s + TrimEnd(t)
    decreases |t|
  {
    if t == [] {
      assert s + t == s;
    } else if Blank(t[|t| - 1]) {
      assert (s + t)[..|s + t| - 1] == s + t[..|t| - 1];
      TrimEndStops(s, t[..|t| - 1]);
    }
  }

  /** Trimming twice, from either end first, is trimming once. */
  lemma TrimAgain(s: string)
    ensures Trim(TrimStart(s)) == Trim(s) && Trim(TrimEnd(s)) == Trim(s)
  {
    var q := TrimEndCuts(s);
    TrimPad([], TrimEnd(s), q);
    assert [] + TrimEnd(s) + q == s;
    var p := TrimStartCuts(s);
    TrimPad(p, TrimStart(s), []);
    assert p + TrimStart(s) + [] == s;
  }

  lemma TrimPad(p: string, s: string, q: string)
    requires AllBlank(p) && AllBlank(q)
    ensures Trim(p + s + q) == Trim(s)
  {
    assert p + s + q == p + (s + q);
    TrimStartPast(p, s + q);
    if TrimStart(s) == [] {
      var b := TrimStartCuts(s);
      assert AllBlank(s + q) && (s + q) + [] == s + q;
      TrimStartPast(s + q, []);
    } else {
      TrimStartStops(s, q);
      TrimEndPast(TrimStart(s), q);
    }
  }

  function SplitOnce(s: string, c: char): (r: Option<(string, string)>)
    ensures r.Some? <==> c in s
    ensures r.Some? ==> s == r.value.0 + [c] + r.value.1 && c !in r.value.0
  {
    if s == [] then None
    else if s[0] == c then Some(([], s[1..]))
    else
      match SplitOnce(s[1..], c)
      case None => None
      case Some(parts) => Some(([s[0]] + parts.0, parts.1))
  }

  lemma {:induction false} SplitAtFirst(a: string, c: char, b: string)
    requires c !in a
    ensures SplitOnce(a + [c] + b, c) == Some((a, b))
    decreases a
  {
    var s := a + [c] + b;
    if a == [] {
      assert s[1..] == b;
    } else {
      assert s[1..] == a[1..] + [c] + b;
      SplitAtFirst(a[1..], c, b);
      assert s[0] == a[0] && [a[0]] + a[1..] == a;
    }
  }

  // ---------------------------------------------------------------------------------------------
  // Reading the header
  // ---------------------------------------------------------------------------------------------

  datatype Requested = From(start: U64, end: Option<U64>) | Suffix(length: U64)

  const UNIT := "bytes="

  predicate VisibleAscii(c: char) {
    c == '\t' || (' ' <= c && c as int < 127)
  }

  function Interpret(start: string, end: string): Option<Requested> {
    if start == [] then
      match ParseU64(end)
      case None => None
      case Some(n) => Some(Suffix(n))
    else
      match ParseU64(start)
      case None => None
      case Some(s) =>
        if end == [] then Some(From(s, None))
        else
          match ParseU64(end)
          case None => None
          case Some(e) => if e < s then None else Some(From(s, Some(e)))
  }

  function ReadSpec(spec: string): Option<Requested> {
    if ',' in spec then None
    else
      match SplitOnce(spec, '-')
      case None => None
      case Some((start, end)) => Interpret(Trim(start), Trim(end))
  }

  /** The range a request's header names; anything not understood counts as no range at all. */
  function RequestedRange(header: Option<string>): Option<Requested> {
    if header.None? || exists c <- header.value :: !VisibleAscii(c) then None
    else
      var value := Trim(header.value);
      if UNIT <= value then ReadSpec(Trim(value[|UNIT|..])) else None
  }

  /** The two texts around the dash denote `r`: an ordered pair, an open end or a suffix length. */
  predicate Reads(start: string, end: string, r: Requested) {
    match r
    case From(s, Some(e)) => ParseU64(start) == Some(s) && ParseU64(end) == Some(e) && s <= e
    case From(s, None) => ParseU64(start) == Some(s) && end == []
    case Suffix(n) => start == [] && ParseU64(end) == Some(n)
  }

  /** `h` is the unit, then `x`, a dash and `y`, blanks anywhere around the numbers. */
  ghost predicate Spells(h: string, lead: string, x: string, y: string, r: Requested) {
    AllBlank(lead) && h == lead + UNIT + x + "-" + y && Reads(Trim(x), Trim(y), r)
  }

  ghost predicate Plain(s: string) {
    forall c <- s :: Blank(c) || IsDigit(c) || c == '+'
  }

  lemma NumberIsPlain(x: string)
    requires Trim(x) == [] || ParseU64(Trim(x)).Some?
    ensures Plain(x)
  {
    var p := TrimStartCuts(x);
    var q := TrimEndCuts(TrimStart(x));
    var core := Trim(x);
    assert x == p + (core + q);
    if core != [] {
      var digits := Unsigned(core);
      assert AllDigits(digits);
      assert core == digits || core == ['+'] + digits;
      assert Plain(core);
    }
    assert Plain(p) && Plain(q);
  }

  lemma TrimAroundDash(x: string, y: string)
    ensures Trim(x + "-" + y) == TrimStart(x) + "-" + TrimEnd(y)
  {
    assert x + "-" + y == x + ("-" + y);
    TrimStartStops(x, "-" + y);
    assert TrimStart(x) + ("-" + y) == (TrimStart(x) + "-") + y;
    TrimEndStops(TrimStart(x) + "-", y);
  }

  lemma TrimPastUnit(lead: string, rest: string)
    requires AllBlank(lead)
    ensures Trim(lead + UNIT + rest) == UNIT + TrimEnd(rest)
  {
    assert lead + UNIT + rest == lead + (UNIT + rest);
    TrimStartPast(lead, UNIT + rest);
    assert TrimStart(UNIT + rest) == UNIT + rest;
    TrimEndStops(UNIT, rest);
  }

  /** Past blanks and the unit, only the two texts around the first dash matter. */
  lemma ReadsAroundDash(lead: string, x: string, y: string)
    requires AllBlank(lead) && Plain(x) && Plain(y)
    ensures RequestedRange(Some(lead + UNIT + x + "-" + y)) == Interpret(Trim(x), Trim(y))
  {
    hide TrimStart, TrimEnd, Interpret, SplitOnce;
    var rest := x + "-" + y;
    var h := lead + UNIT + rest;
    assert h == lead + UNIT + x + "-" + y;
    assert forall c <- h :: VisibleAscii(c);
    TrimPastUnit(lead, rest);
    TrimAgain(rest);
    assert Trim(h)[|UNIT|..] == TrimEnd(rest);
    SpecAroundDash(x, y);
  }

  lemma SpecAroundDash(x: string, y: string)
    requires Plain(x) && Plain(y)
    ensures ReadSpec(Trim(x + "-" + y)) == Interpret(Trim(x), Trim(y))
  {
    hide TrimStart, TrimEnd, Interpret, SplitOnce;
    var a, b := TrimStart(x), TrimEnd(y);
    TrimAroundDash(x, y);
    var p := TrimStartCuts(x);
    var q := TrimEndCuts(y);
    assert Plain(a) && Plain(b) by {
      assert forall c <- a :: c in x;
      assert forall c <- b :: c in y;
    }
    SplitAtFirst(a, '-', b);
    TrimAgain(x);
    TrimAgain(y);
  }

  lemma InterpretIff(a: string, b: string, r: Requested)
    ensures Interpret(a, b) == Some(r) <==> Reads(a, b, r)
    ensures Reads(a, b, r) ==> (a == [] || ParseU64(a).Some?) && (b == [] || ParseU64(b).Some?)
  {
  }

  lemma SpelledIsRead(h: string, lead: string, x: string, y: string, r: Requested)
    requires Spells(h, lead, x, y, r)
    ensures RequestedRange(Some(h)) == Some(r)
  {
    hide RequestedRange, Interpret, Reads, Trim;
    InterpretIff(Trim(x), Trim(y), r);
    NumberIsPlain(x);
    NumberIsPlain(y);
    ReadsAroundDash(lead, x, y);
  }

  lemma SpecIsSpelled(spec: string, r: Requested) returns (a: string, b: string)
    requires ReadSpec(spec) == Some(r)
    ensures spec == a + "-" + b && Reads(Trim(a), Trim(b), r)
  {
    hide Trim, Interpret, Reads;
    var parts := SplitOnce(spec, '-').value;
    a, b := parts.0, parts.1;
    InterpretIff(Trim(a), Trim(b), r);
  }

  lemma ReadIsSpelled(h: string, r: Requested) returns (lead: string, x: string, y: string)
    requires RequestedRange(Some(h)) == Some(r)
    ensures Spells(h, lead, x, y, r)
  {
    hide TrimStart, TrimEnd, ReadSpec, Reads;
    var rest := Trim(h)[|UNIT|..];
    var a, b := SpecIsSpelled(Trim(rest), r);
    lead := TrimStartCuts(h);
    var tail := TrimEndCuts(TrimStart(h));
    var p := TrimStartCuts(rest);
    var q := TrimEndCuts(TrimStart(rest));
    x, y := p + a, b + (q + tail);
    Regroup(lead, p, a, b, q, tail);
    TrimPad(p, a, []);
    assert p + a + [] == p + a;
    TrimPad([], b, q + tail);
    assert [] + b + (q + tail) == b + (q + tail);
  }

  lemma Regroup(lead: string, p: string, a: string, b: string, q: string, tail: string)
    ensures lead + ((UNIT + (p + ((a + "-" + b) + q))) + tail) == lead + UNIT + (p + a) + "-" + (b + (q + tail))
  {
  }

  /**
   Exactly these headers name a range. The comma and the character checks never decide it: no text
   that fails them spells a range.
   */
  lemma ReadIffSpelled(h: string, r: Requested)
    ensures RequestedRange(Some(h)) == Some(r) <==> exists lead, x, y :: Spells(h, lead, x, y, r)
  {
    if RequestedRange(Some(h)) == Some(r) {
      var lead, x, y := ReadIsSpelled(h, r);
    }
    if lead, x, y :| Spells(h, lead, x, y, r) {
      SpelledIsRead(h, lead, x, y, r);
    }
  }

  function PrintEnd(end: Option<U64>): string {
    match end
    case None => []
    case Some(e) => Print(e)
  }

  function PrintRange(r: Requested): string {
    match r
    case From(s, end) => UNIT + Print(s) + "-" + PrintEnd(end)
    case Suffix(n) => UNIT + "-" + Print(n)
  }

  /** An end before its start is the one thing a header can print that is not a range. */
  predicate Ordered(r: Requested) {
    r.From? && r.end.Some? ==> r.start <= r.end.value
  }

  lemma DigitsAreTrimmed(s: string)
    requires AllDigits(s)
    ensures Trim(s) == s
  {
  }

  /** Digits around a dash read as what the two numbers say. */
  lemma DigitsRead(x: string, y: string)
    requires AllDigits(x) && AllDigits(y)
    ensures RequestedRange(Some(UNIT + x + "-" + y)) == Interpret(x, y)
  {
    hide RequestedRange, Interpret;
    DigitsAreTrimmed(x);
    DigitsAreTrimmed(y);
    assert [] + UNIT == UNIT;
    ReadsAroundDash([], x, y);
  }

  lemma PrintThenParse(r: Requested)
    ensures RequestedRange(Some(PrintRange(r))) == if Ordered(r) then Some(r) else None
  {
    hide RequestedRange, ParseU64, Print;
    match r
    case From(s, end) =>
      ParsePrint(s);
      if end.Some? {
        ParsePrint(end.value);
      }
      DigitsRead(Print(s), PrintEnd(end));
    case Suffix(n) =>
      ParsePrint(n);
      DigitsRead([], Print(n));
      assert UNIT + [] == UNIT;
  }

  ghost predicate SpacesAndTabs(s: string) {
    forall i :: 0 <= i < |s| ==> s[i] == ' ' || s[i] == '\t'
  }

  /** The three forms, spelled out, with any blanks before the unit and around the two numbers. */
  lemma HeaderForms(a: string, b: string, c: string, d: string, e: string, start: U64, n: U64)
    requires SpacesAndTabs(a) && SpacesAndTabs(b) && SpacesAndTabs(c) && SpacesAndTabs(d) && SpacesAndTabs(e)
    ensures RequestedRange(Some(a + "bytes=" + (b + Print(start) + c) + "-" + (d + Print(n) + e))) ==
            if start <= n then Some(From(start, Some(n))) else None
    ensures RequestedRange(Some(a + "bytes=" + (b + Print(start) + c) + "-" + d)) == Some(From(start, None))
    ensures RequestedRange(Some(a + "bytes=" + b + "-" + (d + Print(n) + e))) == Some(Suffix(n))
    ensures RequestedRange(None) == None
  {
    hide RequestedRange, ParseU64, Print, Trim;
    ParsePrint(start);
    ParsePrint(n);
    PaddedDigits(b, Print(start), c);
    PaddedDigits(d, Print(n), e);
    NoDigits(b);
    NoDigits(d);
    ReadsAroundDash(a, b + Print(start) + c, d + Print(n) + e);
    ReadsAroundDash(a, b + Print(start) + c, d);
    ReadsAroundDash(a, b, d + Print(n) + e);
    NoHeader();
  }

  lemma NoHeader()
    ensures RequestedRange(None) == None
  {
  }

  lemma PaddedDigits(p: string, digits: string, q: string)
    requires SpacesAndTabs(p) && SpacesAndTabs(q) && AllDigits(digits)
    ensures Trim(p + digits + q) == digits && Plain(p + digits + q)
  {
    TrimPad(p, digits, q);
    DigitsAreTrimmed(digits);
  }

  lemma NoDigits(p: string)
    requires SpacesAndTabs(p)
    ensures Trim(p) == [] && Plain(p)
  {
    TrimPad(p, [], []);
    assert p + [] + [] == p;
  }

  lemma ParsedIsOrdered(header: Option<string>)
    ensures RequestedRange(header).Some? ==> Ordered(RequestedRange(header).value)
  {
  }

  // ---------------------------------------------------------------------------------------------
  // Resolving against a length
  // ---------------------------------------------------------------------------------------------

  function Min(a: int, b: int): int {
    if a < b then a else b
  }

  function Resolve(r: Requested, length: U64): Option<(U64, U64)> {
    if length == 0 then None
    else
      var last := length - 1;
      match r
      case From(start, end) =>
        if start <= last then Some((start, Min(if end.None? then last else end.value, last))) else None
      case Suffix(suffix) =>
        if suffix > 0 then Some((if length < suffix then 0 else length - suffix, last)) else None
  }

  /** Satisfiability as section 14.1.2 of RFC 9110 defines it. */
  predicate Satisfiable(r: Requested, length: U64) {
    match r
    case From(start, _) => start < length
    case Suffix(suffix) => suffix > 0
  }

  /** Whether byte `i` of a representation of `length` bytes is one the range asks for. */
  predicate Asks(r: Requested, length: U64, i: int) {
    0 <= i < length &&
    match r
    case From(start, end) => start <= i && (end.Some? ==> i <= end.value)
    case Suffix(suffix) => length - suffix <= i
  }

  /** On a non-empty blob a range resolves iff it is satisfiable, to exactly the bytes it asks for. */
  lemma ResolvesToWhatIsAsked(r: Requested, length: U64)
    requires Ordered(r)
    ensures Resolve(r, length).Some? <==> length > 0 && Satisfiable(r, length)
    ensures Resolve(r, length).Some? <==> exists i :: Asks(r, length, i)
    ensures Resolve(r, length).Some? ==>
              var (s, e) := Resolve(r, length).value;
              s <= e < length && e - s + 1 < TWO_64 && forall i :: Asks(r, length, i) <==> s <= i <= e
  {
    if Resolve(r, length).Some? {
      var (s, e) := Resolve(r, length).value;
      assert Asks(r, length, s);
    }
  }

  /** The only departure from the standard: a suffix of an empty blob, which it calls satisfiable. */
  lemma EmptyBlobSuffix(r: Requested, length: U64)
    requires Ordered(r)
    ensures (Resolve(r, length).Some? <==> Satisfiable(r, length)) <==> !(length == 0 && r.Suffix? && r.length > 0)
  {
    ResolvesToWhatIsAsked(r, length);
  }

  // ---------------------------------------------------------------------------------------------
  // Stored blobs
  // ---------------------------------------------------------------------------------------------

  type Bytes = seq<bv8>

  /** One row of the blob table; the length is a recorded signed word. */
  datatype Row = Row(mime: string, byteLen: int, bytes: Bytes)

  datatype BlobRange = BlobRange(bytes: Bytes, mime: string, byteLen: U64)

  datatype BlobError = MimeConflict(existing: string, requested: string) | Malformed | Backend

  ghost predicate Sound(row: Row) {
    row.byteLen == |row.bytes| <= I64_MAX
  }

  /** At most `len` bytes from `start`; a window the row does not hold fails the exact read. */
  function Window(row: Row, start: U64, len: U64): (r: Result<BlobRange, BlobError>)
    requires row.byteLen < TWO_63
    ensures Sound(row) ==> r.Ok? && r.value.byteLen == |row.bytes| && r.value.mime == row.mime
    ensures Sound(row) && start <= |row.bytes| ==> r.value.bytes == row.bytes[start..Min(start + len, |row.bytes|)]
    ensures Sound(row) && start >= |row.bytes| ==> r.value.bytes == []
  {
    if row.byteLen < 0 then Err(Malformed)
    else
      var available := if row.byteLen < start then 0 else row.byteLen - start;
      var window := Min(len, available);
      if window == 0 then Ok(BlobRange([], row.mime, row.byteLen))
      else if start + window > |row.bytes| then Err(Backend)
      else Ok(BlobRange(row.bytes[start..start + window], row.mime, row.byteLen))
  }

  /** The blob table, keyed by content address; `address` and `mediaType` stand for the hash and the type parser. */
  class BlobStore {
    const address: Bytes -> string
    const mediaType: string -> string
    var rows: map<string, Row>

    ghost predicate Valid()
      reads this
    {
      forall h <- rows :: Sound(rows[h]) && address(rows[h].bytes) == h
    }

    constructor (address: Bytes -> string, mediaType: string -> string)
      ensures Valid() && rows == map[] && this.address == address && this.mediaType == mediaType
    {
      this.address, this.mediaType, rows := address, mediaType, map[];
    }

    /** A stored row is never changed: the same content goes in once, under one media type. */
    method Put(bytes: Bytes, mime: string) returns (r: Result<string, BlobError>)
      requires Valid() && |bytes| <= I64_MAX
      modifies this`rows
      ensures Valid()
      ensures r.Err? <==> address(bytes) in old(rows) && mediaType(old(rows)[address(bytes)].mime) != mediaType(mime)
      ensures r.Err? ==> rows == old(rows) && r.error == MimeConflict(old(rows)[address(bytes)].mime, mime)
      ensures r.Ok? ==> r.value == address(bytes) && r.value in rows && mediaType(rows[r.value].mime) == mediaType(mime)
      ensures forall h <- old(rows) :: h in rows && rows[h] == old(rows)[h]
      ensures rows.Keys <= old(rows).Keys + {address(bytes)}
      ensures r.Ok? && r.value !in old(rows) ==> rows[r.value] == Row(mime, |bytes|, bytes)
    {
      var hash := address(bytes);
      if hash in rows {
        if mediaType(rows[hash].mime) != mediaType(mime) {
          return Err(MimeConflict(rows[hash].mime, mime));
        }
        return Ok(hash);
      }
      rows := rows[hash := Row(mime, |bytes|, bytes)];
      return Ok(hash);
    }

    method GetRange(hash: string, start: U64, len: U64) returns (r: Result<Option<BlobRange>, BlobError>)
      requires Valid()
      ensures r.Ok? && (r.value.Some? <==> hash in rows)
      ensures r.value.Some? ==> r.value.value.byteLen == |rows[hash].bytes| && r.value.value.mime == rows[hash].mime
      ensures r.value.Some? && start < |rows[hash].bytes| ==>
                r.value.value.bytes == rows[hash].bytes[start..Min(start + len, |rows[hash].bytes|)]
      ensures r.value.Some? && start >= |rows[hash].bytes| ==> r.value.value.bytes == []
    {
      if hash !in rows {
        return Ok(None);
      }
      var window := Window(rows[hash], start, len);
      match window
      case Err(error) => return Err(error);
      case Ok(range) => return Ok(Some(range));
    }

    method Remove(hash: string) returns (removed: bool)
      requires Valid()
      modifies this`rows
      ensures Valid() && rows == old(rows) - {hash}
      ensures removed <==> hash in old(rows)
    {
      removed := hash in rows;
      rows := rows - {hash};
    }

    /** `GET /blobs/{hash}`: the whole blob, or the window its header asks for. */
    method Serve(hash: string, header: Option<string>) returns (r: Response)
      requires Valid()
      ensures r == if hash in rows then Answer(rows[hash], header) else NotFound
      ensures hash in rows ==> Answers(rows[hash].bytes, RequestedRange(header), r)
    {
      hide RequestedRange, Answers;
      var requested := RequestedRange(header);
      if hash !in rows {
        return NotFound;
      }
      AnswerAnswers(rows[hash], header);
      if requested.None? {
        return Whole(rows[hash].bytes);
      }
      var resolved := Resolve(requested.value, rows[hash].byteLen);
      if resolved.None? {
        return Unsatisfiable(rows[hash].byteLen);
      }
      var (start, end) := resolved.value;
      ParsedIsOrdered(header);
      ResolvesToWhatIsAsked(requested.value, rows[hash].byteLen);
      var range := GetRange(hash, start, end - start + 1);
      return Partial(start, end, range.value.value.byteLen, range.value.value.bytes);
    }
  }

  datatype Response =
    | Whole(bytes: Bytes)
    | Partial(start: U64, end: U64, total: U64, bytes: Bytes)
    | Unsatisfiable(total: U64)
    | NotFound

  /** What a request is answered with, as the standard describes it: the positions asked for, in order. */
  function Answer(row: Row, header: Option<string>): (r: Response)
    requires Sound(row)
    ensures RequestedRange(header).None? <==> r.Whole?
    ensures r.Whole? ==> r.bytes == row.bytes
    ensures r.Unsatisfiable? ==> r.total == |row.bytes|
    ensures r.Partial? ==> r.start <= r.end < r.total == |row.bytes| && r.bytes == row.bytes[r.start..r.end + 1]
    ensures r.Partial? || r.Unsatisfiable? ==>
              forall i :: Asks(RequestedRange(header).value, |row.bytes|, i) <==> r.Partial? && r.start <= i <= r.end
  {
    match RequestedRange(header)
    case None => Whole(row.bytes)
    case Some(requested) =>
      ParsedIsOrdered(header);
      ResolvesToWhatIsAsked(requested, |row.bytes|);
      match Resolve(requested, |row.bytes|)
      case None => Unsatisfiable(|row.bytes|)
      case Some((start, end)) => Partial(start, end, |row.bytes|, row.bytes[start..end + 1])
  }

  /** The response, form by form: which positions of `bytes` it carries and what it says of them. */
  ghost predicate Answers(bytes: Bytes, requested: Option<Requested>, r: Response)
    requires |bytes| <= I64_MAX
  {
    match requested
    case None => r == Whole(bytes)
    case Some(From(s, None)) =>
      if s < |bytes| then r == Partial(s, |bytes| - 1, |bytes|, bytes[s..]) else r == Unsatisfiable(|bytes|)
    case Some(From(s, Some(e))) =>
      if s >= |bytes| then r == Unsatisfiable(|bytes|)
      else if e < |bytes| then s <= e && r == Partial(s, e, |bytes|, bytes[s..e + 1])
      else r == Partial(s, |bytes| - 1, |bytes|, bytes[s..])
    case Some(Suffix(n)) =>
      if n == 0 || bytes == [] then r == Unsatisfiable(|bytes|)
      else if n < |bytes| then r == Partial(|bytes| - n, |bytes| - 1, |bytes|, bytes[|bytes| - n..])
      else r == Partial(0, |bytes| - 1, |bytes|, bytes)
  }

  lemma AnswerAnswers(row: Row, header: Option<string>)
    requires Sound(row)
    ensures Answers(row.bytes, RequestedRange(header), Answer(row, header))
  {
    ParsedIsOrdered(header);
    hide RequestedRange;
  }

  // ---------------------------------------------------------------------------------------------
  // Reassembly
  // ---------------------------------------------------------------------------------------------

  function BodyOf(r: Response): Bytes {
    match r
    case Whole(bytes) => bytes
    case Partial(_, _, _, bytes) => bytes
    case _ => []
  }

  /** The body of the answer to a request for bytes `from` up to, not including, `to`. */
  ghost function Piece(row: Row, from: nat, to: nat): Bytes
    requires Sound(row) && from < to <= |row.bytes|
  {
    BodyOf(Answer(row, Some(PrintRange(From(from, Some(to - 1))))))
  }

  /** Such a request is answered as a partial response with exactly those bytes. */
  lemma PieceIsServed(row: Row, from: nat, to: nat)
    requires Sound(row) && from < to <= |row.bytes|
    ensures Answer(row, Some(PrintRange(From(from, Some(to - 1))))) ==
            Partial(from, to - 1, |row.bytes|, row.bytes[from..to])
    ensures Piece(row, from, to) == row.bytes[from..to]
  {
    hide RequestedRange, PrintRange;
    PrintThenParse(From(from, Some(to - 1)));
  }

  ghost predicate Cuts(row: Row, cuts: seq<nat>) {
    && |cuts| > 0
    && (forall i :: 0 <= i < |cuts| ==> cuts[i] <= |row.bytes|)
    && (forall i, j :: 0 <= i < j < |cuts| ==> cuts[i] < cuts[j])
  }

  /** The bodies of the requests for the pieces between consecutive cuts, joined. */
  ghost function Reassembled(row: Row, cuts: seq<nat>): Bytes
    requires Sound(row) && Cuts(row, cuts)
    decreases |cuts|
  {
    if |cuts| == 1 then []
    else Piece(row, cuts[0], cuts[1]) + Reassembled(row, cuts[1..])
  }

  /** Requests that tile a blob, at any cuts, give it back whole. */
  lemma {:induction false} TilesReassemble(row: Row, cuts: seq<nat>)
    requires Sound(row) && Cuts(row, cuts)
    ensures cuts[0] <= cuts[|cuts| - 1] && Reassembled(row, cuts) == row.bytes[cuts[0]..cuts[|cuts| - 1]]
    decreases |cuts|
  {
    hide Reassembled;
    NoTiles(row, cuts);
    if |cuts| > 1 {
      CutsTail(row, cuts);
      FirstTile(row, cuts);
      TilesReassemble(row, cuts[1..]);
      assert cuts[1..][|cuts| - 2] == cuts[|cuts| - 1];
      SliceJoin(row.bytes, cuts[0], cuts[1], cuts[|cuts| - 1]);
    }
  }

  lemma CutsTail(row: Row, cuts: seq<nat>)
    requires Cuts(row, cuts) && |cuts| > 1
    ensures Cuts(row, cuts[1..])
  {
  }

  lemma NoTiles(row: Row, cuts: seq<nat>)
    requires Sound(row) && Cuts(row, cuts)
    ensures |cuts| == 1 ==> Reassembled(row, cuts) == []
  {
  }

  lemma FirstTile(row: Row, cuts: seq<nat>)
    requires Sound(row) && Cuts(row, cuts) && |cuts| > 1 && Cuts(row, cuts[1..])
    ensures Reassembled(row, cuts) == row.bytes[cuts[0]..cuts[1]] + Reassembled(row, cuts[1..])
  {
    hide Piece;
    PieceIsServed(row, cuts[0], cuts[1]);
  }

  lemma SliceJoin<T>(s: seq<T>, a: nat, b: nat, c: nat)
    requires a <= b <= c <= |s|
    ensures s[a..b] + s[b..c] == s[a..c]
  {
  }
}
