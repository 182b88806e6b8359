/**
 * The datagram-routing profile: route tables as parameters, the numbering both peers derive from them,
 * and the coalescing of sends to one route.
 */
module Routing {
  import opened Bytes
  import Utf8

  const MAX_ROUTE_BYTES := 255

  predicate Alphanumeric(c: byte) { 48 <= c <= 57 || 65 <= c <= 90 || 97 <= c <= 122 }

  /** The route pattern: a letter or digit, then letters, digits and "._/-". */
  predicate RouteOk(r: bytes) {
    && 0 < |r| <= MAX_ROUTE_BYTES
    && Alphanumeric(r[0])
    && forall i :: 0 <= i < |r| ==> Alphanumeric(r[i]) || r[i] in {45, 46, 47, 95}
  }

  // ---------------------------------------------------------------- order

  /** Routes are ASCII, so the default sort order is the order of their bytes. */
  predicate Less(a: bytes, b: bytes)
    decreases |a|
  {
    b != [] && (a == [] || a[0] < b[0] || (a[0] == b[0] && Less(a[1..], b[1..])))
  }

  lemma {:induction false} LessTotal(a: bytes, b: bytes)
    ensures !Less(a, a)
    ensures a != b ==> (Less(a, b) <==> !Less(b, a))
    decreases |a|
  {
    if a != [] {
      LessTotal(a[1..], a[1..]);
      if b != [] {
        LessTotal(a[1..], b[1..]);
        assert a == [a[0]] + a[1..] && b == [b[0]] + b[1..];
      }
    }
  }

  lemma {:induction false} LessTrans(a: bytes, b: bytes, c: bytes)
    requires Less(a, b) && Less(b, c)
    ensures Less(a, c)
    decreases |a|
  {
    if a != [] && a[0] == b[0] && b[0] == c[0] {
      LessTrans(a[1..], b[1..], c[1..]);
    }
  }

  /** The order of words: at the first place where they differ, or the one that ends there comes first. */
  lemma {:induction false} LessIff(a: bytes, b: bytes)
    ensures Less(a, b) <==> exists n :: DifferAt(a, b, n)
    decreases |a|
  {
    if DifferAt(a, b, 0) {
      assert Less(a, b);
    } else if a != [] && b != [] && a[0] == b[0] {
      LessIff(a[1..], b[1..]);
      if exists n: nat :: DifferAt(a[1..], b[1..], n) {
        var n: nat :| DifferAt(a[1..], b[1..], n);
        assert a[..n + 1] == [a[0]] + a[1..][..n] && b[..n + 1] == [b[0]] + b[1..][..n];
        assert DifferAt(a, b, n + 1);
      }
      if exists n: nat :: DifferAt(a, b, n) {
        var n: nat :| DifferAt(a, b, n);
        assert n > 0;
        assert a[1..][..n - 1] == a[..n][1..] && b[1..][..n - 1] == b[..n][1..];
        assert DifferAt(a[1..], b[1..], n - 1);
      }
    }
  }

  predicate DifferAt(a: bytes, b: bytes, n: nat) {
    && n <= |a| && n < |b| && a[..n] == b[..n]
    && (n == |a| || a[n] < b[n])
  }

  predicate Ascending(rs: seq<bytes>) {
    forall i, j :: 0 <= i < j < |rs| ==> Less(rs[i], rs[j])
  }

  function Members(rs: seq<bytes>): set<bytes> { set r | r in rs }

  function Insert(r: bytes, rs: seq<bytes>): seq<bytes>
    decreases |rs|
  {
    if rs == [] then [r] else if Less(r, rs[0]) then [r] + rs else [rs[0]] + Insert(r, rs[1..])
  }

  function Sorted(rs: seq<bytes>): seq<bytes>
    decreases |rs|
  {
    if rs == [] then [] else Insert(rs[0], Sorted(rs[1..]))
  }

  lemma {:induction false} InsertSorts(r: bytes, rs: seq<bytes>)
    requires Ascending(rs) && r !in rs
    ensures Ascending(Insert(r, rs)) && Members(Insert(r, rs)) == Members(rs) + {r} && |Insert(r, rs)| == |rs| + 1
    decreases |rs|
  {
    if rs != [] {
      LessTotal(r, rs[0]);
      if Less(r, rs[0]) {
        forall i | 0 <= i < |rs|
          ensures Less(r, rs[i])
        {
          if i > 0 { LessTrans(r, rs[0], rs[i]); }
        }
      } else {
        var rest := rs[1..];
        assert rs == [rs[0]] + rest;
        InsertSorts(r, rest);
        var out := Insert(r, rest);
        forall i | 0 <= i < |out|
          ensures Less(rs[0], out[i])
        {
          assert out[i] in Members(out);
        }
        forall x
          ensures x in [rs[0]] + out <==> x in rs || x == r
        {
          assert x in Members(out) <==> x in out;
          assert x in Members(rest) <==> x in rest;
        }
      }
    }
  }

  predicate Unique(rs: seq<bytes>) { forall i, j :: 0 <= i < j < |rs| ==> rs[i] != rs[j] }

  lemma {:induction false} SortedSorts(rs: seq<bytes>)
    requires Unique(rs)
    ensures Ascending(Sorted(rs)) && Members(Sorted(rs)) == Members(rs) && |Sorted(rs)| == |rs|
    decreases |rs|
  {
    if rs != [] {
      SortedSorts(rs[1..]);
      assert rs == [rs[0]] + rs[1..];
      assert rs[0] !in Members(rs[1..]);
      assert rs[0] !in Sorted(rs[1..]) by {
        assert rs[0] !in Members(Sorted(rs[1..]));
      }
      InsertSorts(rs[0], Sorted(rs[1..]));
    }
  }

  /** An ascending list is determined by its members. */
  lemma {:induction false} AscendingUnique(a: seq<bytes>, b: seq<bytes>)
    requires Ascending(a) && Ascending(b) && Members(a) == Members(b)
    ensures a == b
    decreases |a|
  {
    if a == [] {
      NoMembers(a);
      NoMembers(b);
    } else {
      assert a[0] in Members(a) && a[0] in Members(b);
      assert b != [];
      assert b[0] in Members(b) && b[0] in Members(a);
      SameHead(a, b);
      var ra, rb := a[1..], b[1..];
      TailMembers(a);
      TailMembers(b);
      AscendingUnique(ra, rb);
      assert a == [a[0]] + ra && b == [b[0]] + rb;
    }
  }

  lemma NoMembers(rs: seq<bytes>)
    ensures Members(rs) == {} <==> rs == []
  {
    if rs != [] {
      assert rs[0] in Members(rs);
    }
  }

  lemma SameHead(a: seq<bytes>, b: seq<bytes>)
    requires Ascending(a) && Ascending(b) && a != [] && b != [] && a[0] in b && b[0] in a
    ensures a[0] == b[0]
  {
    if a[0] != b[0] {
      var i :| 0 <= i < |b| && b[i] == a[0];
      var j :| 0 <= j < |a| && a[j] == b[0];
      LessTotal(a[0], b[0]);
    }
  }

  lemma TailMembers(a: seq<bytes>)
    requires Ascending(a) && a != []
    ensures Members(a[1..]) == Members(a) - {a[0]}
  {
    forall x
      ensures x in a[1..] <==> x in a && x != a[0]
    {
      if x in a[1..] {
        var i :| 0 <= i < |a[1..]| && a[1..][i] == x;
        assert a[i + 1] == x;
        LessTotal(a[0], x);
      }
    }
  }

  // ---------------------------------------------------------------- the route table on the wire

  predicate Acceptable(rs: seq<bytes>) {
    Unique(rs) && |rs| <= MAX_U16 && forall i :: 0 <= i < |rs| ==> RouteOk(rs[i])
  }

  /** `normalizeRoutes`; `None` is the refusal. */
  function Normalize(rs: seq<bytes>): Option<seq<bytes>> { if Acceptable(rs) then Some(Sorted(rs)) else None }

  function EncodeEntries(rs: seq<bytes>): bytes
    requires forall i :: 0 <= i < |rs| ==> RouteOk(rs[i])
    decreases |rs|
  {
    if rs == [] then []
    else
      assert RouteOk(rs[0]);
      var length: byte := |rs[0]|;
      [length] + rs[0] + EncodeEntries(rs[1..])
  }

  /** `encodeDatagramRoutes`. */
  function EncodeRoutes(rs: seq<bytes>): Option<bytes> {
    var normal := Normalize(rs);
    if normal.None? then None
    else
      SortedAcceptable(rs);
      Some(BigEndian(|normal.value|, 2) + EncodeEntries(normal.value))
  }

  lemma SortedAcceptable(rs: seq<bytes>)
    requires Acceptable(rs)
    ensures Acceptable(Sorted(rs)) && Ascending(Sorted(rs)) && |Sorted(rs)| == |rs|
  {
    SortedSorts(rs);
    var s := Sorted(rs);
    forall i, j | 0 <= i < j < |s|
      ensures s[i] != s[j]
    {
      LessTotal(s[i], s[j]);
    }
    forall i | 0 <= i < |s|
      ensures RouteOk(s[i])
    {
      assert s[i] in Members(s);
      assert s[i] in Members(rs);
    }
  }

  /** Exactly `count` entries, each without a leading byte order mark, and nothing after them. */
  function DecodeEntries(area: bytes, count: nat): Option<seq<bytes>>
    decreases count
  {
    if count == 0 then if area == [] then Some([]) else None
    else if area == [] then None
    else
      var length: nat := area[0];
      if length == 0 || 1 + length > |area| || !RouteOk(Utf8.StripBom(area[1..1 + length])) then None
      else
        var rest := DecodeEntries(area[1 + length..], count - 1);
        if rest.None? then None else Some([Utf8.StripBom(area[1..1 + length])] + rest.value)
  }

  /** `decodeDatagramRoutes`; invalid UTF-8 fails the route pattern too. */
  function DecodeRoutes(parameters: bytes): Option<seq<bytes>> {
    if |parameters| < 2 then None
    else
      var entries := DecodeEntries(parameters[2..], FromBigEndian(parameters[..2]));
      if entries.None? then None else Normalize(entries.value)
  }

  lemma {:induction false} EntriesRoundTrip(rs: seq<bytes>)
    requires forall i :: 0 <= i < |rs| ==> RouteOk(rs[i])
    ensures DecodeEntries(EncodeEntries(rs), |rs|) == Some(rs)
    decreases |rs|
  {
    if rs != [] {
      var r, rest := rs[0], rs[1..];
      var area := EncodeEntries(rs);
      var length: byte := |r|;
      assert area == [length] + r + EncodeEntries(rest);
      assert area[1..1 + |r|] == r && area[1 + |r|..] == EncodeEntries(rest);
      assert RouteOk(r) && !Utf8.HasBom(r);
      EntriesRoundTrip(rest);
      assert rs == [r] + rest;
    }
  }

  /** Entries as they may come: some of them with a byte order mark, which the strict text decoder drops. */
  function MarkedEntries(rs: seq<bytes>, marks: seq<bool>): Option<bytes>
    requires |rs| == |marks|
    decreases |rs|
  {
    if rs == [] then Some([])
    else
      var text := Marked(rs[0], marks[0]);
      var rest := MarkedEntries(rs[1..], marks[1..]);
      if |text| > MAX_ROUTE_BYTES || rest.None? then None else Some([|text|] + text + rest.value)
  }

  /** An area is taken for these routes if and only if it spells just these, in this order. */
  lemma {:induction false} EntriesIff(area: bytes, count: nat, rs: seq<bytes>)
    ensures DecodeEntries(area, count) == Some(rs) <==>
      && |rs| == count && (forall i :: 0 <= i < |rs| ==> RouteOk(rs[i]))
      && exists marks: seq<bool> :: |marks| == |rs| && MarkedEntries(rs, marks) == Some(area)
    decreases count
  {
    if count == 0 {
      assert rs == [] ==> MarkedEntries(rs, []) == Some([]);
    } else {
      if DecodeEntries(area, count) == Some(rs) {
        EntriesTaken(area, count, rs);
      }
      if |rs| == count && (forall i :: 0 <= i < |rs| ==> RouteOk(rs[i]))
         && exists marks: seq<bool> :: |marks| == |rs| && MarkedEntries(rs, marks) == Some(area)
      {
        var marks: seq<bool> :| |marks| == |rs| && MarkedEntries(rs, marks) == Some(area);
        MarkedTaken(area, rs, marks);
      }
    }
  }

  /** An entry with or without its mark. */
  function Marked(r: bytes, mark: bool): bytes { (if mark then Utf8.BOM else []) + r }

  lemma MarkedCons(r: bytes, mark: bool, rs: seq<bytes>, marks: seq<bool>)
    requires |rs| == |marks| && MarkedEntries(rs, marks).Some? && |Marked(r, mark)| <= MAX_ROUTE_BYTES
    ensures MarkedEntries([r] + rs, [mark] + marks)
         == Some([|Marked(r, mark)|] + Marked(r, mark) + MarkedEntries(rs, marks).value)
  {
    assert ([r] + rs)[1..] == rs && ([mark] + marks)[1..] == marks;
  }

  lemma DecodeCons(text: bytes, tail: bytes, count: nat)
    requires 0 < |text| <= MAX_ROUTE_BYTES && RouteOk(Utf8.StripBom(text)) && DecodeEntries(tail, count).Some?
    ensures DecodeEntries([|text|] + text + tail, count + 1)
         == Some([Utf8.StripBom(text)] + DecodeEntries(tail, count).value)
  {
    hide RouteOk, Utf8.StripBom;
    var area := [|text|] + text + tail;
    assert area[1..1 + |text|] == text && area[1 + |text|..] == tail;
  }

  lemma FirstEntry(area: bytes, count: nat, rs: seq<bytes>)
    requires count > 0 && DecodeEntries(area, count) == Some(rs)
    ensures area != [] && rs != [] && 1 + area[0] <= |area|
    ensures RouteOk(rs[0]) && rs[0] == Utf8.StripBom(area[1..1 + area[0]])
    ensures DecodeEntries(area[1 + area[0]..], count - 1) == Some(rs[1..])
  {
    hide RouteOk, Utf8.StripBom;
  }

  lemma MarksTaken(area: bytes, rs: seq<bytes>, marks: seq<bool>)
    requires area != [] && rs != [] && 1 + area[0] <= |area| && |marks| == |rs| - 1
    requires rs[0] == Utf8.StripBom(area[1..1 + area[0]])
    requires MarkedEntries(rs[1..], marks) == Some(area[1 + area[0]..])
    ensures MarkedEntries(rs, [Utf8.HasBom(area[1..1 + area[0]])] + marks) == Some(area)
  {
    hide Utf8.HasBom, Utf8.StripBom, MarkedEntries, Marked;
    var text := area[1..1 + area[0]];
    Unmarked(text);
    EntrySplit(area, area[0]);
    MarkedCons(rs[0], Utf8.HasBom(text), rs[1..], marks);
    SplitFirst(rs);
  }

  lemma {:induction false} EntriesTaken(area: bytes, count: nat, rs: seq<bytes>)
    requires DecodeEntries(area, count) == Some(rs)
    ensures |rs| == count && (forall i :: 0 <= i < |rs| ==> RouteOk(rs[i]))
    ensures exists marks: seq<bool> :: |marks| == |rs| && MarkedEntries(rs, marks) == Some(area)
    decreases count
  {
    hide DecodeEntries, RouteOk, Utf8.HasBom, Utf8.StripBom, MarkedEntries, Marked;
    if count == 0 {
      NoneTaken(area, rs);
    } else {
      FirstEntry(area, count, rs);
      var tail := area[1 + area[0]..];
      EntriesTaken(tail, count - 1, rs[1..]);
      var marks: seq<bool> :| |marks| == |rs[1..]| && MarkedEntries(rs[1..], marks) == Some(tail);
      MarksTaken(area, rs, marks);
      forall i | 0 <= i < |rs|
        ensures RouteOk(rs[i])
      {
        assert i > 0 ==> rs[i] == rs[1..][i - 1];
      }
    }
  }

  lemma NoneTaken(area: bytes, rs: seq<bytes>)
    requires DecodeEntries(area, 0) == Some(rs)
    ensures rs == [] && MarkedEntries(rs, []) == Some(area)
  {
  }

  lemma SplitFirst(rs: seq<bytes>)
    requires rs != []
    ensures [rs[0]] + rs[1..] == rs
  {
  }

  lemma Unmarked(text: bytes)
    ensures text == Marked(Utf8.StripBom(text), Utf8.HasBom(text))
  {
  }

  lemma EntrySplit(area: bytes, length: byte)
    requires 1 + length <= |area| && area[0] == length
    ensures area == [length] + area[1..1 + length] + area[1 + length..]
  {
  }

  lemma {:induction false} MarkedTaken(area: bytes, rs: seq<bytes>, marks: seq<bool>)
    requires |marks| == |rs| && MarkedEntries(rs, marks) == Some(area)
    requires forall i :: 0 <= i < |rs| ==> RouteOk(rs[i])
    ensures DecodeEntries(area, |rs|) == Some(rs)
    decreases |rs|
  {
    hide RouteOk, DecodeEntries, Marked;
    if rs == [] {
      NoEntries();
    } else {
      var text := Marked(rs[0], marks[0]);
      var tail := MarkedEntries(rs[1..], marks[1..]).value;
      MarkedTaken(tail, rs[1..], marks[1..]);
      OneMark(rs[0], marks[0]);
      DecodeCons(text, tail, |rs| - 1);
      SplitFirst(rs);
    }
  }

  lemma NoEntries()
    ensures DecodeEntries([], 0) == Some([])
  {
  }

  lemma OneMark(r: bytes, mark: bool)
    requires RouteOk(r)
    ensures Utf8.StripBom(Marked(r, mark)) == r && Marked(r, mark) != []
  {
    assert !Utf8.HasBom(r);
    assert mark ==> Marked(r, mark)[3..] == r;
  }

  /** Sorting what is sorted changes nothing. */
  lemma SortedStable(rs: seq<bytes>)
    requires Unique(rs) && Ascending(rs)
    ensures Sorted(rs) == rs
  {
    SortedSorts(rs);
    AscendingUnique(Sorted(rs), rs);
  }

  /** A route table survives the wire as its sorted form. */
  lemma RoutesRoundTrip(rs: seq<bytes>)
    requires Acceptable(rs)
    ensures EncodeRoutes(rs).Some? && DecodeRoutes(EncodeRoutes(rs).value) == Some(Sorted(rs))
  {
    var s := Sorted(rs);
    SortedAcceptable(rs);
    Pow256Values();
    BigEndianRoundTrip(|s|, 2);
    EntriesRoundTrip(s);
    SortedStable(s);
    var parameters := EncodeRoutes(rs).value;
    assert parameters[..2] == BigEndian(|s|, 2) && parameters[2..] == EncodeEntries(s);
  }

  // ---------------------------------------------------------------- numbering

  function Keep(rs: seq<bytes>, others: set<bytes>): seq<bytes>
    decreases |rs|
  {
    if rs == [] then [] else (if rs[0] in others then [rs[0]] else []) + Keep(rs[1..], others)
  }

  /** The common routes, in the order that gives them their numbers 1, 2, ... */
  function Table(local: seq<bytes>, remote: seq<bytes>): seq<bytes> { Sorted(Keep(local, Members(remote))) }

  lemma {:induction false} KeepMeans(rs: seq<bytes>, others: set<bytes>)
    requires Unique(rs)
    ensures Unique(Keep(rs, others)) && Members(Keep(rs, others)) == Members(rs) * others
    decreases |rs|
  {
    if rs != [] {
      var rest := rs[1..];
      assert forall i :: 0 <= i < |rest| ==> rest[i] == rs[i + 1];
      KeepMeans(rest, others);
      assert rs == [rs[0]] + rest;
      assert rs[0] !in Members(rest);
      assert rs[0] !in Members(Keep(rest, others));
      var k := Keep(rest, others);
      forall x
        ensures x in Keep(rs, others) <==> x in rs && x in others
      {
        assert x in k <==> x in Members(k);
        assert x in rest <==> x in Members(rest);
      }
      if rs[0] in others {
        var all := [rs[0]] + k;
        forall i: nat, j: nat | i < j < |all|
          ensures all[i] != all[j]
        {
          assert k[j - 1] in Members(k);
        }
      }
    }
  }

  /** The number of a route, counted from 1; 0 when it is not common. */
  function IdOf(table: seq<bytes>, route: bytes): (id: nat)
    ensures id <= |table|
    ensures id > 0 ==> table[id - 1] == route
    decreases |table|
  {
    if table == [] then 0
    else if table[|table| - 1] == route then |table|
    else IdOf(table[..|table| - 1], route)
  }

  lemma TableFacts(a: seq<bytes>, b: seq<bytes>)
    requires Unique(a) && Unique(b)
    ensures Ascending(Table(a, b)) && Members(Table(a, b)) == Members(a) * Members(b)
  {
    KeepMeans(a, Members(b));
    SortedSorts(Keep(a, Members(b)));
  }

  /** In an ascending table a route has a number exactly when it is there. */
  lemma Numbering(table: seq<bytes>, route: bytes)
    requires Ascending(table)
    ensures route in table <==> 1 <= IdOf(table, route) <= |table|
  {
    if IdOf(table, route) > 0 {
      assert table[IdOf(table, route) - 1] == route;
    }
    if route in table {
      var i :| 0 <= i < |table| && table[i] == route;
      FoundAt(table, i);
    }
  }

  /**
   * Both peers derive the same numbering from the common routes, whichever side they look from, and it is
   * one to one: each common route has one number in 1..n, and each number in 1..n its route.
   */
  lemma TablesAgree(a: seq<bytes>, b: seq<bytes>)
    requires Unique(a) && Unique(b)
    ensures Table(a, b) == Table(b, a)
    ensures forall i :: 0 <= i < |Table(a, b)| ==> IdOf(Table(a, b), Table(a, b)[i]) == i + 1
    ensures forall route :: (route in a && route in b) <==> 1 <= IdOf(Table(a, b), route) <= |Table(a, b)|
  {
    TableFacts(a, b);
    TableFacts(b, a);
    var table := Table(a, b);
    hide Table, IdOf, Ascending, Unique;
    AscendingUnique(table, Table(b, a));
    forall i | 0 <= i < |table|
      ensures IdOf(table, table[i]) == i + 1
    {
      FoundAt(table, i);
    }
    forall route
      ensures (route in a && route in b) <==> 1 <= IdOf(table, route) <= |table|
    {
      assert route in Members(table) <==> route in Members(a) && route in Members(b);
      Numbering(table, route);
    }
  }

  lemma {:induction false} FoundAt(table: seq<bytes>, i: nat)
    requires Ascending(table) && i < |table|
    ensures IdOf(table, table[i]) == i + 1
    decreases |table|
  {
    if i < |table| - 1 {
      LessTotal(table[i], table[|table| - 1]);
      FoundAt(table[..|table| - 1], i);
    }
  }

  // ---------------------------------------------------------------- the loops

  function EntriesSize(rs: seq<bytes>): nat
    decreases |rs|
  {
    if rs == [] then 0 else 1 + |rs[0]| + EntriesSize(rs[1..])
  }

  lemma {:induction false} EntriesAppend(rs: seq<bytes>, last: bytes)
    requires (forall i :: 0 <= i < |rs| ==> RouteOk(rs[i])) && RouteOk(last)
    ensures var length: byte := |last|;
      EncodeEntries(rs + [last]) == EncodeEntries(rs) + ([length] + last)
    decreases |rs|
  {
    if rs == [] {
      assert [] + [last] == [last] && [last][1..] == [];
    } else {
      assert (rs + [last])[0] == rs[0] && (rs + [last])[1..] == rs[1..] + [last];
      EntriesAppend(rs[1..], last);
    }
  }

  /** The entries written one after another at a moving offset; here a growing buffer. */
  method WriteEntries(rs: seq<bytes>) returns (output: bytes)
    requires forall i :: 0 <= i < |rs| ==> RouteOk(rs[i])
    ensures output == EncodeEntries(rs)
  {
    output := [];
    var k := 0;
    while k < |rs|
      invariant 0 <= k <= |rs| && output == EncodeEntries(rs[..k])
    {
      EntriesAppend(rs[..k], rs[k]);
      assert rs[..k + 1] == rs[..k] + [rs[k]];
      var length: byte := |rs[k]|;
      output := output + ([length] + rs[k]);
      k := k + 1;
    }
    assert rs[..k] == rs;
  }

  function After(routes: seq<bytes>, rest: Option<seq<bytes>>): Option<seq<bytes>> {
    if rest.None? then None else Some(routes + rest.value)
  }

  lemma TakeEntry(routes: seq<bytes>, area: bytes, count: nat)
    requires count > 0
    ensures area == [] ==> DecodeEntries(area, count).None?
    ensures area != [] ==>
      (var length: nat := area[0];
      if length == 0 || 1 + length > |area| || !RouteOk(Utf8.StripBom(area[1..1 + length])) then DecodeEntries(area, count).None?
      else
        After(routes, DecodeEntries(area, count))
          == After(routes + [Utf8.StripBom(area[1..1 + length])], DecodeEntries(area[1 + length..], count - 1)))
  {
    hide RouteOk, Utf8.StripBom;
    var length: nat := if area == [] then 0 else area[0];
    if 0 < length && 1 + length <= |area| && RouteOk(Utf8.StripBom(area[1..1 + length])) {
      var route, rest := Utf8.StripBom(area[1..1 + length]), DecodeEntries(area[1 + length..], count - 1);
      if rest.Some? {
        assert routes + ([route] + rest.value) == routes + [route] + rest.value;
      }
    }
  }

  lemma NoEntriesLeft(routes: seq<bytes>, area: bytes)
    ensures After(routes, DecodeEntries(area, 0)) == if area == [] then Some(routes) else None
  {
    assert routes + [] == routes;
  }

  lemma NothingTaken(rest: Option<seq<bytes>>)
    ensures After([], rest) == rest
  {
    assert rest.Some? ==> [] + rest.value == rest.value;
  }

  /** The decoding loop: `count` entries at a moving offset, then the end. */
  method ReadEntries(parameters: bytes, count: nat) returns (r: Option<seq<bytes>>)
    requires |parameters| >= 2
    ensures r == DecodeEntries(parameters[2..], count)
  {
    var routes: seq<bytes> := [];
    var offset, index := 2, 0;
    hide DecodeEntries, RouteOk, Utf8.StripBom;
    NothingTaken(DecodeEntries(parameters[2..], count));
    while index < count
      invariant 0 <= index <= count && 2 <= offset <= |parameters|
      invariant DecodeEntries(parameters[2..], count)
             == After(routes, DecodeEntries(parameters[offset..], count - index))
    {
      TakeEntry(routes, parameters[offset..], count - index);
      if offset >= |parameters| {
        return None;
      }
      var length: nat := parameters[offset];
      if length == 0 || offset + 1 + length > |parameters| {
        return None;
      }
      var route := Utf8.StripBom(parameters[offset + 1..offset + 1 + length]);
      assert parameters[offset + 1..offset + 1 + length] == parameters[offset..][1..1 + length];
      if !RouteOk(route) {
        return None;
      }
      assert parameters[offset..][1 + length..] == parameters[offset + 1 + length..];
      offset, index := offset + 1 + length, index + 1;
      routes := routes + [route];
    }
    NoEntriesLeft(routes, parameters[offset..]);
    if offset != |parameters| {
      return None;
    }
    r := Some(routes);
  }

  /** The first `n` routes have their numbers, and the numbers their routes. */
  ghost predicate Numbered(table: seq<bytes>, n: nat, routeToId: map<bytes, nat>, idToRoute: map<nat, bytes>)
    requires n <= |table|
  {
    && (forall i :: 0 <= i < n ==> table[i] in routeToId)
    && (forall route :: route in routeToId ==> 1 <= routeToId[route] <= n && table[routeToId[route] - 1] == route)
    && (forall id :: id in idToRoute <==> 1 <= id <= n)
    && (forall id :: id in idToRoute ==> idToRoute[id] == table[id - 1])
  }

  lemma NumberNext(table: seq<bytes>, n: nat, routeToId: map<bytes, nat>, idToRoute: map<nat, bytes>)
    requires n < |table| && Numbered(table, n, routeToId, idToRoute)
    ensures Numbered(table, n + 1, routeToId[table[n] := n + 1], idToRoute[n + 1 := table[n]])
  {
  }

  lemma NumberedMembers(table: seq<bytes>, routeToId: map<bytes, nat>, idToRoute: map<nat, bytes>)
    requires Numbered(table, |table|, routeToId, idToRoute)
    ensures forall route :: route in routeToId <==> route in table
    ensures forall route :: route in routeToId ==> routeToId[route] in idToRoute && idToRoute[routeToId[route]] == route
  {
  }

  lemma NumberIs(table: seq<bytes>, routeToId: map<bytes, nat>, idToRoute: map<nat, bytes>, route: bytes)
    requires Ascending(table) && Numbered(table, |table|, routeToId, idToRoute) && route in routeToId
    ensures routeToId[route] == IdOf(table, route)
  {
    hide IdOf, Less;
    FoundAt(table, routeToId[route] - 1);
  }

  /** Both maps of `attach`: the numbering, and its inverse. */
  method NumberRoutes(table: seq<bytes>) returns (routeToId: map<bytes, nat>, idToRoute: map<nat, bytes>)
    requires Ascending(table)
    ensures forall route :: route in routeToId <==> route in table
    ensures forall route :: route in routeToId ==> routeToId[route] == IdOf(table, route)
    ensures forall id :: id in idToRoute <==> 1 <= id <= |table|
    ensures forall route :: route in routeToId ==> routeToId[route] in idToRoute && idToRoute[routeToId[route]] == route
  {
    routeToId, idToRoute := map[], map[];
    assert Numbered(table, 0, routeToId, idToRoute);
    hide Numbered, IdOf, Less;
    var index := 0;
    while index < |table|
      invariant 0 <= index <= |table| && Numbered(table, index, routeToId, idToRoute)
    {
      NumberNext(table, index, routeToId, idToRoute);
      var id := index + 1;
      routeToId := routeToId[table[index] := id];
      idToRoute := idToRoute[id := table[index]];
      index := index + 1;
    }
    NumberedMembers(table, routeToId, idToRoute);
    forall route | route in routeToId
      ensures routeToId[route] == IdOf(table, route)
    {
      NumberIs(table, routeToId, idToRoute, route);
    }
  }
}
