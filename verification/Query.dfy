/** Queries over one node. */
module Query {
  // Queries over parts and memtable: parts and blocks pruned by time, parts by tokens, the
  // rest scanned row by row, the result sorted by time.

  import opened Prelude
  import opened StringOrder
  import opened Tokens
  import opened TokenSets

  /** A part on disk with its metadata; own is whether this node wrote it. */
  datatype DataPart = DataPart(
    id: nat, own: bool, level: nat, minTs: int, maxTs: int, count: nat,
    tokens: seq<Text>, truncated: bool, blocks: seq<seq<Entry>>)

  function RowsOf(p: DataPart): seq<Entry> { Concat(p.blocks) }

  function AllRows(parts: seq<DataPart>): seq<Entry>
  {
    if parts == [] then [] else AllRows(parts[..|parts| - 1]) + RowsOf(parts[|parts| - 1])
  }

  /** The characters of each row. */
  function Texts(u: Charset, rows: seq<Entry>): (r: seq<Text>)
    ensures |r| == |rows| && forall i :: 0 <= i < |rows| ==> r[i] == u.decode(rows[i].data)
  {
    seq(|rows|, i requires 0 <= i < |rows| => u.decode(rows[i].data))
  }

  /** Rows in time order in non-empty blocks, and metadata that is exact. */
  ghost predicate Exact(u: Charset, p: DataPart)
  {
    && RowsOf(p) != [] && SortedByTime(RowsOf(p))
    && (forall b :: 0 <= b < |p.blocks| ==> p.blocks[b] != [])
    && p.minTs == RowsOf(p)[0].ts && p.maxTs == RowsOf(p)[|RowsOf(p)| - 1].ts && p.count == |RowsOf(p)|
    && Capped(p.tokens, p.truncated, AllTokens(u, Texts(u, RowsOf(p))))
  }

  ghost predicate AllExact(u: Charset, parts: seq<DataPart>) { forall i :: 0 <= i < |parts| ==> Exact(u, parts[i]) }

  // ---------- what a query means ----------

  ghost predicate Matches(e: Entry, from: int, to: int, term: Text)
  {
    from <= e.ts <= to && (term == [] || exists i: nat :: FoldedAt(e.data, term, i))
  }

  ghost function Hit(e: Entry, from: int, to: int, term: Text): seq<Entry>
  {
    if Matches(e, from, to, term) then [e] else []
  }

  /** The plain filter, row by row. */
  ghost function Picked(rows: seq<Entry>, from: int, to: int, term: Text): seq<Entry>
  {
    if rows == [] then []
    else Picked(rows[..|rows| - 1], from, to, term) + Hit(rows[|rows| - 1], from, to, term)
  }

  predicate Scanned(u: Charset, p: DataPart, term: Text) { term == [] || p.truncated || Keeps(u, p.tokens, u.decode(term)) }

  function Offered(u: Charset, p: DataPart, term: Text): seq<Entry> { if Scanned(u, p, term) then RowsOf(p) else [] }

  function ScannedRows(u: Charset, parts: seq<DataPart>, term: Text): seq<Entry>
  {
    if parts == [] then []
    else ScannedRows(u, parts[..|parts| - 1], term) + Offered(u, parts[|parts| - 1], term)
  }

  lemma {:induction false} PickedCount(rows: seq<Entry>, from: int, to: int, term: Text, e: Entry)
    ensures multiset(Picked(rows, from, to, term))[e] == if Matches(e, from, to, term) then multiset(rows)[e] else 0
  {
    hide Matches;
    if rows != [] {
      PickedCount(rows[..|rows| - 1], from, to, term, e);
      assert rows == rows[..|rows| - 1] + [rows[|rows| - 1]];
    }
  }

  lemma {:induction false} PickedAppend(a: seq<Entry>, b: seq<Entry>, from: int, to: int, term: Text)
    ensures Picked(a + b, from, to, term) == Picked(a, from, to, term) + Picked(b, from, to, term)
  {
    hide Matches;
    if b == [] {
      assert a + b == a;
    } else {
      assert (a + b)[..|a + b| - 1] == a + b[..|b| - 1];
      PickedAppend(a, b[..|b| - 1], from, to, term);
    }
  }

  lemma {:induction false} PickedNone(rows: seq<Entry>, from: int, to: int, term: Text)
    requires forall i :: 0 <= i < |rows| ==> rows[i].ts < from || rows[i].ts > to
    ensures Picked(rows, from, to, term) == []
  {
    if rows != [] { PickedNone(rows[..|rows| - 1], from, to, term); }
  }

  // ---------- the scan ----------

  method RowMatches(e: Entry, from: int, to: int, term: Text) returns (r: bool)
    ensures r <==> Matches(e, from, to, term)
  {
    if !(from <= e.ts <= to) { return false; }
    if term == [] { return true; }
    r := FoldContains(e.data, term);
  }

  method ScanRows(rows: seq<Entry>, from: int, to: int, term: Text, result: seq<Entry>) returns (out: seq<Entry>)
    ensures out == result + Picked(rows, from, to, term)
  {
    hide Matches;
    out := result;
    var i := 0;
    while i < |rows|
      invariant 0 <= i <= |rows| && out == result + Picked(rows[..i], from, to, term)
    {
      assert rows[..i + 1][..i] == rows[..i];
      var hit := RowMatches(rows[i], from, to, term);
      if hit { out := out + [rows[i]]; }
      i := i + 1;
    }
    assert rows[..i] == rows;
  }

  /** The rows of one block of a part in time order, between its first and last times. */
  lemma {:induction false} BlockByTime(blocks: seq<seq<Entry>>, b: nat)
    requires SortedByTime(Concat(blocks)) && b < |blocks|
    ensures SortedByTime(blocks[b])
  {
    var n := |blocks| - 1;
    var front, all := Concat(blocks[..n]), Concat(blocks);
    assert all == front + blocks[n];
    if b == n {
      assert forall i :: 0 <= i < |blocks[n]| ==> blocks[n][i] == all[|front| + i];
    } else {
      assert forall i :: 0 <= i < |front| ==> front[i] == all[i];
      BlockByTime(blocks[..n], b);
    }
  }

  lemma ConcatNext(blocks: seq<seq<Entry>>, b: nat)
    requires b < |blocks|
    ensures Concat(blocks[..b + 1]) == Concat(blocks[..b]) + blocks[b]
  {
    assert blocks[..b + 1][..b] == blocks[..b];
  }

  /** The rows of the blocks that can be read. */
  function Readable(blocks: seq<seq<Entry>>, bad: set<nat>): seq<Entry>
  {
    if blocks == [] then []
    else
      var n := |blocks| - 1;
      Readable(blocks[..n], bad) + if n in bad then [] else blocks[n]
  }

  lemma {:induction false} AllReadable(blocks: seq<seq<Entry>>)
    ensures Readable(blocks, {}) == Concat(blocks)
  {
    if blocks != [] { AllReadable(blocks[..|blocks| - 1]); }
  }

  lemma ReadableNext(blocks: seq<seq<Entry>>, b: nat, bad: set<nat>)
    requires b < |blocks|
    ensures Readable(blocks[..b + 1], bad) == Readable(blocks[..b], bad) + if b in bad then [] else blocks[b]
  {
    assert blocks[..b + 1][..b] == blocks[..b];
  }

  /** A part in time order with non-empty blocks: pruned blocks hold nothing in the range, and blocks that cannot be read are skipped. */
  method ScanPart(p: DataPart, from: int, to: int, term: Text, bad: set<nat>, result: seq<Entry>) returns (out: seq<Entry>)
    requires SortedByTime(RowsOf(p)) && forall b :: 0 <= b < |p.blocks| ==> p.blocks[b] != []
    ensures out == result + Picked(Readable(p.blocks, bad), from, to, term)
    ensures bad == {} ==> out == result + Picked(RowsOf(p), from, to, term)
  {
    hide Picked, SortedByTime, Concat;
    AllReadable(p.blocks);
    out := result;
    EmptyPick(from, to, term);
    var b := 0;
    while b < |p.blocks|
      invariant 0 <= b <= |p.blocks| && out == result + Picked(Readable(p.blocks[..b], bad), from, to, term)
    {
      var rows := p.blocks[b];
      ReadableNext(p.blocks, b, bad);
      PickedAppend(Readable(p.blocks[..b], bad), rows, from, to, term);
      assert Readable(p.blocks[..b], bad) + [] == Readable(p.blocks[..b], bad);
      if rows[|rows| - 1].ts < from || rows[0].ts > to {
        BlockByTime(p.blocks, b);
        OutOfRange(rows, from, to, term);
      } else if b !in bad {
        out := ScanRows(rows, from, to, term, out);
      }
      b := b + 1;
    }
    assert p.blocks[..b] == p.blocks;
  }

  lemma EmptyPick(from: int, to: int, term: Text)
    ensures Picked(Concat([]), from, to, term) == [] && Picked([], from, to, term) == []
  {}

  lemma OutOfRange(rows: seq<Entry>, from: int, to: int, term: Text)
    requires rows != [] && SortedByTime(rows) && (rows[|rows| - 1].ts < from || rows[0].ts > to)
    ensures Picked(rows, from, to, term) == []
  {
    PickedNone(rows, from, to, term);
  }

  method Insert(sorted: seq<Entry>, e: Entry) returns (out: seq<Entry>)
    requires SortedByTime(sorted)
    ensures SortedByTime(out) && multiset(out) == multiset(sorted) + multiset{e}
  {
    var i := |sorted|;
    while i > 0 && sorted[i - 1].ts > e.ts
      invariant 0 <= i <= |sorted| && (i < |sorted| ==> sorted[i].ts > e.ts)
    {
      i := i - 1;
    }
    out := sorted[..i] + [e] + sorted[i..];
    Inserted(sorted, i, e);
  }

  lemma Inserted(sorted: seq<Entry>, i: nat, e: Entry)
    requires SortedByTime(sorted) && i <= |sorted| && (i > 0 ==> sorted[i - 1].ts <= e.ts) && (i < |sorted| ==> e.ts < sorted[i].ts)
    ensures SortedByTime(sorted[..i] + [e] + sorted[i..])
    ensures multiset(sorted[..i] + [e] + sorted[i..]) == multiset(sorted) + multiset{e}
  {
    hide SortedByTime;
    assert sorted == sorted[..i] + sorted[i..];
    SplitByTime(sorted, i, e);
    JoinByTime(sorted[..i], [e]);
    JoinByTime(sorted[..i] + [e], sorted[i..]);
  }

  lemma SplitByTime(sorted: seq<Entry>, i: nat, e: Entry)
    requires SortedByTime(sorted) && i <= |sorted|
    ensures SortedByTime(sorted[..i]) && SortedByTime(sorted[i..]) && SortedByTime([e])
  {}

  lemma JoinByTime(a: seq<Entry>, b: seq<Entry>)
    requires SortedByTime(a) && SortedByTime(b) && (a != [] && b != [] ==> a[|a| - 1].ts <= b[0].ts)
    ensures SortedByTime(a + b)
  {
    var c := a + b;
    forall i, j | 0 <= i < j < |c| ensures c[i].ts <= c[j].ts {
      if i < |a| <= j {
        assert c[i].ts <= a[|a| - 1].ts;
        assert b[0].ts <= c[j].ts;
      }
    }
  }

  method SortByTime(rows: seq<Entry>) returns (out: seq<Entry>)
    ensures SortedByTime(out) && multiset(out) == multiset(rows)
  {
    hide SortedByTime;
    out := [];
    assert SortedByTime(out) by { NothingByTime(); }
    var i := 0;
    while i < |rows|
      invariant 0 <= i <= |rows| && SortedByTime(out) && multiset(out) == multiset(rows[..i])
    {
      out := Insert(out, rows[i]);
      assert rows[..i + 1] == rows[..i] + [rows[i]];
      i := i + 1;
    }
    assert rows[..i] == rows;
  }

  lemma NothingByTime()
    ensures SortedByTime([])
  {}

  predicate Overlaps(p: DataPart, from: int, to: int) { p.maxTs >= from && p.minTs <= to }

  /** One part: pruned by its time range or its tokens, or scanned. */
  method QueryPart(u: Charset, p: DataPart, from: int, to: int, term: Text, result: seq<Entry>) returns (out: seq<Entry>)
    requires Exact(u, p)
    ensures out == result + Picked(Offered(u, p, term), from, to, term)
  {
    hide Picked, SortedByTime, Scanned, Keeps, Capped;
    out := result;
    EmptyPick(from, to, term);
    if !Overlaps(p, from, to) {
      OutOfRange(RowsOf(p), from, to, term);
      return;
    }
    var keep := true;
    if term != [] && !p.truncated { keep := HasTokenIn(u, p, term); } else { ScannedAnyway(u, p, term); }
    if keep { out := ScanPart(p, from, to, term, {}, out); }
  }

  /** The whole query: a time-sorted permutation of exactly the matching rows of the scanned parts and the memtable. */
  method QueryRows(u: Charset, parts: seq<DataPart>, mem: seq<Entry>, from: int, to: int, term0: Text) returns (result: seq<Entry>)
    requires AllExact(u, parts)
    ensures SortedByTime(result)
    ensures multiset(result) == multiset(Picked(ScannedRows(u, parts, u.lowerString(term0)) + mem, from, to, u.lowerString(term0)))
  {
    hide Picked, SortedByTime, Offered, Exact;
    var term := u.lowerString(term0);
    var out: seq<Entry> := [];
    EmptyPick(from, to, term);
    var i := 0;
    while i < |parts|
      invariant 0 <= i <= |parts| && out == Picked(ScannedRows(u, parts[..i], term), from, to, term)
    {
      assert parts[..i + 1][..i] == parts[..i];
      PickedAppend(ScannedRows(u, parts[..i], term), Offered(u, parts[i], term), from, to, term);
      out := QueryPart(u, parts[i], from, to, term, out);
      i := i + 1;
    }
    assert parts[..i] == parts;
    PickedAppend(ScannedRows(u, parts, term), mem, from, to, term);
    out := ScanRows(mem, from, to, term, out);
    result := SortByTime(out);
  }

  method HasTokenIn(u: Charset, p: DataPart, term: Text) returns (keep: bool)
    requires Exact(u, p) && term != [] && !p.truncated
    ensures keep <==> Scanned(u, p, term)
  {
    hide Keeps;
    keep := HasToken(u, p.tokens, u.decode(term));
  }

  lemma ScannedAnyway(u: Charset, p: DataPart, term: Text)
    requires term == [] || p.truncated
    ensures Scanned(u, p, term)
  {}

  // ---------- what follows for the caller ----------

  lemma {:induction false} EmptyTermScansAll(u: Charset, parts: seq<DataPart>)
    ensures ScannedRows(u, parts, []) == AllRows(parts)
  {
    if parts != [] { EmptyTermScansAll(u, parts[..|parts| - 1]); }
  }

  /** Without a term: each row in the time range as often as it is stored, and nothing else. */
  lemma EmptyTermAnswer(u: Charset, parts: seq<DataPart>, mem: seq<Entry>, from: int, to: int, result: seq<Entry>, e: Entry)
    requires multiset(result) == multiset(Picked(ScannedRows(u, parts, []) + mem, from, to, []))
    ensures multiset(result)[e] == if from <= e.ts <= to then multiset(AllRows(parts) + mem)[e] else 0
  {
    EmptyTermScansAll(u, parts);
    PickedCount(AllRows(parts) + mem, from, to, [], e);
  }

  /** Two stores with the same rows give the same answer, however the rows are spread over parts and memtable. */
  lemma SameRowsSameAnswer(u: Charset, parts: seq<DataPart>, mem: seq<Entry>, parts2: seq<DataPart>, mem2: seq<Entry>,
                           from: int, to: int, a: seq<Entry>, b: seq<Entry>)
    requires multiset(AllRows(parts) + mem) == multiset(AllRows(parts2) + mem2)
    requires multiset(a) == multiset(Picked(ScannedRows(u, parts, []) + mem, from, to, []))
    requires multiset(b) == multiset(Picked(ScannedRows(u, parts2, []) + mem2, from, to, []))
    ensures multiset(a) == multiset(b)
  {
    hide Picked, ScannedRows, AllRows;
    forall e ensures multiset(a)[e] == multiset(b)[e] {
      EmptyTermAnswer(u, parts, mem, from, to, a, e);
      EmptyTermAnswer(u, parts2, mem2, from, to, b, e);
    }
  }

  /** The characters of the term stand in those of the row between delimiters. */
  ghost predicate StandsIn(u: Charset, term: Text, s: Text)
  {
    exists i: nat :: FoldedAt(u.decode(s), u.decode(term), i) && Delimited(u, u.decode(s), i, i + |u.decode(term)|)
  }

  /** Finding the characters of a plain string is finding the stored string, as with UTF-8, in any other string. */
  ghost predicate Encodes(u: Charset)
  {
    forall s, t, i: nat :: u.plain(t) && FoldedAt(u.decode(s), u.decode(t), i) ==> exists j: nat :: FoldedAt(s, t, j)
  }

  lemma StandsKept(u: Charset, texts: seq<Text>, tokens: seq<Text>, r: nat, term: Text, s: Text)
    requires Agrees(u) && Capped(tokens, false, AllTokens(u, texts)) && r < |texts| && texts[r] == u.decode(s) && StandsIn(u, term, s)
    ensures Keeps(u, tokens, u.decode(term))
  {
    hide Agrees, Keeps, Capped, FoldedAt, Delimited, AllTokens;
    var i: nat :| FoldedAt(u.decode(s), u.decode(term), i) && Delimited(u, u.decode(s), i, i + |u.decode(term)|);
    DelimitedKept(u, texts, tokens, r, i, u.decode(term));
  }

  lemma HolderScanned(u: Charset, p: DataPart, term: Text, e: Entry)
    requires Agrees(u) && Exact(u, p) && e in RowsOf(p) && StandsIn(u, term, e.data)
    ensures Scanned(u, p, term)
  {
    hide Agrees, Keeps, Capped, SortedByTime, StandsIn, AllTokens, Concat;
    if !p.truncated {
      var rows := RowsOf(p);
      var r :| 0 <= r < |rows| && rows[r] == e;
      StandsKept(u, Texts(u, rows), p.tokens, r, term, e.data);
    }
  }

  lemma {:induction false} HolderRowsScanned(u: Charset, parts: seq<DataPart>, term: Text, e: Entry)
    requires Agrees(u) && AllExact(u, parts) && StandsIn(u, term, e.data)
    ensures multiset(ScannedRows(u, parts, term))[e] == multiset(AllRows(parts))[e]
  {
    hide Agrees, Scanned, StandsIn, Exact;
    if parts != [] {
      var n := |parts| - 1;
      HolderRowsScanned(u, parts[..n], term, e);
      assert parts[n] == parts[n];
      if e in RowsOf(parts[n]) { HolderScanned(u, parts[n], term, e); }
    }
  }

  lemma StandsMatches(u: Charset, term: Text, s: Text)
    requires Encodes(u) && u.plain(term) && StandsIn(u, term, s)
    ensures exists j: nat :: FoldedAt(s, term, j)
  {
    var i: nat :| FoldedAt(u.decode(s), u.decode(term), i) && Delimited(u, u.decode(s), i, i + |u.decode(term)|);
  }

  /** With any term: of the rows in which it stands delimited those that match are all returned, which for a plain term is every one of them, and only matching rows are. */
  lemma DelimitedRowsReturned(u: Charset, parts: seq<DataPart>, mem: seq<Entry>, from: int, to: int, term: Text,
                              result: seq<Entry>, e: Entry)
    requires Agrees(u) && AllExact(u, parts)
    requires multiset(result) == multiset(Picked(ScannedRows(u, parts, term) + mem, from, to, term))
    ensures StandsIn(u, term, e.data) ==> multiset(result)[e] == if Matches(e, from, to, term) then multiset(AllRows(parts) + mem)[e] else 0
    ensures Encodes(u) && u.plain(term) && StandsIn(u, term, e.data) ==> (Matches(e, from, to, term) <==> from <= e.ts <= to)
    ensures e in result ==> Matches(e, from, to, term)
  {
    hide Picked, ScannedRows, AllRows, Agrees, Encodes, AllExact, StandsIn;
    PickedCount(ScannedRows(u, parts, term) + mem, from, to, term, e);
    if StandsIn(u, term, e.data) {
      HolderRowsScanned(u, parts, term, e);
      if Encodes(u) && u.plain(term) { StandsMatches(u, term, e.data); }
    }
  }
}
