/** The index engine. */
module IndexEngines {
  // The index engine: an in-memory table of entries and a list of index parts. A flush moves
  // the table into a part and changes no lookup; a compaction keeps exactly the active IDs,
  // for every token but the least one.

  import opened Prelude
  import opened StringOrder
  import opened IndexKeys
  import opened IndexParts

  // ---------- sorting entries ----------

  predicate Before(a: IndexEntry, b: IndexEntry) { Lt(a.token, b.token) || (a.token == b.token && Lt(a.id, b.id)) }

  lemma BeforeTransitive(a: IndexEntry, b: IndexEntry, c: IndexEntry)
    requires Before(a, b) && Before(b, c)
    ensures Before(a, c)
  {
    if Lt(a.token, b.token) && Lt(b.token, c.token) { LtTransitive(a.token, b.token, c.token); }
    LtIrreflexive(a.token);
    LtIrreflexive(b.token);
    if a.token == b.token == c.token { LtTransitive(a.id, b.id, c.id); }
  }

  lemma {:induction false} HasFirst(s: set<IndexEntry>) returns (m: IndexEntry)
    requires s != {}
    ensures m in s && forall x :: x in s && x != m ==> Before(m, x)
  {
    var y :| y in s;
    m := y;
    if s != {y} {
      var k := HasFirst(s - {y});
      if y.token == k.token { LtTotal(y.id, k.id); } else { LtTotal(y.token, k.token); }
      m := if Before(k, y) then k else y;
      forall x | x in s && x != m ensures Before(m, x) {
        if x != y && x != k && m == y { BeforeTransitive(y, k, x); }
      }
    }
  }

  /** Sorted by token and data ID, exact duplicates dropped. */
  method SortEntries(es: seq<IndexEntry>) returns (out: seq<IndexEntry>)
    ensures SortedEntries(out) && forall e :: e in out <==> e in es
  {
    out := [];
    var rest := set e | e in es;
    while rest != {}
      invariant forall i, j :: 0 <= i < j < |out| ==> Before(out[i], out[j])
      invariant forall e :: e in es <==> e in out || e in rest
      invariant forall i, y :: 0 <= i < |out| && y in rest ==> Before(out[i], y)
      decreases rest
    {
      ghost var first := HasFirst(rest);
      var m :| m in rest && forall x :: x in rest && x != m ==> Before(m, x);
      out := out + [m];
      rest := rest - {m};
    }
    forall i, j | 0 <= i < j < |out| ensures EntryLe(out[i], out[j]) { BeforeIsLe(out[i], out[j]); }
  }

  lemma BeforeIsLe(a: IndexEntry, b: IndexEntry)
    requires Before(a, b)
    ensures EntryLe(a, b)
  {
    if a.token == b.token { LtIrreflexive(a.token); LtAsymmetric(a.id, b.id); }
  }

  // ---------- the memtable ----------

  /** The entries not yet flushed, and the same entries by token. */
  class IndexMemTable {
    var entries: seq<IndexEntry>
    var tokens: map<Str, set<Str>>

    ghost predicate Valid()
      reads this
    {
      forall t, id :: t in tokens && id in tokens[t] <==> IndexEntry(t, id) in entries
    }

    constructor ()
      ensures Valid() && entries == []
    {
      entries, tokens := [], map[];
    }

    method Write(es: seq<IndexEntry>)
      requires Valid()
      modifies this
      ensures Valid() && entries == old(entries) + es
    {
      ghost var before := entries;
      entries := entries + es;
      var i := 0;
      while i < |es|
        invariant 0 <= i <= |es| && entries == before + es
        invariant forall t, id :: t in tokens && id in tokens[t] <==> IndexEntry(t, id) in before + es[..i]
      {
        var e := es[i];
        assert before + es[..i + 1] == before + es[..i] + [e];
        if e.token !in tokens { tokens := tokens[e.token := {}]; }
        tokens := tokens[e.token := tokens[e.token] + {e.id}];
        i := i + 1;
      }
      assert es[..i] == es;
    }

    method Lookup(t: Str) returns (ids: set<Str>)
      requires Valid()
      ensures forall id :: id in ids <==> IndexEntry(t, id) in entries
    {
      ids := if t in tokens then tokens[t] else {};
    }

    /** Hands out the entries and empties the table. */
    method SnapshotView() returns (es: seq<IndexEntry>)
      requires Valid()
      modifies this
      ensures Valid() && es == old(entries) && entries == []
    {
      es := entries;
      entries, tokens := [], map[];
    }
  }

  // ---------- the engine ----------

  ghost predicate FoundIn(parts: seq<IndexPart>, t: Str, id: Str)
  {
    exists i :: 0 <= i < |parts| && !Outside(parts[i], t) && Holds(parts[i], t, id)
  }

  /** What the part scans of a lookup yield, for any string. */
  ghost predicate ScannedIn(parts: seq<IndexPart>, t: Str, id: Str)
  {
    exists i :: 0 <= i < |parts| && !Outside(parts[i], t) && ScanYields(parts[i], t, id)
  }

  lemma ScannedIsFound(parts: seq<IndexPart>, t: Str, id: Str)
    requires NulFree(t)
    ensures ScannedIn(parts, t, id) <==> FoundIn(parts, t, id)
  {
    hide Outside, Holds, ScanYields, NulFree;
    forall i | 0 <= i < |parts| ensures ScanYields(parts[i], t, id) <==> Holds(parts[i], t, id) {
      ScanIsHolds(parts[i], t, id);
    }
  }

  lemma ScannedInAppend(parts: seq<IndexPart>, p: IndexPart, t: Str, id: Str)
    ensures ScannedIn(parts + [p], t, id) <==> ScannedIn(parts, t, id) || (!Outside(p, t) && ScanYields(p, t, id))
  {
    hide Outside, ScanYields;
    var all := parts + [p];
    assert all[|parts|] == p;
    assert forall i :: 0 <= i < |parts| ==> all[i] == parts[i];
  }

  /** A level-0 part names its range by tokens, so it hides nothing it holds. */
  ghost predicate Open(p: IndexPart) { forall t, id :: Holds(p, t, id) ==> !Outside(p, t) }

  ghost predicate PartsValid(parts: seq<IndexPart>)
  {
    AllTabled(parts) && forall i :: 0 <= i < |parts| && parts[i].level == 0 ==> Open(parts[i])
  }

  function OfLevel0(parts: seq<IndexPart>): seq<IndexPart>
  {
    if parts == [] then []
    else OfLevel0(parts[..|parts| - 1]) + (if parts[|parts| - 1].level == 0 then [parts[|parts| - 1]] else [])
  }

  function Higher(parts: seq<IndexPart>): seq<IndexPart>
  {
    if parts == [] then []
    else Higher(parts[..|parts| - 1]) + (if parts[|parts| - 1].level == 0 then [] else [parts[|parts| - 1]])
  }

  lemma FoundInAppend(parts: seq<IndexPart>, p: IndexPart, t: Str, id: Str)
    ensures FoundIn(parts + [p], t, id) <==> FoundIn(parts, t, id) || (!Outside(p, t) && Holds(p, t, id))
  {
    hide Outside, Holds;
    var all := parts + [p];
    assert all[|parts|] == p;
    assert forall i :: 0 <= i < |parts| ==> all[i] == parts[i];
  }

  lemma {:induction false} Split(parts: seq<IndexPart>, t: Str, id: Str)
    ensures FoundIn(parts, t, id) <==> FoundIn(OfLevel0(parts), t, id) || FoundIn(Higher(parts), t, id)
  {
    hide Outside, Holds;
    if parts != [] {
      var init, p := parts[..|parts| - 1], parts[|parts| - 1];
      assert parts == init + [p];
      Split(init, t, id);
      FoundInAppend(init, p, t, id);
      FoundInAppend(OfLevel0(init), p, t, id);
      FoundInAppend(Higher(init), p, t, id);
      assert OfLevel0(init) + [] == OfLevel0(init) && Higher(init) + [] == Higher(init);
    }
  }

  lemma {:induction false} SplitValid(parts: seq<IndexPart>)
    requires PartsValid(parts)
    ensures PartsValid(OfLevel0(parts)) && PartsValid(Higher(parts))
    ensures forall i :: 0 <= i < |OfLevel0(parts)| ==> Open(OfLevel0(parts)[i])
  {
    hide Open, Tabled;
    if parts != [] {
      assert parts[|parts| - 1] == parts[|parts| - 1];
      SplitValid(parts[..|parts| - 1]);
    }
  }

  /** Where nothing is hidden, being found is being held. */
  lemma FoundIsLive(parts: seq<IndexPart>, active: set<Str>, t: Str, id: Str)
    requires forall i :: 0 <= i < |parts| ==> Open(parts[i])
    ensures id in active ==> (FoundIn(parts, t, id) <==> Live(parts, active, t, id))
  {
    hide Outside, Holds;
    if id in active && Live(parts, active, t, id) {
      var i :| 0 <= i < |parts| && Holds(parts[i], t, id);
      assert Open(parts[i]);
    }
  }

  /** Sorting changes neither the IDs nor whether the tokens are free of NUL. */
  lemma SortedSame(es: seq<IndexEntry>, sorted: seq<IndexEntry>)
    requires forall x :: x in sorted <==> x in es
    ensures IdSet(sorted) == IdSet(es) && (NulFreeTokens(sorted) <==> NulFreeTokens(es))
  {
    forall x | x in es ensures x in sorted {}
    forall i | 0 <= i < |es| ensures exists j :: 0 <= j < |sorted| && sorted[j] == es[i] { assert es[i] in sorted; }
    forall i | 0 <= i < |sorted| ensures exists j :: 0 <= j < |es| && es[j] == sorted[i] { assert sorted[i] in es; }
  }

  class IndexEngine {
    const mem: IndexMemTable
    var parts: seq<IndexPart>
    var covered: set<Str>

    ghost predicate Valid()
      reads this, mem
    {
      mem.Valid() && PartsValid(parts)
    }

    ghost predicate Finds(t: Str, id: Str)
      reads this, mem
    {
      IndexEntry(t, id) in mem.entries || FoundIn(parts, t, id)
    }

    /** Opening: replayed WAL entries, the parts with metadata on disk, the covered list. */
    constructor (recovered: seq<IndexEntry>, onDisk: seq<IndexPart>, list: seq<Str>)
      requires PartsValid(onDisk)
      ensures Valid() && fresh(mem) && mem.entries == recovered && parts == onDisk
      ensures forall id :: id in covered <==> id in list
    {
      mem := new IndexMemTable();
      parts, covered := onDisk, set id | id in list;
      new;
      mem.Write(recovered);
    }

    /** The entries are in the memtable whether or not the WAL commit succeeds; ok says whether it did. */
    method Write(es: seq<IndexEntry>, committed: bool) returns (ok: bool)
      requires Valid()
      modifies mem
      ensures Valid() && ok == (es == [] || committed)
      ensures forall t, id :: Finds(t, id) <==> old(Finds(t, id)) || IndexEntry(t, id) in es
    {
      hide FoundIn, PartsValid;
      if es == [] { return true; }
      mem.Write(es);
      ok := committed;
    }

    /** Covered in memory even when saving the list fails. */
    method MarkCovered(ids: seq<Str>)
      modifies this`covered
      ensures forall id :: id in covered <==> id in old(covered) || id in ids
    {
      var i := 0;
      while i < |ids|
        invariant 0 <= i <= |ids|
        invariant forall id :: id in covered <==> id in old(covered) || id in ids[..i]
      {
        assert ids[..i + 1] == ids[..i] + [ids[i]];
        covered := covered + {ids[i]};
        i := i + 1;
      }
      assert ids[..i] == ids;
    }

    ghost predicate Yields(t: Str, id: Str)
      reads this, mem
    {
      IndexEntry(t, id) in mem.entries || ScannedIn(parts, t, id)
    }

    /** Memtable and part scans together; for a NUL-free token exactly the entries. */
    method LookupToken(t: Str) returns (found: set<Str>)
      requires Valid()
      ensures forall id :: id in found <==> Yields(t, id)
      ensures NulFree(t) ==> forall id :: id in found <==> Finds(t, id)
    {
      hide Outside, Holds, Tabled, Open, ScanYields, NulFree, FoundIn;
      found := mem.Lookup(t);
      var i := 0;
      assert forall id :: !ScannedIn(parts[..0], t, id);
      while i < |parts|
        invariant 0 <= i <= |parts|
        invariant forall id :: id in found <==> IndexEntry(t, id) in mem.entries || ScannedIn(parts[..i], t, id)
      {
        var more := LookupPart(parts[i], t);
        forall id ensures ScannedIn(parts[..i + 1], t, id) <==> ScannedIn(parts[..i], t, id) || id in more {
          assert parts[..i + 1] == parts[..i] + [parts[i]];
          ScannedInAppend(parts[..i], parts[i], t, id);
        }
        found := found + more;
        i := i + 1;
      }
      assert parts[..i] == parts;
      if NulFree(t) {
        forall id ensures ScannedIn(parts, t, id) <==> FoundIn(parts, t, id) { ScannedIsFound(parts, t, id); }
      }
    }

    /** The IDs that have every token; no answer unless every candidate is covered. */
    method LookupTokens(tokens: seq<Str>, candidates: seq<Str>) returns (r: Option<set<Str>>)
      requires Valid()
      ensures r.None? <==> tokens == [] || (parts == [] && covered == {}) || exists i :: 0 <= i < |candidates| && candidates[i] !in covered
      ensures r.Some? ==> forall id :: id in r.value <==> forall i :: 0 <= i < |tokens| ==> Yields(tokens[i], id)
      ensures r.Some? && (forall i :: 0 <= i < |tokens| ==> NulFree(tokens[i])) ==>
        forall id :: id in r.value <==> forall i :: 0 <= i < |tokens| ==> Finds(tokens[i], id)
    {
      hide PartsValid, FoundIn, ScannedIn, NulFree;
      if tokens == [] || (parts == [] && covered == {}) { return None; }
      var c := 0;
      while c < |candidates|
        invariant 0 <= c <= |candidates| && forall i :: 0 <= i < c ==> candidates[i] in covered
      {
        if candidates[c] !in covered { return None; }
        c := c + 1;
      }
      var final := LookupToken(tokens[0]);
      var i := 1;
      while i < |tokens|
        invariant 1 <= i <= |tokens|
        invariant forall id :: id in final <==> forall j :: 0 <= j < i ==> Yields(tokens[j], id)
      {
        var m := LookupToken(tokens[i]);
        final := final * m;
        i := i + 1;
      }
      r := Some(final);
      if forall k :: 0 <= k < |tokens| ==> NulFree(tokens[k]) {
        forall id, k | 0 <= k < |tokens| ensures Yields(tokens[k], id) <==> Finds(tokens[k], id) {
          ScannedIsFound(parts, tokens[k], id);
        }
      }
    }

    /** Where a flush can fail: the WAL seal, the key file, the metadata file. */
    method Flush(sealOk: bool, fileOk: bool, metaOk: bool) returns (ok: bool)
      requires Valid()
      modifies this`parts, mem
      ensures Valid()
      ensures forall t, id :: NulFree(t) ==> (Finds(t, id) <==> old(Finds(t, id)))
      ensures ok ==> mem.entries == []
      ensures !ok ==> parts == old(parts) && forall x :: x in mem.entries <==> x in old(mem.entries)
      ensures old(mem.entries) == [] || (sealOk && fileOk && metaOk && NulFreeTokens(old(mem.entries)) && |IdSet(old(mem.entries))| <= MAX_IDS) ==> ok
      ensures ok && old(mem.entries) != [] ==> sealOk && fileOk && metaOk && |IdSet(old(mem.entries))| <= MAX_IDS
      ensures ok && old(mem.entries) != [] ==> |parts| == |old(parts)| + 1 && parts[..|parts| - 1] == old(parts)
    {
      hide FoundIn, Outside, Holds, Tabled, NulFree, SortedEntries;
      var es := mem.SnapshotView();
      if es == [] { return true; }
      if !sealOk { mem.Write(es); return false; }
      var sorted := SortEntries(es);
      assert sorted != [] by { assert es[0] in sorted; }
      SortedSame(es, sorted);
      var r := FlushPart(sorted);
      if !fileOk || r.None? || !metaOk { mem.Write(sorted); return false; }
      parts := parts + [r.value];
      forall t, id ensures NulFree(t) ==> (FoundIn(parts, t, id) <==> old(FoundIn(parts, t, id)) || IndexEntry(t, id) in es) {
        FoundInAppend(old(parts), r.value, t, id);
      }
      ok := true;
    }

    /**
     Merges the level-0 parts, two or more of them, into one part that keeps the active
     IDs; a failure on the way changes nothing. What is found afterwards is exactly what was found before among active IDs,
     minus the least live token of the merged parts.
     */
    method Compact(active: set<Str>, ioOk: bool) returns (done: bool)
      requires Valid()
      modifies this`parts, this`covered
      ensures Valid()
      ensures done <==> ioOk && |OfLevel0(old(parts))| >= 2 && |ActiveIds(OfLevel0(old(parts)), active)| <= MAX_IDS
      ensures !done ==> parts == old(parts) && covered == old(covered)
      ensures done ==> covered == old(covered) * active
      ensures done ==> forall t, id :: Finds(t, id) <==>
        IndexEntry(t, id) in mem.entries || FoundIn(Higher(old(parts)), t, id)
        || (Live(OfLevel0(old(parts)), active, t, id) && !Least(OfLevel0(old(parts)), active, t))
      ensures done ==> forall t, id :: id in active && !Least(OfLevel0(old(parts)), active, t) ==> (Finds(t, id) <==> old(Finds(t, id)))
    {
      hide FoundIn, Outside, Holds, Tabled, Live, Least, ActiveIds, Open;
      ghost var before := parts;
      var l0, rest := OfLevel0(parts), Higher(parts);
      if |l0| < 2 { return false; }
      SplitValid(parts);
      var r := IndexParts.Compact(l0, active);
      if r.None? || !ioOk { return false; }
      parts := rest + [r.value];
      covered := covered * active;
      forall t, id ensures FoundIn(parts, t, id) <==> FoundIn(rest, t, id) || (Live(l0, active, t, id) && !Least(l0, active, t)) {
        FoundInAppend(rest, r.value, t, id);
      }
      forall t, id | id in active && !Least(l0, active, t) ensures Finds(t, id) <==> old(Finds(t, id)) {
        CompactionKeepsLookup(before, active, t, id);
      }
      done := true;
    }
  }

  /** For an active ID and any other token, the compaction changes no lookup. */
  lemma CompactionKeepsLookup(parts: seq<IndexPart>, active: set<Str>, t: Str, id: Str)
    requires PartsValid(parts) && id in active && !Least(OfLevel0(parts), active, t)
    ensures FoundIn(parts, t, id) <==>
      FoundIn(Higher(parts), t, id) || (Live(OfLevel0(parts), active, t, id) && !Least(OfLevel0(parts), active, t))
  {
    hide FoundIn, Live, Least;
    Split(parts, t, id);
    SplitValid(parts);
    FoundIsLive(OfLevel0(parts), active, t, id);
  }

  /** The part a flush of the one entry (t, id) leaves. */
  function OnePair(t: Str, id: Str): IndexPart { IndexPart(0, [Key(t, 0)], [id], t, t) }

  lemma OnePairHolds(t: Str, id: Str, u: Str, x: Str)
    requires NulFree(t)
    ensures Holds(OnePair(t, id), u, x) <==> u == t && x == id
  {
    hide NulFree, Key;
    ParseKeyOfKey(t, 0);
    var p := OnePair(t, id);
    assert KeyMeans(p.ids, Key(t, 0), t, id) && Key(t, 0) in p.keys;
  }

  ghost predicate HoldsOnly(p: IndexPart, t: Str, id: Str) { forall u, x :: Holds(p, u, x) <==> u == t && x == id }

  /** Two flushed parts with one pair each, of one active ID: the smaller token is found before the compaction, and it is the one that is lost. */
  lemma LeastTokenIsLost(p: IndexPart, t: Str, q: IndexPart, u: Str, id: Str)
    requires HoldsOnly(p, t, id) && HoldsOnly(q, u, id) && Open(p) && Lt(t, u)
    ensures FoundIn([p, q], t, id) && Least([p, q], {id}, t)
  {
    hide Holds, Outside, Lt;
    assert [p, q][0] == p && Holds(p, t, id);
    LtIrreflexive(t);
    LtAsymmetric(t, u);
  }

  /** Such parts exist, for all NUL-free tokens. */
  lemma OnePairIsOne(t: Str, id: Str)
    requires NulFree(t)
    ensures HoldsOnly(OnePair(t, id), t, id) && Open(OnePair(t, id))
  {
    hide NulFree, Holds;
    forall u, x ensures Holds(OnePair(t, id), u, x) <==> u == t && x == id { OnePairHolds(t, id, u, x); }
    LtIrreflexive(t);
  }
}
