/** Index parts as sets of pairs. */
module IndexParts {
  // Index parts: what a flush builds from sorted entries, what a compaction makes of several
  // level-0 parts, and what a lookup finds in them, all read as plain sets of pairs.

  import opened Prelude
  import opened StringOrder
  import opened IndexKeys

  datatype IndexPart = IndexPart(level: nat, keys: seq<Str>, ids: seq<Str>, minTok: Str, maxTok: Str)

  /** The pairs a part stands for. */
  ghost predicate Holds(p: IndexPart, t: Str, id: Str)
  {
    exists k :: k in p.keys && KeyMeans(p.ids, k, t, id)
  }

  predicate KeyMeans(ids: seq<Str>, k: Str, t: Str, id: Str)
  {
    ParseKey(k).Some? && ParseKey(k).value.0 == t && 0 <= ParseKey(k).value.1 < |ids| && ids[ParseKey(k).value.1] == id
  }

  predicate Outside(p: IndexPart, t: Str) { Lt(t, p.minTok) || Lt(p.maxTok, t) }

  // ---------- lookup ----------

  /** What the scan of the key range of t yields, for any string t. */
  ghost predicate ScanYields(p: IndexPart, t: Str, id: Str)
  {
    exists k :: k in p.keys && KeyYields(p.ids, k, t, id)
  }

  predicate KeyYields(ids: seq<Str>, k: Str, t: Str, id: Str)
  {
    InRange(t, k) && ParseKey(k).Some? && 0 <= ParseKey(k).value.1 < |ids| && ids[ParseKey(k).value.1] == id
  }

  /** For a NUL-free token the scan yields exactly what the part holds. */
  lemma ScanIsHolds(p: IndexPart, t: Str, id: Str)
    requires NulFree(t)
    ensures ScanYields(p, t, id) <==> Holds(p, t, id)
  {
    hide InRange, NulFree;
    forall k | ParseKey(k).Some? ensures KeyYields(p.ids, k, t, id) <==> KeyMeans(p.ids, k, t, id) {
      KeyOfParsed(k);
      RangeIsToken(t, ParseKey(k).value.0, ParseKey(k).value.1);
    }
  }

  /** The range scan of one part: skipped outside [minTok, maxTok], keys outside the range never seen. */
  method LookupPart(p: IndexPart, t: Str) returns (found: set<Str>)
    ensures forall id :: id in found <==> !Outside(p, t) && ScanYields(p, t, id)
  {
    found := {};
    if Lt(t, p.minTok) || Lt(p.maxTok, t) { return; }
    var i := 0;
    while i < |p.keys|
      invariant 0 <= i <= |p.keys|
      invariant forall id :: id in found <==> exists k :: k in p.keys[..i] && KeyYields(p.ids, k, t, id)
    {
      var k := p.keys[i];
      assert p.keys[..i + 1] == p.keys[..i] + [k];
      ghost var before := found;
      if InRange(t, k) && ParseKey(k).Some? {
        assert 0 <= ParseKey(k).value.1 by { KeyOfParsed(k); }
        if ParseKey(k).value.1 < |p.ids| { found := found + {p.ids[ParseKey(k).value.1]}; }
      }
      assert forall id :: id in found <==> id in before || KeyYields(p.ids, k, t, id);
      i := i + 1;
    }
    assert p.keys[..i] == p.keys;
  }

  // ---------- building from entries ----------

  predicate EntryLe(a: IndexEntry, b: IndexEntry)
  {
    Lt(a.token, b.token) || (a.token == b.token && !Lt(b.id, a.id))
  }

  predicate SortedEntries(es: seq<IndexEntry>) { forall i, j :: 0 <= i < j < |es| ==> EntryLe(es[i], es[j]) }

  predicate NulFreeTokens(es: seq<IndexEntry>) { forall i :: 0 <= i < |es| ==> NulFree(es[i].token) }

  function IdSet(es: seq<IndexEntry>): set<Str> { set i | 0 <= i < |es| :: es[i].id }

  ghost predicate KeyOfEntry(ids: seq<Str>, k: Str, e: IndexEntry)
  {
    exists o :: 0 <= o < |ids| && o < MAX_IDS && ids[o] == e.id && k == Key(e.token, o)
  }

  /** Keys of entries in order are in order, and equal exactly for equal entries. */
  lemma EntryKeyOrder(ids: seq<Str>, a: IndexEntry, i: nat, b: IndexEntry, j: nat)
    requires StrictlySorted(ids) && i < |ids| <= MAX_IDS && j < |ids| && ids[i] == a.id && ids[j] == b.id
    requires NulFree(a.token) && NulFree(b.token) && EntryLe(a, b)
    ensures Lt(Key(a.token, i), Key(b.token, j)) || a == b
    ensures a == b ==> i == j
  {
    KeyOrder(a.token, i, b.token, j);
    SortedPositions(ids, i, j);
    SortedPositions(ids, j, i);
  }

  ghost predicate KeysOf(ids: seq<Str>, keys: seq<Str>, es: seq<IndexEntry>)
  {
    forall k :: k in keys <==> exists i :: 0 <= i < |es| && KeyOfEntry(ids, k, es[i])
  }

  lemma KeysOfStep(ids: seq<Str>, keys: seq<Str>, es: seq<IndexEntry>, e: IndexEntry, key: Str)
    requires StrictlySorted(ids) && KeysOf(ids, keys, es) && KeyOfEntry(ids, key, e)
    ensures KeysOf(ids, keys + [key], es + [e])
    ensures key in keys ==> KeysOf(ids, keys, es + [e])
  {
    hide StrictlySorted, KeyOfEntry;
    var fs := es + [e];
    forall k ensures k in keys + [key] <==> exists i :: 0 <= i < |fs| && KeyOfEntry(ids, k, fs[i]) {
      if k == key { assert KeyOfEntry(ids, k, fs[|es|]); }
      if k in keys {
        var i :| 0 <= i < |es| && KeyOfEntry(ids, k, es[i]);
        assert KeyOfEntry(ids, k, fs[i]);
      }
      if exists i :: 0 <= i < |fs| && KeyOfEntry(ids, k, fs[i]) {
        var i :| 0 <= i < |fs| && KeyOfEntry(ids, k, fs[i]);
        if i < |es| { assert KeyOfEntry(ids, k, es[i]); } else { OnlyKey(ids, k, key, e); }
      }
    }
    if key in keys { assert forall k :: k in keys <==> k in keys + [key]; }
  }

  /**
   Interns the data IDs in ascending order and inserts the keys in entry order; the
   insertion fails on a key that does not exceed the one before it.
   */
  method BuildIndexFST(es: seq<IndexEntry>) returns (ok: bool, keys: seq<Str>, ids: seq<Str>)
    requires SortedEntries(es)
    ensures |IdSet(es)| > MAX_IDS ==> !ok
    ensures |IdSet(es)| <= MAX_IDS && NulFreeTokens(es) ==> ok
    ensures ok ==> StrictlySorted(keys) && StrictlySorted(ids) && |ids| <= MAX_IDS
    ensures ok ==> (forall id :: id in ids <==> id in IdSet(es)) && KeysOf(ids, keys, es)
  {
    hide KeyOfEntry, KeysOf, Key, NulFree, StrictlySorted, Lt;
    ids := SortIds(IdSet(es));
    ok, keys := true, [];
    if |ids| > MAX_IDS { return false, [], ids; }
    var ord := Ordinals(ids);
    var i := 0;
    EmptyKeys(ids, es[..0]);
    while i < |es|
      invariant 0 <= i <= |es|
      invariant ok && StrictlySorted(keys) && KeysOf(ids, keys, es[..i])
      invariant keys == [] <==> i == 0
      invariant i > 0 ==> KeyOfEntry(ids, keys[|keys| - 1], es[i - 1])
    {
      var e := es[i];
      assert e.id in IdSet(es);
      var key := Key(e.token, ord[e.id]);
      IsKeyOf(ids, e, ord[e.id]);
      KeysOfStep(ids, keys, es[..i], e, key);
      assert es[..i] + [e] == es[..i + 1];
      if i > 0 { LastStep(ids, keys[|keys| - 1], es[i - 1], key, e); }
      i := i + 1;
      if keys != [] && key == keys[|keys| - 1] { continue; }
      if keys != [] && !Lt(keys[|keys| - 1], key) { return false, keys, ids; }
      ExtendSorted(keys, key);
      keys := keys + [key];
    }
    assert es[..i] == es;
  }

  lemma EmptyKeys(ids: seq<Str>, es: seq<IndexEntry>)
    requires es == []
    ensures KeysOf(ids, [], es) && StrictlySorted([])
  {}

  lemma IsKeyOf(ids: seq<Str>, e: IndexEntry, o: nat)
    requires o < |ids| <= MAX_IDS && ids[o] == e.id
    ensures KeyOfEntry(ids, Key(e.token, o), e)
  {}

  lemma OnlyKey(ids: seq<Str>, k: Str, l: Str, e: IndexEntry)
    requires StrictlySorted(ids) && KeyOfEntry(ids, k, e) && KeyOfEntry(ids, l, e)
    ensures k == l
  {
    var o :| 0 <= o < |ids| && o < MAX_IDS && ids[o] == e.id && k == Key(e.token, o);
    var q :| 0 <= q < |ids| && q < MAX_IDS && ids[q] == e.id && l == Key(e.token, q);
    SortedPositions(ids, o, q);
  }

  lemma LastStep(ids: seq<Str>, last: Str, a: IndexEntry, key: Str, b: IndexEntry)
    requires StrictlySorted(ids) && |ids| <= MAX_IDS && EntryLe(a, b)
    requires KeyOfEntry(ids, last, a) && KeyOfEntry(ids, key, b)
    ensures NulFree(a.token) && NulFree(b.token) ==> Lt(last, key) || last == key
  {
    if NulFree(a.token) && NulFree(b.token) {
      var q :| 0 <= q < |ids| && q < MAX_IDS && ids[q] == a.id && last == Key(a.token, q);
      var o :| 0 <= o < |ids| && o < MAX_IDS && ids[o] == b.id && key == Key(b.token, o);
      EntryKeyOrder(ids, a, q, b, o);
    }
  }

  lemma ExtendSorted(keys: seq<Str>, key: Str)
    requires StrictlySorted(keys) && (keys != [] ==> Lt(keys[|keys| - 1], key))
    ensures StrictlySorted(keys + [key])
  {
    forall i | 0 <= i < |keys| ensures Lt(keys[i], key) {
      if i < |keys| - 1 { LtTransitive(keys[i], keys[|keys| - 1], key); }
    }
  }

  lemma HeldIsEntry(es: seq<IndexEntry>, p: IndexPart, t: Str, id: Str)
    requires |p.ids| <= MAX_IDS && KeysOf(p.ids, p.keys, es) && Holds(p, t, id)
    ensures NulFree(t) && IndexEntry(t, id) in es
  {
    hide Key, NulFree;
    var k :| k in p.keys && KeyMeans(p.ids, k, t, id);
    var i :| 0 <= i < |es| && KeyOfEntry(p.ids, k, es[i]);
    var o :| 0 <= o < |p.ids| && o < MAX_IDS && p.ids[o] == es[i].id && k == Key(es[i].token, o);
    ParseKeyOfKey(es[i].token, o);
  }

  lemma EntryIsHeld(es: seq<IndexEntry>, p: IndexPart, i: nat)
    requires |p.ids| <= MAX_IDS && KeysOf(p.ids, p.keys, es)
    requires i < |es| && NulFree(es[i].token) && es[i].id in p.ids
    ensures Holds(p, es[i].token, es[i].id)
  {
    hide NulFree, Key;
    var o :| 0 <= o < |p.ids| && p.ids[o] == es[i].id;
    var k := Key(es[i].token, o);
    IsKeyOf(p.ids, es[i], o);
    ParseKeyOfKey(es[i].token, o);
    assert k in p.keys && KeyMeans(p.ids, k, es[i].token, es[i].id);
  }

  /** A flushed part holds exactly its entries (those whose tokens can be read back). */
  lemma BuiltHolds(es: seq<IndexEntry>, p: IndexPart, t: Str, id: Str)
    requires StrictlySorted(p.ids) && |p.ids| <= MAX_IDS
    requires forall x :: x in p.ids <==> x in IdSet(es)
    requires KeysOf(p.ids, p.keys, es)
    ensures Holds(p, t, id) <==> NulFree(t) && IndexEntry(t, id) in es
  {
    hide Holds, KeysOf, NulFree;
    if Holds(p, t, id) { HeldIsEntry(es, p, t, id); }
    if NulFree(t) && IndexEntry(t, id) in es {
      var i :| 0 <= i < |es| && es[i] == IndexEntry(t, id);
      assert id in IdSet(es);
      EntryIsHeld(es, p, i);
    }
  }

  function FlushedPart(es: seq<IndexEntry>, keys: seq<Str>, ids: seq<Str>): IndexPart
    requires es != []
  {
    IndexPart(0, keys, ids, es[0].token, es[|es| - 1].token)
  }

  /** The token range of a flushed part never hides one of its entries. */
  lemma FlushedRange(es: seq<IndexEntry>, keys: seq<Str>, ids: seq<Str>, i: nat)
    requires SortedEntries(es) && i < |es|
    ensures !Outside(FlushedPart(es, keys, ids), es[i].token)
  {
    var n := |es| - 1;
    LtIrreflexive(es[i].token);
    if i > 0 && Lt(es[0].token, es[i].token) { LtAsymmetric(es[0].token, es[i].token); }
    if i < n && Lt(es[i].token, es[n].token) { LtAsymmetric(es[i].token, es[n].token); }
  }

  /** A part flushed from sorted entries: a lookup of any token finds exactly its data IDs. */
  method FlushPart(es: seq<IndexEntry>) returns (r: Option<IndexPart>)
    requires SortedEntries(es) && es != []
    ensures |IdSet(es)| <= MAX_IDS && NulFreeTokens(es) ==> r.Some?
    ensures |IdSet(es)| > MAX_IDS ==> r.None?
    ensures r.Some? ==> Tabled(r.value) && r.value.level == 0
    ensures r.Some? ==> forall t, id :: Holds(r.value, t, id) <==> NulFree(t) && IndexEntry(t, id) in es
    ensures r.Some? ==> forall t, id :: Holds(r.value, t, id) ==> !Outside(r.value, t)
  {
    hide KeyOfEntry, KeysOf, Holds, Outside, StrictlySorted;
    var ok, keys, ids := BuildIndexFST(es);
    if !ok { return None; }
    var p := FlushedPart(es, keys, ids);
    forall t, id
      ensures Holds(p, t, id) <==> NulFree(t) && IndexEntry(t, id) in es
      ensures Holds(p, t, id) ==> !Outside(p, t)
    {
      BuiltHolds(es, p, t, id);
      if IndexEntry(t, id) in es {
        var i :| 0 <= i < |es| && es[i] == IndexEntry(t, id);
        FlushedRange(es, keys, ids, i);
      }
    }
    r := Some(p);
  }

  /** Keys in order, and an ascending table of at most 65536 IDs. */
  ghost predicate Tabled(p: IndexPart)
  {
    StrictlySorted(p.keys) && StrictlySorted(p.ids) && |p.ids| <= MAX_IDS
  }

  // ---------- compaction ----------

  /** What the compaction iterator makes of one key: nothing, or the key with its new ordinal. */
  function RemapKey(ids: seq<Str>, ord: map<Str, nat>, k: Str): Option<Str>
    requires forall x :: x in ord ==> ord[x] < MAX_IDS
  {
    if ParseKey(k).Some? && 0 <= ParseKey(k).value.1 < |ids| && ids[ParseKey(k).value.1] in ord
    then Some(Key(ParseKey(k).value.0, ord[ids[ParseKey(k).value.1]]))
    else None
  }

  /** Ordinals of a strictly sorted table. */
  ghost predicate OrdinalsOf(ord: map<Str, nat>, unified: seq<Str>)
  {
    && StrictlySorted(unified) && |unified| <= MAX_IDS
    && forall x :: x in ord ==> ord[x] < |unified| && unified[ord[x]] == x
  }

  /** Both tables ascend, so renumbering keeps the order of a part's keys. */
  lemma RemapKeepsOrder(p: IndexPart, unified: seq<Str>, ord: map<Str, nat>, k: Str, l: Str)
    requires Tabled(p) && OrdinalsOf(ord, unified) && Lt(k, l)
    requires RemapKey(p.ids, ord, k).Some? && RemapKey(p.ids, ord, l).Some?
    ensures Lt(RemapKey(p.ids, ord, k).value, RemapKey(p.ids, ord, l).value)
  {
    hide Lt, NulFree, Key;
    KeyOfParsed(k);
    KeyOfParsed(l);
    var (t, i) := ParseKey(k).value;
    var (u, j) := ParseKey(l).value;
    KeyOrder(t, i, u, j);
    SortedPositions(p.ids, i, j);
    var a, b := ord[p.ids[i]], ord[p.ids[j]];
    SortedPositions(unified, a, b);
    KeyOrder(t, a, u, b);
  }

  /** One compaction iterator, run to its end. */
  method RemapPart(p: IndexPart, ghost unified: seq<Str>, ord: map<Str, nat>) returns (out: seq<Str>)
    requires Tabled(p) && OrdinalsOf(ord, unified)
    ensures StrictlySorted(out)
    ensures forall l :: l in out <==> exists k :: k in p.keys && RemapKey(p.ids, ord, k) == Some(l)
  {
    hide RemapKey;
    out := [];
    var i := 0;
    ghost var last := 0;
    while i < |p.keys|
      invariant 0 <= i <= |p.keys| && StrictlySorted(out)
      invariant forall l :: l in out <==> exists k :: k in p.keys[..i] && RemapKey(p.ids, ord, k) == Some(l)
      invariant out != [] ==> 0 <= last < i && RemapKey(p.ids, ord, p.keys[last]) == Some(out[|out| - 1])
    {
      assert p.keys[..i + 1] == p.keys[..i] + [p.keys[i]];
      var r := RemapKey(p.ids, ord, p.keys[i]);
      if r.Some? {
        if out != [] { RemapKeepsOrder(p, unified, ord, p.keys[last], p.keys[i]); }
        ExtendSorted(out, r.value);
        out := out + [r.value];
        last := i;
      }
      i := i + 1;
    }
    assert p.keys[..i] == p.keys;
  }

  /** A pair that some part holds and whose data part is active. */
  ghost predicate Live(parts: seq<IndexPart>, active: set<Str>, t: Str, id: Str)
  {
    id in active && exists i :: 0 <= i < |parts| && Holds(parts[i], t, id)
  }

  ghost predicate AllTabled(parts: seq<IndexPart>) { forall i :: 0 <= i < |parts| ==> Tabled(parts[i]) }

  function ActiveIds(parts: seq<IndexPart>, active: set<Str>): set<Str>
  {
    set i, j | 0 <= i < |parts| && 0 <= j < |parts[i].ids| && parts[i].ids[j] in active :: parts[i].ids[j]
  }

  /** The union of what the iterators yield, in order: the merged key set. */
  ghost predicate Merged(keys: seq<Str>, parts: seq<IndexPart>, ord: map<Str, nat>)
    requires forall x :: x in ord ==> ord[x] < MAX_IDS
  {
    forall l :: l in keys <==> exists i :: 0 <= i < |parts| && Yields(parts[i], ord, l)
  }

  ghost predicate Yields(p: IndexPart, ord: map<Str, nat>, l: Str)
    requires forall x :: x in ord ==> ord[x] < MAX_IDS
  {
    exists k :: k in p.keys && RemapKey(p.ids, ord, k) == Some(l)
  }

  lemma YieldsHeld(p: IndexPart, unified: seq<Str>, ord: map<Str, nat>, l: Str, t: Str, id: Str)
    requires OrdinalsOf(ord, unified) && Yields(p, ord, l) && KeyMeans(unified, l, t, id)
    ensures id in ord && Holds(p, t, id)
  {
    var k :| k in p.keys && RemapKey(p.ids, ord, k) == Some(l);
    KeyOfParsed(k);
    var (u, o) := ParseKey(k).value;
    ParseKeyOfKey(u, ord[p.ids[o]]);
    assert KeyMeans(p.ids, k, t, id);
  }

  lemma HeldYields(p: IndexPart, unified: seq<Str>, ord: map<Str, nat>, t: Str, id: Str) returns (l: Str)
    requires OrdinalsOf(ord, unified) && id in ord && Holds(p, t, id)
    ensures Yields(p, ord, l) && KeyMeans(unified, l, t, id)
  {
    var k :| k in p.keys && KeyMeans(p.ids, k, t, id);
    KeyOfParsed(k);
    l := Key(t, ord[id]);
    ParseKeyOfKey(t, ord[id]);
    assert RemapKey(p.ids, ord, k) == Some(l);
  }

  /** The compacted part holds exactly the live pairs of the parts it replaces. */
  lemma CompactedHolds(parts: seq<IndexPart>, active: set<Str>, ord: map<Str, nat>, c: IndexPart, t: Str, id: Str)
    requires OrdinalsOf(ord, c.ids) && Merged(c.keys, parts, ord)
    requires forall x :: x in ord <==> x in ActiveIds(parts, active)
    ensures Holds(c, t, id) <==> Live(parts, active, t, id)
  {
    hide Yields, StrictlySorted;
    if Holds(c, t, id) {
      var l :| l in c.keys && KeyMeans(c.ids, l, t, id);
      var i :| 0 <= i < |parts| && Yields(parts[i], ord, l);
      YieldsHeld(parts[i], c.ids, ord, l, t, id);
    }
    if Live(parts, active, t, id) {
      var i :| 0 <= i < |parts| && Holds(parts[i], t, id);
      HeldIsActive(parts, active, i, t, id);
      var l := HeldYields(parts[i], c.ids, ord, t, id);
      assert l in c.keys;
    }
  }

  lemma HeldIsActive(parts: seq<IndexPart>, active: set<Str>, i: nat, t: Str, id: Str)
    requires i < |parts| && Holds(parts[i], t, id) && id in active
    ensures id in ActiveIds(parts, active)
  {
    var k :| k in parts[i].keys && KeyMeans(parts[i].ids, k, t, id);
    assert parts[i].ids[ParseKey(k).value.1] == id;
  }

  /** The compaction names its range by its first and last whole keys. */
  function CompactedPart(keys: seq<Str>, ids: seq<Str>): IndexPart
  {
    IndexPart(1, keys, ids, if keys == [] then [] else keys[0], if keys == [] then [] else keys[|keys| - 1])
  }

  ghost predicate AllParse(p: IndexPart) { forall k :: k in p.keys ==> ParseKey(k).Some? && 0 <= ParseKey(k).value.1 < |p.ids| }

  /** No token below t has a live pair. */
  ghost predicate Least(parts: seq<IndexPart>, active: set<Str>, t: Str)
  {
    forall u: Str, id: Str :: Live(parts, active, u, id) ==> !Lt(u, t)
  }

  lemma KeyIsHeld(c: IndexPart, i: nat)
    requires AllParse(c) && i < |c.keys|
    ensures NulFree(ParseKey(c.keys[i]).value.0) && 0 <= ParseKey(c.keys[i]).value.1 < MAX_IDS
    ensures c.keys[i] == Key(ParseKey(c.keys[i]).value.0, ParseKey(c.keys[i]).value.1)
    ensures Holds(c, ParseKey(c.keys[i]).value.0, c.ids[ParseKey(c.keys[i]).value.1])
  {
    var k := c.keys[i];
    KeyOfParsed(k);
    assert KeyMeans(c.ids, k, ParseKey(k).value.0, c.ids[ParseKey(k).value.1]);
  }

  /**
   A token of a compacted part falls outside the part's own range exactly when it is the
   part's least token: a bare token sorts before every key that starts with it.
   */
  lemma HeldOutsideIffFirst(c: IndexPart, t: Str, id: Str)
    requires c == CompactedPart(c.keys, c.ids) && AllParse(c) && StrictlySorted(c.keys) && Holds(c, t, id)
    ensures c.keys != [] && ParseKey(c.keys[0]).Some?
    ensures Outside(c, t) <==> t == ParseKey(c.keys[0]).value.0
  {
    var k :| k in c.keys && KeyMeans(c.ids, k, t, id);
    var j :| 0 <= j < |c.keys| && c.keys[j] == k;
    var n := |c.keys| - 1;
    KeyIsHeld(c, 0);
    KeyIsHeld(c, j);
    KeyIsHeld(c, n);
    var (u, o) := ParseKey(c.keys[0]).value;
    var (w, q) := ParseKey(c.keys[n]).value;
    var (_, r) := ParseKey(c.keys[j]).value;
    TokenBelowKey(t, u, OrdBytes(o));
    TokenBelowKey(t, w, OrdBytes(q));
    KeyOrder(u, o, t, r);
    KeyOrder(t, r, w, q);
    assert !Lt(t, u) by { if Lt(t, u) { LtAsymmetric(t, u); } }
    assert !Lt(w, t) by { if Lt(w, t) { LtAsymmetric(w, t); } }
  }

  /** Seen from the parts before: the token that is lost is the least live one. */
  lemma HiddenIffLeast(parts: seq<IndexPart>, active: set<Str>, c: IndexPart, t: Str, id: Str)
    requires c == CompactedPart(c.keys, c.ids) && AllParse(c) && StrictlySorted(c.keys)
    requires forall u, x :: Holds(c, u, x) <==> Live(parts, active, u, x)
    requires Live(parts, active, t, id)
    ensures Outside(c, t) <==> Least(parts, active, t)
  {
    HeldOutsideIffFirst(c, t, id);
    KeyIsHeld(c, 0);
    var (u, o) := ParseKey(c.keys[0]).value;
    assert Live(parts, active, u, c.ids[o]);
    forall v: Str, x: Str | Live(parts, active, v, x) ensures !Lt(v, u) { NotBelowFirst(c, v, x); }
    if t != u { LtTotal(t, u); NotBelowFirst(c, t, id); }
  }

  lemma NotBelowFirst(c: IndexPart, v: Str, x: Str)
    requires AllParse(c) && StrictlySorted(c.keys) && Holds(c, v, x)
    ensures c.keys != [] && ParseKey(c.keys[0]).Some? && !Lt(v, ParseKey(c.keys[0]).value.0)
  {
    var k :| k in c.keys && KeyMeans(c.ids, k, v, x);
    var j :| 0 <= j < |c.keys| && c.keys[j] == k;
    KeyIsHeld(c, 0);
    KeyIsHeld(c, j);
    var (u, o) := ParseKey(c.keys[0]).value;
    var (_, r) := ParseKey(c.keys[j]).value;
    KeyOrder(u, o, v, r);
    assert !Lt(v, u) by { if Lt(v, u) { LtAsymmetric(v, u); } }
  }

  lemma YieldParses(p: IndexPart, unified: seq<Str>, ord: map<Str, nat>, l: Str)
    requires OrdinalsOf(ord, unified) && Yields(p, ord, l)
    ensures ParseKey(l).Some? && 0 <= ParseKey(l).value.1 < |unified|
  {
    var k :| k in p.keys && RemapKey(p.ids, ord, k) == Some(l);
    KeyOfParsed(k);
    ParseKeyOfKey(ParseKey(k).value.0, ord[p.ids[ParseKey(k).value.1]]);
  }

  /** Runs every iterator and merges what they yield. */
  method MergeKeys(parts: seq<IndexPart>, ghost unified: seq<Str>, ord: map<Str, nat>) returns (keys: seq<Str>)
    requires AllTabled(parts) && OrdinalsOf(ord, unified)
    ensures StrictlySorted(keys) && Merged(keys, parts, ord)
  {
    hide StrictlySorted, RemapKey;
    var all: set<Str> := {};
    var i := 0;
    while i < |parts|
      invariant 0 <= i <= |parts|
      invariant forall l :: l in all <==> exists j :: 0 <= j < i && Yields(parts[j], ord, l)
    {
      var out := RemapPart(parts[i], unified, ord);
      ghost var before := all;
      all := all + (set l | l in out);
      assert forall l :: l in out <==> Yields(parts[i], ord, l);
      i := i + 1;
    }
    keys := SortIds(all);
  }

  /**
   Compaction of the level-0 parts. The new part holds exactly the live pairs, but a
   lookup skips it for the least live token.
   */
  method Compact(parts: seq<IndexPart>, active: set<Str>) returns (r: Option<IndexPart>)
    requires AllTabled(parts)
    ensures r.None? <==> |ActiveIds(parts, active)| > MAX_IDS
    ensures r.Some? ==> Tabled(r.value) && r.value.level == 1
    ensures r.Some? ==> forall t, id :: Holds(r.value, t, id) <==> Live(parts, active, t, id)
    ensures r.Some? ==> forall t, id :: Live(parts, active, t, id) ==> (Outside(r.value, t) <==> Least(parts, active, t))
  {
    hide Live, Holds, Yields, Least, Outside, RemapKey, StrictlySorted;
    var ids := SortIds(ActiveIds(parts, active));
    if |ids| > MAX_IDS { return None; }
    var ord := Ordinals(ids);
    OrdinalsAre(ids, ord);
    var keys := MergeKeys(parts, ids, ord);
    var c := CompactedPart(keys, ids);
    forall k | k in keys ensures ParseKey(k).Some? && 0 <= ParseKey(k).value.1 < |ids| {
      var i :| 0 <= i < |parts| && Yields(parts[i], ord, k);
      YieldParses(parts[i], ids, ord, k);
    }
    forall t, id ensures Holds(c, t, id) <==> Live(parts, active, t, id) {
      CompactedHolds(parts, active, ord, c, t, id);
    }
    forall t, id | Live(parts, active, t, id) ensures Outside(c, t) <==> Least(parts, active, t) {
      HiddenIffLeast(parts, active, c, t, id);
    }
    r := Some(c);
  }

  lemma OrdinalsAre(ids: seq<Str>, ord: map<Str, nat>)
    requires StrictlySorted(ids) && |ids| <= MAX_IDS
    requires forall x :: x in ord <==> x in ids
    requires forall i :: 0 <= i < |ids| ==> ids[i] in ord && ord[ids[i]] == i
    ensures OrdinalsOf(ord, ids)
  {
    forall x | x in ord ensures ord[x] < |ids| && ids[ord[x]] == x {
      var i :| 0 <= i < |ids| && ids[i] == x;
    }
  }
}
