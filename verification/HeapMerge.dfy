/**
 The streaming merge of part files: one cursor per part in a binary heap ordered by
 (timestamp, part, block, row); the least one is emitted and advanced in place.
 */
module HeapMerge {
  import opened Prelude

  type Part = seq<seq<Entry>> // the rows of each block

  datatype Cursor = Cursor(ts: int, part: nat, block: nat, idx: nat)

  predicate Less(a: Cursor, b: Cursor)
  {
    if a.ts != b.ts then a.ts < b.ts
    else if a.part != b.part then a.part < b.part
    else if a.block != b.block then a.block < b.block
    else a.idx < b.idx
  }

  // ---------- cursors ----------

  /** Position order inside one part. */
  predicate Earlier(a: Cursor, b: Cursor)
  {
    a.part == b.part && (a.block < b.block || (a.block == b.block && a.idx < b.idx))
  }

  predicate InPart(parts: seq<Part>, c: Cursor)
  {
    && c.part < |parts| && c.block < |parts[c.part]| && c.idx < |parts[c.part][c.block]|
    && c.ts == parts[c.part][c.block][c.idx].ts
  }

  /** A row the merge can get to: no block up to its own is empty. */
  predicate Reachable(parts: seq<Part>, c: Cursor)
  {
    InPart(parts, c) && forall b :: 0 <= b < c.block ==> parts[c.part][b] != []
  }

  function NextCursor(parts: seq<Part>, part: nat, block: nat): Option<Cursor>
    requires part < |parts| && block < |parts[part]|
  {
    var rows := parts[part][block];
    if rows == [] then None else Some(Cursor(rows[0].ts, part, block, 0))
  }

  function Advance(parts: seq<Part>, c: Cursor): Option<Cursor>
    requires InPart(parts, c)
  {
    var rows := parts[c.part][c.block];
    if c.idx + 1 < |rows| then Some(c.(idx := c.idx + 1, ts := rows[c.idx + 1].ts))
    else if c.block + 1 >= |parts[c.part]| then None
    else NextCursor(parts, c.part, c.block + 1)
  }

  /** Advancing goes to the next reachable row of the part, or ends after the last one. */
  lemma AdvanceIsNext(parts: seq<Part>, c: Cursor, d: Cursor)
    requires Reachable(parts, c) && Reachable(parts, d) && Earlier(c, d)
    ensures Advance(parts, c).Some?
    ensures var e := Advance(parts, c).value;
            Reachable(parts, e) && Earlier(c, e) && (d == e || Earlier(e, d))
  {
  }

  lemma AdvanceStays(parts: seq<Part>, c: Cursor)
    requires Reachable(parts, c) && Advance(parts, c).Some?
    ensures var e := Advance(parts, c).value;
            Reachable(parts, e) && Earlier(c, e)
  {
  }

  // ---------- the heap ----------

  function Parent(k: nat): nat requires k > 0 { (k - 1) / 2 }

  /** The heap order for all nodes whose parent is at `lo` or later. */
  ghost predicate HeapFrom(h: seq<Cursor>, lo: nat, n: nat)
  {
    n <= |h| && forall k: nat :: 0 < k < n && Parent(k) >= lo ==> !Less(h[k], h[Parent(k)])
  }

  lemma LessTransitive(a: Cursor, b: Cursor, c: Cursor)
    requires !Less(b, a) && !Less(c, b)
    ensures !Less(c, a)
  {
  }

  lemma {:induction false} RootIsLeast(h: seq<Cursor>, k: nat)
    requires HeapFrom(h, 0, |h|) && k < |h|
    ensures !Less(h[k], h[0])
  {
    if k > 0 {
      RootIsLeast(h, Parent(k));
      LessTransitive(h[0], h[Parent(k)], h[k]);
    }
  }

  function Swap(h: seq<Cursor>, i: nat, j: nat): (g: seq<Cursor>)
    requires i < |h| && j < |h|
    ensures |g| == |h| && g[i] == h[j] && g[j] == h[i]
    ensures forall k :: 0 <= k < |h| && k != i && k != j ==> g[k] == h[k]
    ensures multiset(g) == multiset(h)
  {
    h[i := h[j]][j := h[i]]
  }

  /** The loop state of Down: the order holds everywhere but below node `i`. */
  ghost predicate Sifting(h: seq<Cursor>, i0: nat, i: nat, n: nat)
  {
    && i0 <= i < n <= |h|
    && (forall k: nat :: 0 < k < n && Parent(k) >= i0 && Parent(k) != i ==> !Less(h[k], h[Parent(k)]))
    && (i > i0 ==> Parent(i) >= i0 && forall k: nat :: 0 < k < n && Parent(k) == i ==> !Less(h[k], h[Parent(i)]))
  }

  lemma SiftStep(h: seq<Cursor>, i0: nat, i: nat, j: nat, n: nat)
    requires Sifting(h, i0, i, n) && j < n && (j == 2 * i + 1 || j == 2 * i + 2) && Less(h[j], h[i])
    requires forall k: nat :: 0 < k < n && Parent(k) == i ==> !Less(h[k], h[j])
    ensures Sifting(Swap(h, i, j), i0, j, n)
  {
    var g := Swap(h, i, j);
    forall k: nat | 0 < k < n && Parent(k) >= i0 && Parent(k) != j ensures !Less(g[k], g[Parent(k)]) {
      if k == i {
        assert Parent(j) == i;
      } else if Parent(k) != i {
        assert k != j;
      }
    }
  }

  lemma SiftDone(h: seq<Cursor>, i0: nat, i: nat, n: nat)
    requires Sifting(h, i0, i, n)
    requires forall k: nat :: 0 < k < n && Parent(k) == i ==> !Less(h[k], h[i])
    ensures HeapFrom(h, i0, n)
  {
  }

  /** Sifts node `i0` down within the first `n` nodes. */
  method Down(h0: seq<Cursor>, i0: nat, n: nat) returns (h: seq<Cursor>)
    requires i0 < n && HeapFrom(h0, i0 + 1, n)
    ensures multiset(h) == multiset(h0) && |h| == |h0|
    ensures h[n..] == h0[n..]
    ensures HeapFrom(h, i0, n)
  {
    h := h0;
    var i := i0;
    while true
      invariant Sifting(h, i0, i, n)
      invariant |h| == |h0| && multiset(h) == multiset(h0) && h[n..] == h0[n..]
      decreases n - i
    {
      var j := 2 * i + 1;
      if j >= n { break; }
      if j + 1 < n && Less(h[j + 1], h[j]) { j := j + 1; }
      if !Less(h[j], h[i]) { break; }
      SiftStep(h, i0, i, j, n);
      h := Swap(h, i, j);
      i := j;
    }
    SiftDone(h, i0, i, n);
  }

  /** heap.Init: sifts every inner node, the last one first. */
  method Init(h0: seq<Cursor>) returns (h: seq<Cursor>)
    ensures multiset(h) == multiset(h0) && |h| == |h0| && HeapFrom(h, 0, |h|)
  {
    h := h0;
    var i := |h| / 2;
    while i > 0
      invariant 0 <= i <= |h| / 2 && |h| == |h0| && multiset(h) == multiset(h0)
      invariant HeapFrom(h, i, |h|)
    {
      i := i - 1;
      h := Down(h, i, |h|);
    }
  }

  /** heap.Fix at the root after it was overwritten by `e`. */
  method FixRoot(h0: seq<Cursor>, e: Cursor) returns (h: seq<Cursor>)
    requires h0 != [] && HeapFrom(h0, 0, |h0|)
    ensures multiset(h) == multiset(h0) - multiset{h0[0]} + multiset{e}
    ensures |h| == |h0| && HeapFrom(h, 0, |h|)
  {
    var g := h0[0 := e];
    assert multiset(g) == multiset(h0) - multiset{h0[0]} + multiset{e};
    h := Down(g, 0, |g|);
  }

  /** heap.Pop: the last node takes the root's place and is sifted down. */
  method PopRoot(h0: seq<Cursor>) returns (h: seq<Cursor>)
    requires h0 != [] && HeapFrom(h0, 0, |h0|)
    ensures multiset(h) == multiset(h0) - multiset{h0[0]}
    ensures |h| == |h0| - 1 && HeapFrom(h, 0, |h|)
  {
    var n := |h0| - 1;
    var g := Swap(h0, 0, n);
    SwappedHeap(h0);
    hide HeapFrom, Less;
    if n > 0 { g := Down(g, 0, n); }
    DropLast(g, h0[0]);
    h := g[..n];
    HeapShrinks(g, n);
  }

  lemma SwappedHeap(h: seq<Cursor>)
    requires h != [] && HeapFrom(h, 0, |h|)
    ensures HeapFrom(Swap(h, 0, |h| - 1), 1, |h| - 1)
    ensures |h| == 1 ==> HeapFrom(Swap(h, 0, 0), 0, 0)
  {
  }

  lemma HeapShrinks(h: seq<Cursor>, n: nat)
    requires HeapFrom(h, 0, n)
    ensures HeapFrom(h[..n], 0, n)
  {
  }

  lemma DropLast(g: seq<Cursor>, x: Cursor)
    requires g != [] && g[|g| - 1..] == [x]
    ensures multiset(g[..|g| - 1]) == multiset(g) - multiset{x}
  {
    assert g == g[..|g| - 1] + g[|g| - 1..];
  }

  // ---------- what is still to come ----------

  /** At most one cursor per part. */
  ghost predicate Heads(parts: seq<Part>, m: multiset<Cursor>)
  {
    && (forall c :: c in m ==> m[c] == 1 && Reachable(parts, c))
    && (forall c, d :: c in m && d in m && c.part == d.part ==> c == d)
  }

  /** Row `d` is at or after the cursor of its part. */
  ghost predicate Left(m: multiset<Cursor>, d: Cursor)
  {
    exists c :: c in m && c.part == d.part && !Earlier(d, c)
  }

  function Moved(parts: seq<Part>, m: multiset<Cursor>, c: Cursor): multiset<Cursor>
    requires InPart(parts, c)
  {
    var e := Advance(parts, c);
    if e.Some? then m - multiset{c} + multiset{e.value} else m - multiset{c}
  }

  lemma MovedHeads(parts: seq<Part>, m: multiset<Cursor>, c: Cursor)
    requires Heads(parts, m) && c in m
    ensures Heads(parts, Moved(parts, m, c))
  {
    var m' := Moved(parts, m, c);
    if Advance(parts, c).Some? { AdvanceStays(parts, c); }
    forall x | x in m' ensures (x in m && x != c) || Advance(parts, c) == Some(x) {}
  }

  lemma MovedElsewhere(parts: seq<Part>, m: multiset<Cursor>, c: Cursor, d: Cursor)
    requires Reachable(parts, c) && d.part != c.part
    ensures Left(Moved(parts, m, c), d) <==> Left(m, d)
  {
    if Advance(parts, c).Some? { AdvanceStays(parts, c); }
    hide Reachable, Less, Advance, Earlier;
    assert forall x: Cursor :: x.part == d.part ==> (x in Moved(parts, m, c) <==> x in m);
  }

  /** Emitting the cursor of a part takes exactly that row from what is left. */
  lemma MovedLeft(parts: seq<Part>, m: multiset<Cursor>, c: Cursor, d: Cursor)
    requires Heads(parts, m) && c in m && Reachable(parts, d)
    ensures Left(Moved(parts, m, c), d) <==> Left(m, d) && d != c
  {
    if d.part != c.part {
      MovedElsewhere(parts, m, c, d);
    } else {
      var m' := Moved(parts, m, c);
      var e := Advance(parts, c);
      assert Left(m, d) <==> !Earlier(d, c);
      assert forall x: Cursor :: x in m' && x.part == c.part ==> e == Some(x);
      if e.Some? {
        AdvanceStays(parts, c);
        assert e.value in m';
      }
      if Earlier(c, d) { AdvanceIsNext(parts, c, d); }
    }
  }

  ghost predicate TimeSorted(parts: seq<Part>)
  {
    forall c, d :: Reachable(parts, c) && Reachable(parts, d) && Earlier(c, d) ==> c.ts <= d.ts
  }

  /** The root precedes every other row that is left, if each part is sorted by time. */
  lemma RootPrecedes(parts: seq<Part>, h: seq<Cursor>, d: Cursor)
    requires h != [] && HeapFrom(h, 0, |h|) && Heads(parts, multiset(h))
    requires TimeSorted(parts) && Reachable(parts, d) && Left(multiset(h), d) && d != h[0]
    ensures Less(h[0], d)
  {
    var c :| c in multiset(h) && c.part == d.part && !Earlier(d, c);
    var k :| 0 <= k < |h| && h[k] == c;
    RootIsLeast(h, k);
    if c != d {
      assert Earlier(c, d);
      assert Less(c, d);
    }
  }

  // ---------- the merge ----------

  function AllRows(parts: seq<Part>): set<Cursor>
  {
    set p, b, i | 0 <= p < |parts| && 0 <= b < |parts[p]| && 0 <= i < |parts[p][b]|
      :: Cursor(parts[p][b][i].ts, p, b, i)
  }

  ghost predicate NoDup(xs: seq<Cursor>) { forall i, j :: 0 <= i < j < |xs| ==> xs[i] != xs[j] }

  lemma {:induction false} NoDupBounded(xs: seq<Cursor>, all: set<Cursor>)
    requires NoDup(xs) && forall x :: x in xs ==> x in all
    ensures |xs| <= |all|
  {
    if xs != [] {
      var n := |xs| - 1;
      NoDupBounded(xs[..n], all - {xs[n]});
    }
  }

  /** Emitted so far: each reachable row that is not left, once. */
  ghost predicate Covered(parts: seq<Part>, m: multiset<Cursor>, out: seq<Cursor>)
  {
    && (forall d :: d in out ==> Reachable(parts, d))
    && (forall d :: Reachable(parts, d) ==> (d in out <==> !Left(m, d)))
    && NoDup(out)
  }

  /** ... and in order, all of it before what is left. */
  ghost predicate Ordered(parts: seq<Part>, m: multiset<Cursor>, out: seq<Cursor>)
  {
    && (forall i, j :: 0 <= i < j < |out| ==> Less(out[i], out[j]))
    && (forall o, d :: o in out && Reachable(parts, d) && Left(m, d) ==> Less(o, d))
  }

  lemma EmitCovered(parts: seq<Part>, m: multiset<Cursor>, c: Cursor, out: seq<Cursor>)
    requires c in m && Heads(parts, m) && Covered(parts, m, out)
    ensures Covered(parts, Moved(parts, m, c), out + [c])
  {
    var m' := Moved(parts, m, c);
    assert Left(m, c) && Reachable(parts, c);
    forall d | Reachable(parts, d) ensures Left(m', d) <==> Left(m, d) && d != c { MovedLeft(parts, m, c, d); }
    hide Left, Reachable, Moved, Heads;
    assert c !in out;
  }

  lemma EmitOrdered(parts: seq<Part>, h: seq<Cursor>, out: seq<Cursor>)
    requires h != [] && HeapFrom(h, 0, |h|) && Heads(parts, multiset(h))
    requires TimeSorted(parts) && Ordered(parts, multiset(h), out)
    ensures Ordered(parts, Moved(parts, multiset(h), h[0]), out + [h[0]])
  {
    var m, c := multiset(h), h[0];
    var m' := Moved(parts, m, c);
    assert c in m && Left(m, c);
    forall d | Reachable(parts, d) && Left(m', d) ensures Left(m, d) && Less(c, d) {
      MovedLeft(parts, m, c, d);
      RootPrecedes(parts, h, d);
    }
    hide Left, Reachable, Moved, Heads, HeapFrom, TimeSorted, Less;
    forall o, d | o in out + [c] && Reachable(parts, d) && Left(m', d) ensures Less(o, d) {}
  }

  lemma AddHead(parts: seq<Part>, m: multiset<Cursor>, c: Cursor)
    requires Heads(parts, m) && forall x :: x in m ==> x.part < c.part
    requires Reachable(parts, c) && c.block == 0 && c.idx == 0
    ensures Heads(parts, m + multiset{c})
    ensures forall d :: Reachable(parts, d) && (Left(m, d) || d.part == c.part) ==> Left(m + multiset{c}, d)
  {
    var m' := m + multiset{c};
    assert c in m' && forall x :: x in m' <==> x in m || x == c;
    forall d | Reachable(parts, d) && (Left(m, d) || d.part == c.part) ensures Left(m', d) {
      if Left(m, d) {
        var x :| x in m && x.part == d.part && !Earlier(d, x);
        assert x in m';
      } else {
        assert !Earlier(d, c);
      }
    }
  }

  method FirstCursors(parts: seq<Part>) returns (h: seq<Cursor>)
    ensures Heads(parts, multiset(h))
    ensures forall d :: Reachable(parts, d) ==> Left(multiset(h), d)
  {
    hide Left;
    h := [];
    var i := 0;
    while i < |parts|
      invariant 0 <= i <= |parts|
      invariant Heads(parts, multiset(h)) && forall c :: c in h ==> c.part < i
      invariant forall d :: Reachable(parts, d) && d.part < i ==> Left(multiset(h), d)
    {
      if parts[i] != [] {
        var c := NextCursor(parts, i, 0);
        if c.Some? {
          AddHead(parts, multiset(h), c.value);
          assert multiset(h + [c.value]) == multiset(h) + multiset{c.value};
          h := h + [c.value];
        }
      }
      i := i + 1;
    }
  }

  /**
   Emits every reachable row of every part exactly once, for any parts; if each part is
   sorted by time the rows come out in the order of (timestamp, part, block, row).
   */
  method MergeParts(parts: seq<Part>) returns (out: seq<Cursor>)
    ensures NoDup(out)
    ensures forall d :: d in out <==> Reachable(parts, d)
    ensures TimeSorted(parts) ==> forall i, j :: 0 <= i < j < |out| ==> Less(out[i], out[j])
  {
    var h := FirstCursors(parts);
    h := Init(h);
    out := [];
    ghost var all := AllRows(parts);
    while h != []
      invariant HeapFrom(h, 0, |h|) && Heads(parts, multiset(h)) && Covered(parts, multiset(h), out)
      invariant TimeSorted(parts) ==> Ordered(parts, multiset(h), out)
      decreases |all| - |out|
    {
      var c := h[0];
      assert c in multiset(h);
      EmitCovered(parts, multiset(h), c, out);
      if TimeSorted(parts) { EmitOrdered(parts, h, out); }
      MovedHeads(parts, multiset(h), c);
      NoDupBounded(out + [c], all);
      out := out + [c];
      var next := Advance(parts, c);
      if next.Some? { h := FixRoot(h, next.value); } else { h := PopRoot(h); }
    }
    assert forall d :: !Left(multiset(h), d);
  }

  /** Every row is reachable exactly when no empty block precedes a non-empty one. */
  lemma AllReachableIffNoEmptyBlockBefore(parts: seq<Part>)
    ensures (forall c :: InPart(parts, c) ==> Reachable(parts, c))
            <==> forall p, a, b :: 0 <= p < |parts| && 0 <= a < b < |parts[p]| && parts[p][a] == [] ==> parts[p][b] == []
  {
    forall p, a, b | 0 <= p < |parts| && 0 <= a < b < |parts[p]| && parts[p][a] == [] && parts[p][b] != []
      ensures exists c :: InPart(parts, c) && !Reachable(parts, c)
    {
      var c := Cursor(parts[p][b][0].ts, p, b, 0);
      assert InPart(parts, c) && !Reachable(parts, c);
    }
  }
}
