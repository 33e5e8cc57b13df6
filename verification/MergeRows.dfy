/** The rows of a merge, as a bag: exactly the rows of the parts that were merged. */
module MergeRows {
  import opened Prelude
  import opened HeapMerge

  function RowAt(parts: seq<Part>, c: Cursor): Entry
    requires InPart(parts, c)
  {
    parts[c.part][c.block][c.idx]
  }

  ghost predicate AllIn(parts: seq<Part>, cs: seq<Cursor>) { forall i :: 0 <= i < |cs| ==> InPart(parts, cs[i]) }

  /** The entries the merge yields for its cursors. */
  function Rows(parts: seq<Part>, cs: seq<Cursor>): (r: seq<Entry>)
    requires AllIn(parts, cs)
    ensures |r| == |cs| && forall i :: 0 <= i < |cs| ==> r[i] == RowAt(parts, cs[i])
  {
    seq(|cs|, i requires 0 <= i < |cs| => RowAt(parts, cs[i]))
  }

  function FlatParts(parts: seq<Part>): seq<Entry>
  {
    if parts == [] then [] else FlatParts(parts[..|parts| - 1]) + Concat(parts[|parts| - 1])
  }

  // ---------- all positions, in storage order ----------

  function BlockPositions(rows: seq<Entry>, p: nat, b: nat): seq<Cursor>
  {
    seq(|rows|, i requires 0 <= i < |rows| => Cursor(rows[i].ts, p, b, i))
  }

  function PartPositions(part: Part, p: nat): seq<Cursor>
  {
    if part == [] then []
    else PartPositions(part[..|part| - 1], p) + BlockPositions(part[|part| - 1], p, |part| - 1)
  }

  function Positions(parts: seq<Part>): seq<Cursor>
  {
    if parts == [] then []
    else Positions(parts[..|parts| - 1]) + PartPositions(parts[|parts| - 1], |parts| - 1)
  }

  predicate InBlocks(part: Part, p: nat, c: Cursor)
  {
    c.part == p && c.block < |part| && c.idx < |part[c.block]| && c.ts == part[c.block][c.idx].ts
  }

  lemma {:induction false} PartPositionsAre(part: Part, p: nat)
    ensures NoDup(PartPositions(part, p))
    ensures forall c :: c in PartPositions(part, p) <==> InBlocks(part, p, c)
  {
    if part != [] {
      var n := |part| - 1;
      var front, last := PartPositions(part[..n], p), BlockPositions(part[n], p, n);
      PartPositionsAre(part[..n], p);
      assert forall c :: c in last <==> InBlocks(part, p, c) && c.block == n by {
        forall c | InBlocks(part, p, c) && c.block == n ensures c in last { assert last[c.idx] == c; }
      }
      assert forall c :: c in front ==> c.block < n;
      forall i | 0 <= i < |front| ensures front[i].block < n { assert front[i] in front; }
    }
  }

  lemma {:induction false} PositionsAre(parts: seq<Part>)
    ensures NoDup(Positions(parts))
    ensures forall c :: c in Positions(parts) <==> InPart(parts, c)
  {
    if parts != [] {
      var n := |parts| - 1;
      var front, last := Positions(parts[..n]), PartPositions(parts[n], n);
      PositionsAre(parts[..n]);
      PartPositionsAre(parts[n], n);
      forall i | 0 <= i < |front| ensures front[i].part < n { assert front[i] in front; }
      forall i | 0 <= i < |last| ensures last[i].part == n { assert last[i] in last; }
      forall c ensures InPart(parts, c) <==> InPart(parts[..n], c) || InBlocks(parts[n], n, c) {}
    }
  }

  lemma RowsAppend(parts: seq<Part>, a: seq<Cursor>, b: seq<Cursor>)
    requires AllIn(parts, a) && AllIn(parts, b)
    ensures AllIn(parts, a + b) && Rows(parts, a + b) == Rows(parts, a) + Rows(parts, b)
  {
  }

  lemma {:induction false} PartPositionsRows(parts: seq<Part>, p: nat, n: nat)
    requires p < |parts| && n <= |parts[p]|
    ensures AllIn(parts, PartPositions(parts[p][..n], p))
    ensures Rows(parts, PartPositions(parts[p][..n], p)) == Concat(parts[p][..n])
  {
    if n > 0 {
      PartPositionsRows(parts, p, n - 1);
      var part := parts[p][..n];
      assert part[..n - 1] == parts[p][..n - 1];
      var last := BlockPositions(part[n - 1], p, n - 1);
      assert AllIn(parts, last) && Rows(parts, last) == part[n - 1];
      RowsAppend(parts, PartPositions(part[..n - 1], p), last);
    }
  }

  lemma {:induction false} PositionsRows(parts: seq<Part>, n: nat)
    requires n <= |parts|
    ensures AllIn(parts, Positions(parts[..n]))
    ensures Rows(parts, Positions(parts[..n])) == FlatParts(parts[..n])
  {
    if n > 0 {
      PositionsRows(parts, n - 1);
      assert parts[..n][..n - 1] == parts[..n - 1];
      assert parts[n - 1][..|parts[n - 1]|] == parts[n - 1];
      PartPositionsRows(parts, n - 1, |parts[n - 1]|);
      RowsAppend(parts, Positions(parts[..n - 1]), PartPositions(parts[n - 1], n - 1));
    }
  }

  // ---------- bags ----------

  lemma {:induction false} NoDupCount(xs: seq<Cursor>, x: Cursor)
    requires NoDup(xs)
    ensures multiset(xs)[x] == if x in xs then 1 else 0
  {
    if xs != [] {
      var n := |xs| - 1;
      NoDupCount(xs[..n], x);
      assert xs == xs[..n] + [xs[n]];
    }
  }

  lemma SameElementsSameBag(a: seq<Cursor>, b: seq<Cursor>)
    requires NoDup(a) && NoDup(b) && forall x :: x in a <==> x in b
    ensures multiset(a) == multiset(b)
  {
    forall x ensures multiset(a)[x] == multiset(b)[x] {
      NoDupCount(a, x);
      NoDupCount(b, x);
    }
  }

  lemma RemoveOne(a: seq<Cursor>, x: Cursor, c: seq<Cursor>, d: seq<Cursor>)
    requires multiset(a + [x]) == multiset(c + [x] + d)
    ensures multiset(a) == multiset(c + d)
  {
    assert multiset(a) == multiset(a + [x]) - multiset{x};
    assert multiset(c + d) == multiset(c + [x] + d) - multiset{x};
  }

  lemma {:induction false} RowsBag(parts: seq<Part>, a: seq<Cursor>, b: seq<Cursor>)
    requires AllIn(parts, a) && AllIn(parts, b) && multiset(a) == multiset(b)
    ensures multiset(Rows(parts, a)) == multiset(Rows(parts, b))
  {
    hide InPart, RowAt;
    if a == [] {
      assert |multiset(b)| == 0 && b == [];
    } else {
      var n := |a| - 1;
      var x := a[n];
      var j := IndexIn(b, x, a);
      var front, c, d := a[..n], b[..j], b[j + 1..];
      assert a == front + [x] && b == c + [x] + d;
      RemoveOne(front, x, c, d);
      SplitRows(parts, c, x, d);
      SplitRows(parts, front, x, []);
      assert front + [x] + [] == a && front + [] == front;
      RowsBag(parts, front, c + d);
    }
  }

  lemma IndexIn(b: seq<Cursor>, x: Cursor, a: seq<Cursor>) returns (j: nat)
    requires x in a && multiset(a) == multiset(b)
    ensures j < |b| && b[j] == x
  {
    assert x in multiset(b);
    j :| j < |b| && b[j] == x;
  }

  lemma SplitRows(parts: seq<Part>, c: seq<Cursor>, x: Cursor, d: seq<Cursor>)
    requires AllIn(parts, c) && AllIn(parts, d) && InPart(parts, x)
    ensures AllIn(parts, c + [x] + d) && AllIn(parts, c + d)
    ensures multiset(Rows(parts, c + [x] + d)) == multiset(Rows(parts, c + d)) + multiset{RowAt(parts, x)}
  {
    RowsAppend(parts, c, [x]);
    RowsAppend(parts, c + [x], d);
    RowsAppend(parts, c, d);
  }

  /**
   With no empty block in front of a non-empty one, the merged entries are a permutation
   of all rows of all parts; sorted parts make them sorted by time.
   */
  method MergeEntries(parts: seq<Part>) returns (rows: seq<Entry>)
    ensures (forall c :: InPart(parts, c) ==> Reachable(parts, c)) ==> multiset(rows) == multiset(FlatParts(parts))
    ensures TimeSorted(parts) ==> forall i, j :: 0 <= i < j < |rows| ==> rows[i].ts <= rows[j].ts
  {
    var out := MergeParts(parts);
    forall i | 0 <= i < |out| ensures InPart(parts, out[i]) { assert out[i] in out; }
    rows := Rows(parts, out);
    if forall c :: InPart(parts, c) ==> Reachable(parts, c) {
      MergedBag(parts, out);
    }
  }

  lemma MergedBag(parts: seq<Part>, out: seq<Cursor>)
    requires NoDup(out) && AllIn(parts, out) && forall c :: c in out <==> InPart(parts, c)
    ensures multiset(Rows(parts, out)) == multiset(FlatParts(parts))
  {
    PositionsAre(parts);
    assert parts[..|parts|] == parts;
    PositionsRows(parts, |parts|);
    SameElementsSameBag(out, Positions(parts));
    RowsBag(parts, out, Positions(parts));
  }
}
