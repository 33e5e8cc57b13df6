/** The literal scan of a block. */
module LiteralScan {
  // Filtering a decoded block with a matcher. When the matcher has a literal, the whole blob
  // is searched for the longest one and hits are mapped back to rows by binary search; the
  // plain way is to test every row.

  import opened Prelude
  import opened BinBlock

  /** A line filter; a regular expression is whatever says whether it finds a match. */
  datatype LineFilter =
    | Eq(value: seq<Byte>)
    | NotEq(value: seq<Byte>)
    | Re(finds: seq<Byte> -> bool)
    | NotRe(finds: seq<Byte> -> bool)

  /** `labelsOk` extracts the labels of a line and tests all label filters. */
  datatype Matcher = Matcher(line: seq<LineFilter>, labelsOk: seq<Byte> -> bool)

  predicate OccursAt(s: seq<Byte>, lit: seq<Byte>, o: nat) { o + |lit| <= |s| && s[o..o + |lit|] == lit }

  predicate Contains(s: seq<Byte>, lit: seq<Byte>) { exists o :: 0 <= o <= |s| && OccursAt(s, lit, o) }

  predicate MatchOne(f: LineFilter, data: seq<Byte>)
  {
    match f
    case Eq(v) => Contains(data, v)
    case NotEq(v) => !Contains(data, v)
    case Re(finds) => finds(data)
    case NotRe(finds) => !finds(data)
  }

  predicate MatchLine(m: Matcher, data: seq<Byte>)
  {
    forall i :: 0 <= i < |m.line| ==> MatchOne(m.line[i], data)
  }

  /** The test the plain loop applies to row `r`. */
  predicate Passes(b: Block, from: int, to: int, m: Matcher, r: nat)
    requires Valid(b) && r < |b.ts|
  {
    from <= b.ts[r] <= to && MatchLine(m, DataBytes(b, r)) && m.labelsOk(DataBytes(b, r))
  }

  ghost predicate Tiled(b: Block) { Valid(b) && b.offsets[0] == 0 }

  // ---------- from a blob position to a row ----------

  /** The first index whose offset is not below `pos`. */
  ghost predicate IsLeftmost(offsets: seq<nat>, pos: nat, k: nat)
  {
    && k <= |offsets|
    && (forall i :: 0 <= i < k ==> offsets[i] < pos)
    && (forall i :: k <= i < |offsets| ==> offsets[i] >= pos)
  }

  method BinarySearch(offsets: seq<nat>, pos: nat) returns (k: nat)
    requires forall i, j :: 0 <= i < j < |offsets| ==> offsets[i] <= offsets[j]
    ensures IsLeftmost(offsets, pos, k)
  {
    var lo, hi := 0, |offsets|;
    while lo < hi
      invariant 0 <= lo <= hi <= |offsets|
      invariant forall i :: 0 <= i < lo ==> offsets[i] < pos
      invariant forall i :: hi <= i < |offsets| ==> offsets[i] >= pos
    {
      var mid := (lo + hi) / 2;
      if offsets[mid] < pos { lo := mid + 1; } else { hi := mid; }
    }
    k := lo;
  }

  /** What rowOf computes: the first row that starts at `pos`, else the row that `pos` is inside. */
  ghost predicate IsRowOf(b: Block, pos: nat, r: nat)
    requires Valid(b)
  {
    && r < |b.ts|
    && b.offsets[r] <= pos <= b.offsets[r + 1]
    && (b.offsets[r] == pos ==> forall i :: 0 <= i < r ==> b.offsets[i] < pos)
    && (b.offsets[r] < pos ==> pos < b.offsets[r + 1])
  }

  method RowOf(b: Block, pos: nat) returns (r: nat)
    requires Tiled(b) && pos < |b.blob|
    ensures IsRowOf(b, pos, r)
  {
    forall i, j | 0 <= i < j < |b.offsets| ensures b.offsets[i] <= b.offsets[j] { OffsetsOrdered(b, i, j); }
    var k := BinarySearch(b.offsets, pos);
    assert k <= |b.ts| by { assert b.offsets[|b.ts|] >= pos; }
    if k > 0 && b.offsets[k] > pos { k := k - 1; }
    if k >= |b.ts| { k := |b.ts| - 1; }
    r := k;
  }

  lemma RowOfUnique(b: Block, pos: nat, r: nat, q: nat)
    requires Tiled(b) && IsRowOf(b, pos, r) && IsRowOf(b, pos, q)
    ensures r == q
  {
    if r < q { OffsetsOrdered(b, r + 1, q); }
    if q < r { OffsetsOrdered(b, q + 1, r); }
  }

  /** A position strictly inside a row belongs to that row and to no other. */
  lemma InsideRow(b: Block, pos: nat, r: nat)
    requires Tiled(b) && r < |b.ts| && b.offsets[r] < pos < b.offsets[r + 1]
    ensures IsRowOf(b, pos, r)
  {
  }

  // ---------- hits ----------

  /** The scan counts position `p` as a hit for row `r`. */
  ghost predicate HitAt(b: Block, lit: seq<Byte>, p: nat, r: nat)
    requires Valid(b)
  {
    p < |b.blob| && OccursAt(b.blob, lit, p) && IsRowOf(b, p, r) && p + |lit| <= b.offsets[r + 1]
  }

  ghost predicate Visible(b: Block, lit: seq<Byte>, r: nat)
    requires Valid(b)
  {
    exists p: nat :: HitAt(b, lit, p, r)
  }

  ghost predicate VisibleBefore(b: Block, lit: seq<Byte>, pos: nat, r: nat)
    requires Valid(b)
  {
    exists p: nat :: p < pos && HitAt(b, lit, p, r)
  }

  /** The scan position advances past row `r` unless both the row and the literal are empty. */
  ghost predicate Advances(b: Block, lit: seq<Byte>)
    requires Valid(b)
  {
    lit != [] || forall r :: 0 <= r < |b.ts| && b.offsets[r] < |b.blob| ==> b.offsets[r] < b.offsets[r + 1]
  }

  // ---------- the rounds of the scan ----------

  /** The first occurrence at or after `pos`, before the end. */
  ghost function FirstAt(s: seq<Byte>, lit: seq<Byte>, pos: nat): (at: Option<nat>)
    ensures at.Some? ==> pos <= at.value < |s| && OccursAt(s, lit, at.value)
    ensures forall p :: pos <= p < (if at.Some? then at.value else |s|) ==> !OccursAt(s, lit, p)
    decreases |s| - pos
  {
    if pos >= |s| then None
    else if OccursAt(s, lit, pos) then Some(pos)
    else FirstAt(s, lit, pos + 1)
  }

  /** The row of a position, searching from row `r`. */
  ghost function RowFrom(b: Block, pos: nat, r: nat): (k: nat)
    requires Tiled(b) && pos < |b.blob| && r < |b.ts| && b.offsets[r] <= pos && forall i :: 0 <= i < r ==> b.offsets[i] < pos
    ensures IsRowOf(b, pos, k)
    decreases |b.ts| - r
  {
    if b.offsets[r] == pos || pos < b.offsets[r + 1] then r else RowFrom(b, pos, r + 1)
  }

  ghost function RowAt(b: Block, pos: nat): (k: nat)
    requires Tiled(b) && pos < |b.blob|
    ensures IsRowOf(b, pos, k)
  {
    RowFrom(b, pos, 0)
  }

  /** Where one round of the scan goes on; the end of the blob when nothing is found. */
  ghost function Next(b: Block, lit: seq<Byte>, pos: nat): (q: nat)
    requires Tiled(b) && pos < |b.blob|
    ensures q <= |b.blob|
  {
    var at := FirstAt(b.blob, lit, pos);
    if at.None? then |b.blob|
    else
      var end := b.offsets[RowAt(b, at.value) + 1];
      OffsetsOrdered(b, RowAt(b, at.value) + 1, |b.ts|);
      if at.value + |lit| <= end then end else at.value + 1
  }

  /** The scan position after `n` rounds. */
  ghost function PosAfter(b: Block, lit: seq<Byte>, n: nat): (q: nat)
    requires Tiled(b)
    ensures q <= |b.blob|
  {
    if n == 0 then 0
    else
      var p := PosAfter(b, lit, n - 1);
      if p < |b.blob| then Next(b, lit, p) else p
  }

  ghost predicate EndsWithin(b: Block, lit: seq<Byte>, n: nat)
    requires Tiled(b)
  {
    PosAfter(b, lit, n) == |b.blob|
  }

  lemma NextAdvances(b: Block, lit: seq<Byte>, pos: nat)
    requires Tiled(b) && Advances(b, lit) && pos < |b.blob|
    ensures Next(b, lit, pos) > pos
  {
    var at := FirstAt(b.blob, lit, pos);
    if at.Some? {
      var k := RowAt(b, at.value);
      assert lit == [] && b.offsets[k] == at.value ==> b.offsets[k] < b.offsets[k + 1];
    }
  }

  lemma {:induction false} RoundsAdvance(b: Block, lit: seq<Byte>, n: nat)
    requires Tiled(b) && Advances(b, lit)
    ensures PosAfter(b, lit, n) >= Min(n, |b.blob|)
  {
    if n > 0 {
      RoundsAdvance(b, lit, n - 1);
      var p := PosAfter(b, lit, n - 1);
      if p < |b.blob| { NextAdvances(b, lit, p); }
    }
  }

  /** The first row that is empty and not at the end of the blob. */
  ghost predicate IsFirstEmpty(b: Block, r: nat)
    requires Valid(b)
  {
    && r < |b.ts| && b.offsets[r] == b.offsets[r + 1] < |b.blob|
    && forall i :: 0 <= i < r ==> b.offsets[i] < b.offsets[i + 1]
  }

  lemma {:induction false} FindFirstEmpty(b: Block, r: nat) returns (f: nat)
    requires Valid(b) && r < |b.ts| && b.offsets[r] == b.offsets[r + 1] < |b.blob|
    ensures IsFirstEmpty(b, f)
  {
    if i :| 0 <= i < r && b.offsets[i] == b.offsets[i + 1] {
      OffsetsOrdered(b, i, r);
      f := FindFirstEmpty(b, i);
    } else {
      f := r;
    }
  }

  /** With an empty literal the scan walks from row to row up to the first empty one and stays there. */
  lemma {:induction false} RoundsStall(b: Block, f: nat, n: nat)
    requires Tiled(b) && IsFirstEmpty(b, f)
    ensures PosAfter(b, [], n) == b.offsets[Min(n, f)] < |b.blob|
  {
    hide Next, PosAfter;
    OffsetsOrdered(b, Min(n, f), f);
    if n == 0 {
      PosStart(b, []);
    } else {
      RoundsStall(b, f, n - 1);
      PosStep(b, [], n - 1);
      EmptyStep(b, f, Min(n - 1, f));
    }
  }

  lemma EmptyStep(b: Block, f: nat, m: nat)
    requires Tiled(b) && IsFirstEmpty(b, f) && m <= f && b.offsets[m] < |b.blob|
    ensures Next(b, [], b.offsets[m]) == b.offsets[m + 1]
  {
    var p := b.offsets[m];
    forall i | 0 <= i < m ensures b.offsets[i] < p { OffsetsOrdered(b, i + 1, m); }
    assert IsRowOf(b, p, m);
    RowOfUnique(b, p, m, RowAt(b, p));
    assert OccursAt(b.blob, [], p);
  }

  /** For every block and literal: the scan ends exactly when every round advances. */
  lemma EndsIffAdvances(b: Block, lit: seq<Byte>)
    requires Tiled(b)
    ensures (exists n: nat :: EndsWithin(b, lit, n)) <==> Advances(b, lit)
  {
    if Advances(b, lit) {
      RoundsAdvance(b, lit, |b.blob|);
      assert EndsWithin(b, lit, |b.blob|);
    } else {
      var r :| 0 <= r < |b.ts| && b.offsets[r] < |b.blob| && b.offsets[r] == b.offsets[r + 1];
      var f := FindFirstEmpty(b, r);
      forall n: nat ensures !EndsWithin(b, lit, n) { RoundsStall(b, f, n); }
    }
  }

  lemma {:induction false} EndedStays(b: Block, lit: seq<Byte>, i: nat, n: nat)
    requires Tiled(b) && i <= n && EndsWithin(b, lit, i)
    ensures EndsWithin(b, lit, n)
  {
    if i < n { EndedStays(b, lit, i, n - 1); }
  }

  method IndexFrom(s: seq<Byte>, pos: nat, lit: seq<Byte>) returns (at: Option<nat>)
    requires pos <= |s|
    ensures at.Some? ==> pos <= at.value && OccursAt(s, lit, at.value)
    ensures forall p :: pos <= p <= |s| && (at.Some? ==> p < at.value) ==> !OccursAt(s, lit, p)
  {
    var i := pos;
    while i + |lit| <= |s|
      invariant pos <= i
      invariant forall p :: pos <= p < i && p <= |s| ==> !OccursAt(s, lit, p)
    {
      if s[i..i + |lit|] == lit { return Some(i); }
      i := i + 1;
    }
    at := None;
  }

  /** Candidate rows so far: those with a hit before `pos`, ascending, all of them passed by `pos`. */
  ghost predicate Scanned(b: Block, lit: seq<Byte>, pos: nat, cands: seq<nat>)
    requires Valid(b)
  {
    && (forall i, j :: 0 <= i < j < |cands| ==> cands[i] < cands[j])
    && (forall r :: r in cands ==> r < |b.ts| && b.offsets[r + 1] <= pos)
    && (forall r: nat :: r in cands <==> VisibleBefore(b, lit, pos, r))
  }

  lemma NewCandidateIsLast(b: Block, lit: seq<Byte>, pos: nat, cands: seq<nat>, at: nat, k: nat)
    requires Tiled(b) && Scanned(b, lit, pos, cands) && pos <= at && IsRowOf(b, at, k) && at < |b.blob|
    ensures forall r :: r in cands && !(b.offsets[k] == at && b.offsets[k + 1] == at) ==> r < k
  {
    forall r | r in cands && !(b.offsets[k] == at && b.offsets[k + 1] == at) ensures r < k {
      if k <= r { OffsetsOrdered(b, k + 1, r + 1); }
    }
  }

  lemma HitStep(b: Block, lit: seq<Byte>, pos: nat, cands: seq<nat>, at: nat, k: nat)
    requires Tiled(b) && Advances(b, lit) && Scanned(b, lit, pos, cands) && pos <= at < |b.blob|
    requires forall p :: pos <= p < at ==> !OccursAt(b.blob, lit, p)
    requires HitAt(b, lit, at, k)
    ensures at < b.offsets[k + 1] && Scanned(b, lit, b.offsets[k + 1], cands + [k])
  {
    var end := b.offsets[k + 1];
    assert at < end by { assert lit == [] ==> b.offsets[k] < end; }
    NewCandidateIsLast(b, lit, pos, cands, at, k);
    forall i | 0 <= i < |cands| ensures cands[i] < k { assert cands[i] in cands; }
    forall r: nat ensures r in cands + [k] <==> VisibleBefore(b, lit, end, r) {
      if r == k { assert at < end && HitAt(b, lit, at, k); }
      if VisibleBefore(b, lit, pos, r) {
        var p: nat :| p < pos && HitAt(b, lit, p, r);
        assert p < end;
      }
      if VisibleBefore(b, lit, end, r) {
        var p: nat :| p < end && HitAt(b, lit, p, r);
        if p >= pos && p != at {
          assert p > at;
          InsideRow(b, p, k);
          RowOfUnique(b, p, r, k);
        } else if p == at {
          RowOfUnique(b, at, r, k);
        }
      }
    }
  }

  lemma MissStep(b: Block, lit: seq<Byte>, pos: nat, cands: seq<nat>, at: nat, k: nat)
    requires Tiled(b) && Scanned(b, lit, pos, cands) && pos <= at < |b.blob|
    requires forall p :: pos <= p < at ==> !OccursAt(b.blob, lit, p)
    requires IsRowOf(b, at, k) && !HitAt(b, lit, at, k)
    ensures Scanned(b, lit, at + 1, cands)
  {
    forall r: nat ensures r in cands <==> VisibleBefore(b, lit, at + 1, r) {
      if VisibleBefore(b, lit, pos, r) {
        var p: nat :| p < pos && HitAt(b, lit, p, r);
        assert p < at + 1;
      }
      if VisibleBefore(b, lit, at + 1, r) {
        var p: nat :| p < at + 1 && HitAt(b, lit, p, r);
        if p == at { RowOfUnique(b, at, r, k); }
        assert p < pos;
      }
    }
  }

  lemma SkipRest(b: Block, lit: seq<Byte>, pos: nat, cands: seq<nat>)
    requires Tiled(b) && Scanned(b, lit, pos, cands) && pos <= |b.blob|
    requires forall p :: pos <= p < |b.blob| ==> !OccursAt(b.blob, lit, p)
    ensures Scanned(b, lit, |b.blob|, cands)
  {
    forall r: nat ensures r in cands <==> VisibleBefore(b, lit, |b.blob|, r) {
      if VisibleBefore(b, lit, pos, r) {
        var p: nat :| p < pos && HitAt(b, lit, p, r);
        assert p < |b.blob|;
      }
      if VisibleBefore(b, lit, |b.blob|, r) {
        var p: nat :| p < |b.blob| && HitAt(b, lit, p, r);
        assert p < pos;
      }
    }
  }

  lemma ScannedNothing(b: Block, lit: seq<Byte>)
    requires Valid(b)
    ensures Scanned(b, lit, 0, [])
  {}

  /** One round of the search. */
  method ScanRound(b: Block, lit: seq<Byte>, pos: nat, cands: seq<nat>) returns (q: nat, more: seq<nat>)
    requires Tiled(b) && pos < |b.blob| && (Advances(b, lit) ==> Scanned(b, lit, pos, cands))
    ensures q == Next(b, lit, pos)
    ensures Advances(b, lit) ==> Scanned(b, lit, q, more)
  {
    hide Scanned, Advances, HitAt;
    var at := IndexFrom(b.blob, pos, lit);
    ghost var first := FirstAt(b.blob, lit, pos);
    if at.None? || at.value >= |b.blob| {
      assert first.None?;
      if Advances(b, lit) { SkipRest(b, lit, pos, cands); }
      return |b.blob|, cands;
    }
    assert first == at;
    var k := RowOf(b, at.value);
    RowOfUnique(b, at.value, k, RowAt(b, at.value));
    var end := b.offsets[k + 1];
    HitIs(b, lit, at.value, k);
    if at.value + |lit| <= end {
      if Advances(b, lit) { HitStep(b, lit, pos, cands, at.value, k); }
      q, more := end, cands + [k];
    } else {
      if Advances(b, lit) { MissStep(b, lit, pos, cands, at.value, k); }
      q, more := at.value + 1, cands;
    }
  }

  lemma HitIs(b: Block, lit: seq<Byte>, at: nat, k: nat)
    requires Tiled(b) && at < |b.blob| && OccursAt(b.blob, lit, at) && IsRowOf(b, at, k)
    ensures HitAt(b, lit, at, k) <==> at + |lit| <= b.offsets[k + 1]
  {}

  /** The whole-blob search, watched for a number of rounds: when it has ended, exactly the visible rows, in order. */
  method ScanCandidates(b: Block, lit: seq<Byte>, rounds: nat) returns (ended: bool, cands: seq<nat>)
    requires Tiled(b)
    ensures ended <==> EndsWithin(b, lit, rounds)
    ensures ended ==> forall i, j :: 0 <= i < j < |cands| ==> cands[i] < cands[j]
    ensures ended ==> forall r: nat :: r in cands <==> Visible(b, lit, r)
  {
    hide Advances, Visible, Scanned, Next, PosAfter;
    cands := [];
    var pos, i := 0, 0;
    ScannedNothing(b, lit);
    PosStart(b, lit);
    while i < rounds && pos < |b.blob|
      invariant 0 <= i <= rounds && pos <= |b.blob| && pos == PosAfter(b, lit, i)
      invariant Advances(b, lit) ==> Scanned(b, lit, pos, cands)
    {
      PosStep(b, lit, i);
      pos, cands := ScanRound(b, lit, pos, cands);
      i := i + 1;
    }
    ended := pos >= |b.blob|;
    if ended {
      EndedStays(b, lit, i, rounds);
      EndsIffAdvances(b, lit);
      AllScanned(b, lit, cands);
    }
  }

  lemma PosStart(b: Block, lit: seq<Byte>)
    requires Tiled(b)
    ensures PosAfter(b, lit, 0) == 0
  {}

  lemma PosStep(b: Block, lit: seq<Byte>, i: nat)
    requires Tiled(b) && PosAfter(b, lit, i) < |b.blob|
    ensures PosAfter(b, lit, i + 1) == Next(b, lit, PosAfter(b, lit, i))
  {}

  lemma AllScanned(b: Block, lit: seq<Byte>, cands: seq<nat>)
    requires Tiled(b) && Scanned(b, lit, |b.blob|, cands)
    ensures forall i, j :: 0 <= i < j < |cands| ==> cands[i] < cands[j]
    ensures forall r: nat :: r in cands <==> Visible(b, lit, r)
  {
    NoMoreHits(b, lit, |b.blob|, cands);
  }

  lemma NoMoreHits(b: Block, lit: seq<Byte>, pos: nat, cands: seq<nat>)
    requires Tiled(b) && Scanned(b, lit, pos, cands)
    requires forall p :: pos <= p < |b.blob| ==> !OccursAt(b.blob, lit, p)
    ensures forall r: nat :: r in cands <==> Visible(b, lit, r)
  {
    forall r: nat ensures r in cands <==> Visible(b, lit, r) {
      if VisibleBefore(b, lit, pos, r) {
        var p: nat :| p < pos && HitAt(b, lit, p, r);
        assert Visible(b, lit, r);
      }
      if Visible(b, lit, r) {
        var p: nat :| HitAt(b, lit, p, r);
        assert p < pos;
      }
    }
  }

  // ---------- the two ways of filtering ----------

  function Elems(xs: seq<nat>): set<nat> { set x | x in xs }

  /** Members of a set of rows, ascending. */
  ghost function Ascending(n: nat, rows: set<nat>): seq<nat>
  {
    if n == 0 then [] else Ascending(n - 1, rows) + if n - 1 in rows then [n - 1] else []
  }

  ghost function PassingRows(b: Block, from: int, to: int, m: Matcher): set<nat>
    requires Valid(b)
  {
    set r: nat | r < |b.ts| && Passes(b, from, to, m, r)
  }

  lemma {:induction false} AscendingMembers(n: nat, rows: set<nat>)
    ensures forall r :: r in Ascending(n, rows) <==> 0 <= r < n && r in rows
  {
    if n > 0 { AscendingMembers(n - 1, rows); }
  }

  lemma LastOfAscending(xs: seq<nat>, n: nat)
    requires forall i, j :: 0 <= i < j < |xs| ==> xs[i] < xs[j]
    requires n > 0 && n - 1 in xs && forall i :: 0 <= i < |xs| ==> xs[i] < n
    ensures xs[|xs| - 1] == n - 1 && forall i :: 0 <= i < |xs| - 1 ==> xs[i] < n - 1
  {
    var i :| 0 <= i < |xs| && xs[i] == n - 1;
    assert i == |xs| - 1;
  }

  /** A strictly ascending list below `n` is the ascending list of its elements. */
  lemma {:induction false} AscendingIs(xs: seq<nat>, n: nat)
    requires forall i, j :: 0 <= i < j < |xs| ==> xs[i] < xs[j]
    requires forall i :: 0 <= i < |xs| ==> xs[i] < n
    ensures Ascending(n, Elems(xs)) == xs
  {
    if n > 0 {
      if n - 1 in xs {
        LastOfAscending(xs, n);
        var front := xs[..|xs| - 1];
        AscendingIs(front, n - 1);
        assert xs == front + [n - 1];
        assert forall r :: r in xs <==> r in front || r == n - 1;
        AscendingCongruent(n - 1, Elems(front), Elems(xs));
      } else {
        forall j | 0 <= j < |xs| ensures xs[j] < n - 1 { assert xs[j] in xs; }
        AscendingIs(xs, n - 1);
      }
    }
  }

  lemma {:induction false} AscendingCongruent(n: nat, a: set<nat>, b: set<nat>)
    requires forall r :: 0 <= r < n ==> (r in a <==> r in b)
    ensures Ascending(n, a) == Ascending(n, b)
  {
    if n > 0 { AscendingCongruent(n - 1, a, b); }
  }

  lemma AscendingEqualIff(n: nat, a: set<nat>, b: set<nat>)
    ensures Ascending(n, a) == Ascending(n, b) <==> forall r :: 0 <= r < n ==> (r in a <==> r in b)
  {
    AscendingMembers(n, a);
    AscendingMembers(n, b);
    if forall r :: 0 <= r < n ==> (r in a <==> r in b) {
      AscendingCongruent(n, a, b);
    } else {
      var r :| 0 <= r < n && (r in a <==> r !in b);
      assert r in Ascending(n, a) <==> r !in Ascending(n, b);
    }
  }

  lemma ContainsIff(s: seq<Byte>, lit: seq<Byte>)
    ensures Contains(s, lit) <==> exists a, b :: s == a + lit + b
  {
    if Contains(s, lit) {
      var o :| 0 <= o <= |s| && OccursAt(s, lit, o);
      assert s == s[..o] + lit + s[o + |lit|..];
    }
    if a, b :| s == a + lit + b { assert OccursAt(s, lit, |a|); }
  }

  /** A row passes exactly when it is in the time range, holds every wanted literal, holds no unwanted one, meets every expression, meets no unwanted one, and its labels fit. */
  lemma PassesIff(b: Block, from: int, to: int, m: Matcher, r: nat)
    requires Valid(b) && r < |b.ts|
    ensures var row := DataBytes(b, r);
            Passes(b, from, to, m, r) <==>
            && from <= b.ts[r] <= to && m.labelsOk(row)
            && (forall v :: Eq(v) in m.line ==> exists x, y :: row == x + v + y)
            && (forall v :: NotEq(v) in m.line ==> !exists x, y :: row == x + v + y)
            && (forall f :: Re(f) in m.line ==> f(row)) && (forall f :: NotRe(f) in m.line ==> !f(row))
  {
    hide Contains, DataBytes;
    var row := DataBytes(b, r);
    forall v: seq<Byte> ensures Contains(row, v) <==> exists x, y :: row == x + v + y { ContainsIff(row, v); }
    assert forall i :: 0 <= i < |m.line| ==> m.line[i] in m.line;
  }

  /** The plain loop: test every row. */
  method IteratePlain(b: Block, from: int, to: int, m: Matcher) returns (out: seq<nat>)
    requires Valid(b)
    ensures out == Ascending(|b.ts|, PassingRows(b, from, to, m))
  {
    out := [];
    var i := 0;
    while i < |b.ts|
      invariant 0 <= i <= |b.ts|
      invariant out == Ascending(i, PassingRows(b, from, to, m))
    {
      if Passes(b, from, to, m, i) { out := out + [i]; }
      i := i + 1;
    }
  }

  function EqLiterals(m: Matcher): seq<seq<Byte>>
  {
    EqOf(m.line)
  }

  function EqOf(fs: seq<LineFilter>): seq<seq<Byte>>
  {
    if fs == [] then []
    else EqOf(fs[..|fs| - 1]) + if fs[|fs| - 1].Eq? then [fs[|fs| - 1].value] else []
  }

  lemma {:induction false} EqOfMember(fs: seq<LineFilter>, v: seq<Byte>)
    ensures v in EqOf(fs) <==> Eq(v) in fs
  {
    if fs != [] {
      EqOfMember(fs[..|fs| - 1], v);
      assert fs == fs[..|fs| - 1] + [fs[|fs| - 1]];
    }
  }

  /** The first of the longest literals. */
  method Longest(lits: seq<seq<Byte>>) returns (lit: seq<Byte>)
    requires lits != []
    ensures lit in lits && forall l :: l in lits ==> |l| <= |lit|
  {
    lit := lits[0];
    var i := 1;
    while i < |lits|
      invariant 1 <= i <= |lits| && lit in lits
      invariant forall k :: 0 <= k < i ==> |lits[k]| <= |lit|
    {
      if |lits[i]| > |lit| { lit := lits[i]; }
      i := i + 1;
    }
  }

  /** Rows the fast path can report: all of them without a literal, else the visible ones. */
  ghost predicate Reported(b: Block, m: Matcher, lit: seq<Byte>, r: nat)
    requires Valid(b)
  {
    EqLiterals(m) == [] || Visible(b, lit, r)
  }

  ghost function FastRows(b: Block, from: int, to: int, m: Matcher, lit: seq<Byte>): set<nat>
    requires Valid(b)
  {
    set r | r in PassingRows(b, from, to, m) && Reported(b, m, lit, r)
  }

  /** IterateMatcher, watched for a number of scan rounds: literal scan plus the full test on candidates, or the plain loop. */
  method IterateMatcher(b: Block, from: int, to: int, m: Matcher, rounds: nat) returns (ended: bool, out: seq<nat>, lit: seq<Byte>)
    requires Tiled(b)
    ensures EqLiterals(m) != [] ==> lit in EqLiterals(m)
    ensures ended <==> EqLiterals(m) == [] || EndsWithin(b, lit, rounds)
    ensures ended ==> out == Ascending(|b.ts|, FastRows(b, from, to, m, lit))
  {
    hide EndsWithin, HitAt, Passes;
    var lits := EqLiterals(m);
    lit := [];
    if lits == [] {
      ended := true;
      out := IteratePlain(b, from, to, m);
      AscendingCongruent(|b.ts|, PassingRows(b, from, to, m), FastRows(b, from, to, m, lit));
      return;
    }
    lit := Longest(lits);
    var cands;
    ended, cands := ScanCandidates(b, lit, rounds);
    if !ended { return false, [], lit; }
    forall r | r in cands ensures r < |b.ts| { VisibleIsRow(b, lit, r); }
    out := KeepPassing(b, from, to, m, cands);
    forall i | 0 <= i < |out| ensures out[i] < |b.ts| { assert out[i] in out; }
    AscendingIs(out, |b.ts|);
    AscendingCongruent(|b.ts|, Elems(out), FastRows(b, from, to, m, lit));
  }

  lemma VisibleIsRow(b: Block, lit: seq<Byte>, r: nat)
    requires Valid(b) && Visible(b, lit, r)
    ensures r < |b.ts|
  {}

  method KeepPassing(b: Block, from: int, to: int, m: Matcher, cands: seq<nat>) returns (out: seq<nat>)
    requires Valid(b) && forall r :: r in cands ==> r < |b.ts|
    requires forall i, j :: 0 <= i < j < |cands| ==> cands[i] < cands[j]
    ensures forall r: nat :: r in out <==> r in cands && Passes(b, from, to, m, r)
    ensures forall i, j :: 0 <= i < j < |out| ==> out[i] < out[j]
  {
    out := [];
    var i := 0;
    while i < |cands|
      invariant 0 <= i <= |cands|
      invariant forall r: nat :: r in out <==> r in cands && r in cands[..i] && Passes(b, from, to, m, r)
      invariant forall k, j :: 0 <= k < j < |out| ==> out[k] < out[j]
      invariant forall k, j :: 0 <= k < |out| && i <= j < |cands| ==> out[k] < cands[j]
    {
      assert cands[i] in cands && cands[..i + 1] == cands[..i] + [cands[i]];
      if Passes(b, from, to, m, cands[i]) { out := out + [cands[i]]; }
      i := i + 1;
    }
    assert cands[..i] == cands;
  }

  // ---------- when they agree ----------

  lemma PassingContains(b: Block, from: int, to: int, m: Matcher, lit: seq<Byte>, r: nat)
    requires Valid(b) && lit in EqLiterals(m) && r < |b.ts| && Passes(b, from, to, m, r)
    ensures Contains(DataBytes(b, r), lit)
  {
    EqOfMember(m.line, lit);
    var i :| 0 <= i < |m.line| && m.line[i] == Eq(lit);
    assert MatchOne(m.line[i], DataBytes(b, r));
  }

  lemma RowOccurrence(b: Block, lit: seq<Byte>, r: nat, o: nat)
    requires Valid(b) && r < |b.ts| && o + |lit| <= |DataBytes(b, r)|
    ensures OccursAt(DataBytes(b, r), lit, o) <==> OccursAt(b.blob, lit, b.offsets[r] + o)
  {
    OffsetsOrdered(b, r + 1, |b.ts|);
    var p := b.offsets[r] + o;
    assert DataBytes(b, r)[o..o + |lit|] == b.blob[p..p + |lit|];
  }

  /**
   An occurrence the scan maps to row `r`: not at the first byte of a row behind an empty
   row, and not behind the last byte, or in an empty row with bytes behind it.
   */
  ghost predicate Found(b: Block, lit: seq<Byte>, r: nat, o: nat)
    requires Valid(b) && r < |b.ts|
  {
    && OccursAt(DataBytes(b, r), lit, o)
    && (o < |DataBytes(b, r)| || (DataBytes(b, r) == [] && b.offsets[r] < |b.blob|))
    && (o > 0 || r == 0 || DataBytes(b, r - 1) != [])
  }

  /** For every literal, a row is visible exactly when it has such an occurrence. */
  lemma VisibleIff(b: Block, lit: seq<Byte>, r: nat)
    requires Tiled(b) && r < |b.ts|
    ensures Visible(b, lit, r) <==> exists o: nat :: Found(b, lit, r, o)
  {
    OffsetsOrdered(b, r + 1, |b.ts|);
    if Visible(b, lit, r) {
      var p: nat :| HitAt(b, lit, p, r);
      var o := p - b.offsets[r];
      RowOccurrence(b, lit, r, o);
      assert Found(b, lit, r, o);
    }
    if o: nat :| Found(b, lit, r, o) {
      RowOccurrence(b, lit, r, o);
      var p := b.offsets[r] + o;
      if o == 0 {
        forall i | 0 <= i < r ensures b.offsets[i] < p { OffsetsOrdered(b, i, r - 1); }
      }
      assert HitAt(b, lit, p, r);
    }
  }

  ghost predicate NoEmptyRows(b: Block)
    requires Valid(b)
  {
    forall r :: 0 <= r < |b.ts| ==> b.offsets[r] < b.offsets[r + 1]
  }

  lemma AllVisible(b: Block, lit: seq<Byte>, r: nat)
    requires Tiled(b) && NoEmptyRows(b) && r < |b.ts| && Contains(DataBytes(b, r), lit)
    ensures Visible(b, lit, r)
  {
    var o :| 0 <= o <= |DataBytes(b, r)| && OccursAt(DataBytes(b, r), lit, o);
    VisibleIff(b, lit, r);
    OffsetsOrdered(b, r + 1, |b.ts|);
    assert |DataBytes(b, r)| > 0;
    if r > 0 {
      OffsetsOrdered(b, r, |b.ts|);
      assert b.offsets[r - 1] < b.offsets[r - 1 + 1] && |DataBytes(b, r - 1)| > 0;
    }
    assert Found(b, lit, r, if lit == [] then 0 else o);
  }

  /** What a passing row needs for the scan not to miss it, on its bytes. */
  ghost predicate Reachable(b: Block, lit: seq<Byte>, r: nat)
    requires Valid(b) && r < |b.ts|
  {
    if lit == [] then DataBytes(b, r) != []
    else r == 0 || DataBytes(b, r - 1) != [] || exists o: nat :: o > 0 && OccursAt(DataBytes(b, r), lit, o)
  }

  lemma PassingVisibleIff(b: Block, from: int, to: int, m: Matcher, lit: seq<Byte>, r: nat)
    requires Tiled(b) && Advances(b, lit) && lit in EqLiterals(m) && r < |b.ts| && Passes(b, from, to, m, r)
    ensures Visible(b, lit, r) <==> Reachable(b, lit, r)
  {
    PassingContains(b, from, to, m, lit, r);
    VisibleIff(b, lit, r);
    OffsetsOrdered(b, r + 1, |b.ts|);
    assert |DataBytes(b, r)| == b.offsets[r + 1] - b.offsets[r];
    if lit == [] {
      if r > 0 {
        OffsetsOrdered(b, r, |b.ts|);
        assert b.offsets[r - 1] <= b.offsets[r - 1 + 1];
      }
      if DataBytes(b, r) != [] { assert Found(b, lit, r, 0); }
    } else if Reachable(b, lit, r) {
      var o :| 0 <= o <= |DataBytes(b, r)| && OccursAt(DataBytes(b, r), lit, o);
      if q: nat :| q > 0 && OccursAt(DataBytes(b, r), lit, q) { assert Found(b, lit, r, q); } else { assert Found(b, lit, r, o); }
    }
  }

  /**
   The literal path and the plain loop report the same rows exactly when every passing row
   is at the front, or behind a non-empty row, or has the literal further in; with an empty
   literal, when no passing row is empty.
   */
  lemma SameRowsIff(b: Block, from: int, to: int, m: Matcher, lit: seq<Byte>, fast: seq<nat>, plain: seq<nat>)
    requires Tiled(b) && lit in EqLiterals(m) && Advances(b, lit)
    requires fast == Ascending(|b.ts|, FastRows(b, from, to, m, lit)) && plain == Ascending(|b.ts|, PassingRows(b, from, to, m))
    ensures fast == plain <==> forall r: nat :: r < |b.ts| && Passes(b, from, to, m, r) ==> Reachable(b, lit, r)
  {
    hide Passes, Visible, Reachable, Ascending, Advances;
    var f, p := FastRows(b, from, to, m, lit), PassingRows(b, from, to, m);
    AscendingEqualIff(|b.ts|, f, p);
    assert forall r: nat :: r < |b.ts| ==> (r in p <==> Passes(b, from, to, m, r));
    assert EqLiterals(m) != [];
    assert forall r: nat :: r in f <==> r in p && Visible(b, lit, r);
    forall r: nat | r < |b.ts| && Passes(b, from, to, m, r) ensures Visible(b, lit, r) <==> Reachable(b, lit, r) {
      PassingVisibleIff(b, from, to, m, lit, r);
    }
  }

  /** So on blocks without empty rows they agree for every matcher. */
  lemma SameRowsWithoutEmptyRows(b: Block, from: int, to: int, m: Matcher, lit: seq<Byte>)
    requires Tiled(b) && NoEmptyRows(b) && (EqLiterals(m) != [] ==> lit in EqLiterals(m))
    ensures Ascending(|b.ts|, FastRows(b, from, to, m, lit)) == Ascending(|b.ts|, PassingRows(b, from, to, m))
  {
    AscendingEqualIff(|b.ts|, FastRows(b, from, to, m, lit), PassingRows(b, from, to, m));
    forall r | 0 <= r < |b.ts| && r in PassingRows(b, from, to, m) ensures r in FastRows(b, from, to, m, lit) {
      if EqLiterals(m) != [] {
        PassingContains(b, from, to, m, lit, r);
        AllVisible(b, lit, r);
      }
    }
  }

  const EMPTY_THEN_A := Block([0, 0], [0, 0, 1], [97])

  /** Rows "" and "a": the literal "a" passes the plain test on row 1, and the scan misses it. */
  lemma EmptyRowHidesMatch()
    ensures Tiled(EMPTY_THEN_A) && Contains(DataBytes(EMPTY_THEN_A, 1), [97]) && !Visible(EMPTY_THEN_A, [97], 1)
  {
    var b := EMPTY_THEN_A;
    assert Tiled(b);
    assert DataBytes(b, 1) == [97];
    assert OccursAt(DataBytes(b, 1), [97], 0);
    assert b.offsets[0] == 0 && b.offsets[1] == 0;
    forall p: nat ensures !HitAt(b, [97], p, 1) {}
  }

  /** On that block an empty literal keeps the scan at position 0 for ever. */
  lemma EmptyLiteralStalls(n: nat)
    ensures Tiled(EMPTY_THEN_A) && PosAfter(EMPTY_THEN_A, [], n) == 0 && !EndsWithin(EMPTY_THEN_A, [], n)
  {
    var b := EMPTY_THEN_A;
    assert b.offsets[0] == 0 && b.offsets[1] == 0;
    RoundsStall(b, 0, n);
  }
}
