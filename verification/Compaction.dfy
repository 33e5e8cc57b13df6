/** Flushes and compactions. */
module Compaction {
  // Flushes and level compactions of one node: they keep the rows, the exact metadata and the
  // order of each part, and four parts of a level make one of the next, so levels stay
  // logarithmic in the number of flushes.

  import opened Prelude
  import opened StringOrder
  import opened Tokens
  import opened TokenSets
  import opened Query
  import opened PartBags
  import MergeRows

  const COMPACT_TRIGGER := 4

  // ---------- new parts ----------

  /** The callback of the block writer: row count, first and last time. */
  method Summarize(blocks: seq<seq<Entry>>) returns (count: nat, minTs: int, maxTs: int)
    requires forall b :: 0 <= b < |blocks| ==> blocks[b] != []
    ensures count == |Concat(blocks)|
    ensures blocks != [] ==> Concat(blocks) != [] && minTs == Concat(blocks)[0].ts && maxTs == Concat(blocks)[count - 1].ts
  {
    count, minTs, maxTs := 0, 0, 0;
    var seen := false;
    var b := 0;
    while b < |blocks|
      invariant 0 <= b <= |blocks| && (seen <==> b > 0) && count == |Concat(blocks[..b])|
      invariant b > 0 ==> count > 0 && minTs == Concat(blocks[..b])[0].ts && maxTs == Concat(blocks[..b])[count - 1].ts
    {
      ConcatNext(blocks, b);
      var block := blocks[b];
      if !seen { minTs, seen := block[0].ts, true; }
      maxTs := block[|block| - 1].ts;
      count := count + |block|;
      b := b + 1;
    }
    assert blocks[..b] == blocks;
  }

  method MergedPart(u: Charset, id: nat, level: nat, rows: seq<Entry>) returns (p: DataPart)
    requires rows != [] && SortedByTime(rows)
    ensures Exact(u, p) && RowsOf(p) == rows && p.own && p.id == id && p.level == level
  {
    hide Capped, SortedByTime;
    var blocks := CutRows(rows);
    var count, minTs, maxTs := Summarize(blocks);
    var tokens, truncated := CompactionTokens(u, TextBlocks(u, blocks));
    TextsOfBlocks(u, blocks);
    p := DataPart(id, true, level, minTs, maxTs, count, tokens, truncated, blocks);
  }

  method FlushedPart(u: Charset, id: nat, rows: seq<Entry>) returns (p: DataPart)
    requires rows != [] && SortedByTime(rows)
    ensures Exact(u, p) && RowsOf(p) == rows && p.own && p.id == id && p.level == 0
  {
    hide Capped, SortedByTime;
    var blocks := CutRows(rows);
    var tokens, truncated := BuildTokenSet(u, Texts(u, rows));
    p := DataPart(id, true, 0, rows[0].ts, rows[|rows| - 1].ts, |rows|, tokens, truncated, blocks);
  }

  // ---------- choosing parts ----------

  predicate Candidate(p: DataPart, level: nat) { p.own && p.level == level }

  function AtLevel(ps: seq<DataPart>, level: nat): seq<DataPart>
  {
    if ps == [] then []
    else AtLevel(ps[..|ps| - 1], level) + (if Candidate(ps[|ps| - 1], level) then [ps[|ps| - 1]] else [])
  }

  lemma {:induction false} AtLevelCount(ps: seq<DataPart>, level: nat, p: DataPart)
    ensures multiset(AtLevel(ps, level))[p] == if Candidate(p, level) then multiset(ps)[p] else 0
  {
    if ps != [] {
      AtLevelCount(ps[..|ps| - 1], level, p);
      assert ps == ps[..|ps| - 1] + [ps[|ps| - 1]];
    }
  }

  ghost predicate ByMin(ps: seq<DataPart>) { forall i, j :: 0 <= i < j < |ps| ==> ps[i].minTs <= ps[j].minTs }

  lemma InsertedByMin(ps: seq<DataPart>, i: nat, p: DataPart)
    requires ByMin(ps) && i <= |ps| && (i > 0 ==> ps[i - 1].minTs <= p.minTs) && (i < |ps| ==> p.minTs < ps[i].minTs)
    ensures ByMin(ps[..i] + [p] + ps[i..])
  {
    var out := ps[..i] + [p] + ps[i..];
    forall a, b | 0 <= a < b < |out| ensures out[a].minTs <= out[b].minTs {
      var x, y := if a < i then ps[a] else if a == i then p else ps[a - 1], if b < i then ps[b] else if b == i then p else ps[b - 1];
      assert out[a] == x && out[b] == y;
      if a < i { assert x.minTs <= ps[i - 1].minTs; }
      if b > i { assert ps[i].minTs <= y.minTs; }
    }
  }

  method SortByMin(ps: seq<DataPart>) returns (out: seq<DataPart>)
    ensures ByMin(out) && multiset(out) == multiset(ps)
  {
    out := [];
    var i := 0;
    while i < |ps|
      invariant 0 <= i <= |ps| && ByMin(out) && multiset(out) == multiset(ps[..i])
    {
      var k := |out|;
      while k > 0 && out[k - 1].minTs > ps[i].minTs
        invariant 0 <= k <= |out| && (k < |out| ==> ps[i].minTs < out[k].minTs)
      {
        k := k - 1;
      }
      InsertedByMin(out, k, ps[i]);
      assert out == out[..k] + out[k..];
      out := out[..k] + [ps[i]] + out[k..];
      assert ps[..i + 1] == ps[..i] + [ps[i]];
      i := i + 1;
    }
    assert ps[..i] == ps;
  }

  /** Up to four own parts of the level, none younger than one that is left. */
  ghost predicate Oldest(ps: seq<DataPart>, level: nat, chosen: seq<DataPart>)
  {
    && multiset(chosen) <= multiset(ps) && |chosen| == Min(|AtLevel(ps, level)|, COMPACT_TRIGGER)
    && (forall i :: 0 <= i < |chosen| ==> Candidate(chosen[i], level))
    && (forall p, q :: p in chosen && q in AtLevel(ps, level) && q !in chosen ==> p.minTs <= q.minTs)
  }

  method Choose(ps: seq<DataPart>, level: nat) returns (chosen: seq<DataPart>)
    ensures Oldest(ps, level, chosen)
  {
    hide ByMin, AtLevel;
    var sorted := SortByMin(AtLevel(ps, level));
    assert |sorted| == |multiset(sorted)| == |AtLevel(ps, level)|;
    chosen := sorted[..Min(|sorted|, COMPACT_TRIGGER)];
    ChosenAreOldest(ps, level, sorted, |chosen|);
  }

  lemma ChosenAreOldest(ps: seq<DataPart>, level: nat, sorted: seq<DataPart>, n: nat)
    requires ByMin(sorted) && multiset(sorted) == multiset(AtLevel(ps, level)) && n == Min(|AtLevel(ps, level)|, COMPACT_TRIGGER) && n <= |sorted|
    ensures Oldest(ps, level, sorted[..n])
  {
    hide AtLevel, ByMin;
    var chosen, later := sorted[..n], sorted[n..];
    assert sorted == chosen + later;
    assert multiset(sorted) == multiset(chosen) + multiset(later);
    forall p ensures multiset(chosen)[p] <= multiset(ps)[p] && (p in multiset(chosen) ==> Candidate(p, level)) {
      AtLevelCount(ps, level, p);
    }
    forall i | 0 <= i < |chosen| ensures Candidate(chosen[i], level) { assert chosen[i] in multiset(chosen); }
    forall p, q | p in chosen && q in AtLevel(ps, level) && q !in chosen ensures p.minTs <= q.minTs {
      assert q in multiset(sorted);
      LaterIsYounger(sorted, n, p, q);
    }
  }

  lemma LaterIsYounger(sorted: seq<DataPart>, n: nat, p: DataPart, q: DataPart)
    requires ByMin(sorted) && n <= |sorted| && p in sorted[..n] && q in multiset(sorted) && q !in sorted[..n]
    ensures p.minTs <= q.minTs
  {
    var i :| 0 <= i < n && sorted[i] == p;
    var j :| 0 <= j < |sorted| && sorted[j] == q;
    assert forall k :: 0 <= k < n ==> sorted[k] in sorted[..n];
  }

  // ---------- weights ----------

  function Pow4(n: nat): (r: nat)
    ensures r >= 1
  {
    if n == 0 then 1 else 4 * Pow4(n - 1)
  }

  /** How many flushed parts a part of this level must have come from, at least. */
  function MinWeight(level: nat): nat { if level == 0 then 1 else Pow4(level - 1) }

  ghost function WeightOf(w: map<nat, nat>): DataPart -> nat { (p: DataPart) => if p.own && p.id in w then w[p.id] else 0 }

  ghost predicate Heavy(w: map<nat, nat>, p: DataPart) { p.own ==> p.id in w && w[p.id] >= MinWeight(p.level) }

  /** Distinct IDs below next, enough flushes in every own part, and every flush in exactly one. */
  ghost predicate Weighted(ps: seq<DataPart>, w: map<nat, nat>, flushes: nat, next: nat)
  {
    && DistinctIds(ps)
    && (forall i :: 0 <= i < |ps| ==> ps[i].id < next && Heavy(w, ps[i]))
    && Sum(ps, WeightOf(w)) == flushes
  }

  lemma WeightKept(ps: seq<DataPart>, w: map<nat, nat>, next: nat, x: nat)
    requires forall i :: 0 <= i < |ps| ==> ps[i].id < next
    ensures Sum(ps, WeightOf(w[next := x])) == Sum(ps, WeightOf(w))
  {
    SumSame(ps, WeightOf(w[next := x]), WeightOf(w));
  }

  lemma DistinctNext(ps: seq<DataPart>, p: DataPart, next: nat)
    requires DistinctIds(ps) && (forall i :: 0 <= i < |ps| ==> ps[i].id < next) && p.id == next
    ensures DistinctIds(ps + [p])
  {}

  /** A new part of weight x beside parts that are already weighted. */
  lemma AddWeighted(ps: seq<DataPart>, w: map<nat, nat>, flushes: nat, next: nat, p: DataPart, x: nat)
    requires Weighted(ps, w, flushes, next) && p.id == next && p.own && x >= MinWeight(p.level)
    ensures Weighted(ps + [p], w[next := x], flushes + x, next + 1)
  {
    hide Sum, DistinctIds, MinWeight;
    var w2 := w[next := x];
    DistinctNext(ps, p, next);
    WeightKept(ps, w, next, x);
    SumAppend(ps, [p], WeightOf(w2));
    SumOne(p, WeightOf(w2));
    forall i | 0 <= i < |ps| + 1 ensures (ps + [p])[i].id < next + 1 && Heavy(w2, (ps + [p])[i]) {
      if i < |ps| { assert Heavy(w, ps[i]); }
    }
  }

  /** A part of another node beside parts that are already weighted. */
  lemma AddForeign(ps: seq<DataPart>, w: map<nat, nat>, flushes: nat, next: nat, p: DataPart)
    requires Weighted(ps, w, flushes, next) && !p.own && forall i :: 0 <= i < |ps| ==> ps[i].id != p.id
    ensures Weighted(ps + [p], w, flushes, if p.id < next then next else p.id + 1)
  {
    hide Sum, MinWeight;
    SumAppend(ps, [p], WeightOf(w));
    SumOne(p, WeightOf(w));
    forall i | 0 <= i < |ps| + 1 ensures Heavy(w, (ps + [p])[i]) && ((ps + [p])[i].id < next || i == |ps|) {
      if i < |ps| { assert Heavy(w, ps[i]); }
    }
  }

  lemma WeightedDistinct(ps: seq<DataPart>, w: map<nat, nat>, flushes: nat, next: nat)
    requires Weighted(ps, w, flushes, next)
    ensures DistinctIds(ps)
  {}

  lemma RestWeighted(ps: seq<DataPart>, chosen: seq<DataPart>, w: map<nat, nat>, flushes: nat, next: nat)
    requires Weighted(ps, w, flushes, next) && multiset(chosen) <= multiset(ps)
    ensures Sum(chosen, WeightOf(w)) <= flushes
    ensures Weighted(Without(ps, Ids(chosen)), w, flushes - Sum(chosen, WeightOf(w)), next)
  {
    hide Sum, Heavy, DistinctIds, Without, WeightOf;
    var rest := Without(ps, Ids(chosen));
    WithoutChosen(ps, chosen);
    SumSplit(ps, rest, chosen, WeightOf(w));
    WithoutMembers(ps, Ids(chosen));
    forall i | 0 <= i < |rest| ensures rest[i].id < next && Heavy(w, rest[i]) {
      var k :| 0 <= k < |ps| && ps[k] == rest[i];
    }
  }

  /** Four parts of a level, or any of level 0, weigh enough for the next level. */
  lemma ChosenWeigh(ps: seq<DataPart>, chosen: seq<DataPart>, w: map<nat, nat>, flushes: nat, next: nat, level: nat)
    requires Weighted(ps, w, flushes, next) && multiset(chosen) <= multiset(ps)
    requires forall i :: 0 <= i < |chosen| ==> Candidate(chosen[i], level)
    requires |chosen| == COMPACT_TRIGGER || (level == 0 && chosen != [])
    ensures Sum(chosen, WeightOf(w)) >= MinWeight(level + 1)
  {
    hide Sum, DistinctIds;
    forall i | 0 <= i < |chosen| ensures WeightOf(w)(chosen[i]) >= MinWeight(level) {
      assert chosen[i] in multiset(chosen);
      assert chosen[i] in multiset(ps);
      var k :| 0 <= k < |ps| && ps[k] == chosen[i];
      assert Heavy(w, ps[k]);
    }
    SumAtLeast(chosen, WeightOf(w), MinWeight(level));
    assert |chosen| * MinWeight(level) >= MinWeight(level + 1);
  }

  /** Replacing the chosen parts by the merged one keeps the accounts. */
  lemma MergeWeighted(ps: seq<DataPart>, chosen: seq<DataPart>, w: map<nat, nat>, flushes: nat, next: nat, p: DataPart)
    requires Weighted(ps, w, flushes, next) && multiset(chosen) <= multiset(ps)
    requires p.id == next && p.own && p.level > 0 && forall i :: 0 <= i < |chosen| ==> Candidate(chosen[i], p.level - 1)
    requires |chosen| == COMPACT_TRIGGER || (p.level == 1 && chosen != [])
    ensures Weighted(Without(ps, Ids(chosen)) + [p], w[next := Sum(chosen, WeightOf(w))], flushes, next + 1)
  {
    hide Weighted, Sum, WeightOf, MinWeight, Without, Ids, Candidate;
    RestWeighted(ps, chosen, w, flushes, next);
    ChosenWeigh(ps, chosen, w, flushes, next, p.level - 1);
    AddWeighted(Without(ps, Ids(chosen)), w, flushes - Sum(chosen, WeightOf(w)), next, p, Sum(chosen, WeightOf(w)));
  }

  /** In every reachable state: an own part of level L >= 1 takes 4^(L-1) flushes. */
  lemma LevelIsLogarithmic(ps: seq<DataPart>, w: map<nat, nat>, flushes: nat, next: nat, i: nat)
    requires Weighted(ps, w, flushes, next) && i < |ps| && ps[i].own && ps[i].level >= 1
    ensures Pow4(ps[i].level - 1) <= flushes
  {
    SumMono(ps, WeightOf(w), i);
    assert Heavy(w, ps[i]);
  }

  // ---------- the node ----------

  ghost function OwnOne(): DataPart -> nat { (p: DataPart) => if p.own then 1 else 0 }

  ghost function OwnCount(ps: seq<DataPart>): nat { Sum(ps, OwnOne()) }

  /** Merging n own parts into one leaves n - 1 fewer. */
  lemma MergeOwnCount(ps: seq<DataPart>, chosen: seq<DataPart>, p: DataPart)
    requires DistinctIds(ps) && multiset(chosen) <= multiset(ps) && p.own
    requires forall i :: 0 <= i < |chosen| ==> chosen[i].own
    ensures OwnCount(Without(ps, Ids(chosen)) + [p]) + |chosen| == OwnCount(ps) + 1
  {
    hide Without, DistinctIds;
    var rest := Without(ps, Ids(chosen));
    WithoutChosen(ps, chosen);
    SumSplit(ps, rest, chosen, OwnOne());
    SumAppend(rest, [p], OwnOne());
    SumOne(p, OwnOne());
    SumOnes(chosen);
  }

  lemma {:induction false} SumOnes(ps: seq<DataPart>)
    requires forall i :: 0 <= i < |ps| ==> ps[i].own
    ensures Sum(ps, OwnOne()) == |ps|
  {
    if ps != [] { SumOnes(ps[..|ps| - 1]); }
  }

  // ---------- how many parts each level has ----------

  type Counts = nat -> nat

  ghost function LevelCounts(ps: seq<DataPart>): Counts { (l: nat) => |AtLevel(ps, l)| }

  /** Whether a pass upwards from `start` brings a merged part into level `l`; `first` comes into level `start`. */
  ghost function Carry(c: Counts, start: nat, first: nat, l: nat): nat
    decreases l
  {
    if l <= start then (if l == start then first else 0)
    else if c(l - 1) + Carry(c, start, first, l - 1) >= COMPACT_TRIGGER then 1 else 0
  }

  /** What the pass finds at level `l` when it gets there. */
  ghost function Found(c: Counts, start: nat, first: nat, l: nat): nat { c(l) + Carry(c, start, first, l) }

  /** And what it leaves: four go into the next level if there are four. */
  ghost function Left(c: Counts, start: nat, first: nat, l: nat): nat
  {
    var n := Found(c, start, first, l);
    if l >= start && n >= COMPACT_TRIGGER then n - COMPACT_TRIGGER else n
  }

  lemma {:induction false} CarrySame(c: Counts, d: Counts, start: nat, first: nat, l: nat)
    requires l >= start && c(start) + first == d(start) && forall k :: k > start ==> c(k) == d(k)
    ensures Found(c, start, first, l) == Found(d, start, 0, l)
    decreases l
  {
    if l > start { CarrySame(c, d, start, first, l - 1); }
  }

  /** Above the last part nothing is carried. */
  lemma {:induction false} CarryStops(c: Counts, start: nat, first: nat, top: nat, l: nat)
    requires start <= top <= l && Found(c, start, first, top) < COMPACT_TRIGGER && forall k :: k > top ==> c(k) == 0
    ensures l > top ==> Found(c, start, first, l) == 0
    decreases l
  {
    if l > top { CarryStops(c, start, first, top, l - 1); }
  }

  ghost function AtOne(l: nat): DataPart -> nat { (p: DataPart) => if Candidate(p, l) then 1 else 0 }

  lemma {:induction false} CountIsSum(ps: seq<DataPart>, l: nat)
    ensures |AtLevel(ps, l)| == Sum(ps, AtOne(l))
  {
    if ps != [] { CountIsSum(ps[..|ps| - 1], l); }
  }

  lemma {:induction false} SumOfLevel(ps: seq<DataPart>, level: nat, l: nat)
    requires forall i :: 0 <= i < |ps| ==> Candidate(ps[i], level)
    ensures Sum(ps, AtOne(l)) == if l == level then |ps| else 0
  {
    if ps != [] { SumOfLevel(ps[..|ps| - 1], level, l); }
  }

  /** A merge takes its parts from one level and adds one to the next. */
  lemma MergeCounts(ps: seq<DataPart>, chosen: seq<DataPart>, level: nat, p: DataPart, l: nat)
    requires DistinctIds(ps) && multiset(chosen) <= multiset(ps) && p.own && p.level == level + 1
    requires forall i :: 0 <= i < |chosen| ==> Candidate(chosen[i], level)
    ensures |AtLevel(Without(ps, Ids(chosen)) + [p], l)| + (if l == level then |chosen| else 0) ==
            |AtLevel(ps, l)| + if l == level + 1 then 1 else 0
  {
    hide Without, DistinctIds, AtLevel, Sum;
    var rest := Without(ps, Ids(chosen));
    WithoutChosen(ps, chosen);
    SumSplit(ps, rest, chosen, AtOne(l));
    SumAppend(rest, [p], AtOne(l));
    SumOne(p, AtOne(l));
    SumOfLevel(chosen, level, l);
    CountIsSum(ps, l);
    CountIsSum(rest + [p], l);
  }

  /** From ps to qs, up to four parts of the level became one of the next, and no other level changed. */
  ghost predicate MovedUp(ps: seq<DataPart>, qs: seq<DataPart>, level: nat)
  {
    forall l: nat ::
      |AtLevel(qs, l)| == |AtLevel(ps, l)| + (if l == level + 1 then 1 else 0)
                          - if l == level then Min(|AtLevel(ps, l)|, COMPACT_TRIGGER) else 0
  }

  lemma MergeMovesUp(ps: seq<DataPart>, chosen: seq<DataPart>, level: nat, p: DataPart)
    requires DistinctIds(ps) && Oldest(ps, level, chosen) && p.own && p.level == level + 1
    ensures MovedUp(ps, Without(ps, Ids(chosen)) + [p], level)
  {
    hide Without, DistinctIds, AtLevel, Ids;
    var qs := Without(ps, Ids(chosen)) + [p];
    forall l: nat
      ensures |AtLevel(qs, l)| == |AtLevel(ps, l)| + (if l == level + 1 then 1 else 0)
                                  - if l == level then Min(|AtLevel(ps, l)|, COMPACT_TRIGGER) else 0
    {
      MergeCounts(ps, chosen, level, p, l);
    }
  }

  /** The pass over the counts c from `start` has come to `level`, and the parts are now ps. */
  ghost predicate CameTo(c: Counts, start: nat, level: nat, ps: seq<DataPart>)
  {
    forall l: nat :: |AtLevel(ps, l)| == if l < level then Left(c, start, 0, l) else if l == level then Found(c, start, 0, l) else c(l)
  }

  lemma CameToStart(ps: seq<DataPart>, start: nat)
    ensures CameTo(LevelCounts(ps), start, start, ps)
  {
    forall l: nat ensures Carry(LevelCounts(ps), start, 0, l) == 0 || l > start {}
  }

  lemma CameToNext(c: Counts, start: nat, level: nat, ps: seq<DataPart>, qs: seq<DataPart>)
    requires level >= start && CameTo(c, start, level, ps)
    requires if |AtLevel(ps, level)| >= COMPACT_TRIGGER then MovedUp(ps, qs, level) else qs == ps
    ensures |AtLevel(ps, level)| == Found(c, start, 0, level)
    ensures CameTo(c, start, level + 1, qs)
  {
    hide AtLevel, Carry;
    assert Carry(c, start, 0, level + 1) == (if Found(c, start, 0, level) >= COMPACT_TRIGGER then 1 else 0) by { NextCarry(c, start, level); }
  }

  lemma CarriedIsMore(c: Counts, start: nat, l: nat)
    ensures Found(c, start, 0, l) >= c(l)
  {}

  lemma CameToBad(c: Counts, start: nat, level: nat, ps: seq<DataPart>)
    requires CameTo(c, start, level, ps)
    ensures Found(c, start, 0, level) == |AtLevel(ps, level)|
  {}

  lemma BelowStart(c: Counts, start: nat, l: nat)
    requires l < start
    ensures Left(c, start, 0, l) == c(l)
  {}

  lemma NextCarry(c: Counts, start: nat, level: nat)
    requires level >= start
    ensures Carry(c, start, 0, level + 1) == if Found(c, start, 0, level) >= COMPACT_TRIGGER then 1 else 0
  {}

  lemma CameToEnd(c: Counts, start: nat, level: nat, ps: seq<DataPart>)
    requires level >= start && CameTo(c, start, level, ps) && level > MaxLevel(ps)
    ensures forall l: nat :: |AtLevel(ps, l)| == Left(c, start, 0, l)
    ensures forall l :: l >= level ==> Found(c, start, 0, l) == 0 == c(l)
  {
    hide AtLevel, Carry, MaxLevel;
    forall l | l >= level ensures |AtLevel(ps, l)| == 0 { NoneAbove(ps, l); }
    forall l | l >= level ensures Found(c, start, 0, l) == 0 { if l > level { CarryStops(c, start, 0, level, l); } }
  }

  lemma {:induction false} NoneAbove(ps: seq<DataPart>, l: nat)
    requires l > MaxLevel(ps)
    ensures AtLevel(ps, l) == []
  {
    if ps != [] { NoneAbove(ps[..|ps| - 1], l); }
  }

  lemma ExactRest(u: Charset, ps: seq<DataPart>, ids: set<nat>, p: DataPart)
    requires AllExact(u, ps) && Exact(u, p)
    ensures AllExact(u, Without(ps, ids) + [p])
  {
    hide Exact, Without;
    WithoutMembers(ps, ids);
    var rest := Without(ps, ids);
    forall i | 0 <= i < |rest| ensures Exact(u, rest[i]) {
      var k :| 0 <= k < |ps| && ps[k] == rest[i];
    }
  }

  lemma ExactChosen(u: Charset, ps: seq<DataPart>, chosen: seq<DataPart>)
    requires AllExact(u, ps) && multiset(chosen) <= multiset(ps)
    ensures AllExact(u, chosen)
  {
    hide Exact;
    forall i | 0 <= i < |chosen| ensures Exact(u, chosen[i]) {
      assert chosen[i] in multiset(chosen);
      assert chosen[i] in multiset(ps);
      var k :| 0 <= k < |ps| && ps[k] == chosen[i];
    }
  }

  /** Replacing parts by one with the same rows keeps the rows. */
  lemma MergeKeepsRows(ps: seq<DataPart>, chosen: seq<DataPart>, p: DataPart)
    requires DistinctIds(ps) && multiset(chosen) <= multiset(ps) && multiset(RowsOf(p)) == multiset(AllRows(chosen))
    ensures multiset(AllRows(Without(ps, Ids(chosen)) + [p])) == multiset(AllRows(ps))
  {
    hide Without, DistinctIds, RowsOf;
    var rest := Without(ps, Ids(chosen));
    WithoutChosen(ps, chosen);
    RowsSplit(ps, rest, chosen);
    assert (rest + [p])[..|rest|] == rest;
  }

  lemma {:induction false} SomeRows(u: Charset, ps: seq<DataPart>)
    requires AllExact(u, ps) && ps != []
    ensures AllRows(ps) != []
  {
    assert Exact(u, ps[|ps| - 1]);
  }

  lemma InTimeOrder(rows: seq<Entry>)
    requires forall i, j :: 0 <= i < j < |rows| ==> rows[i].ts <= rows[j].ts
    ensures SortedByTime(rows)
  {}

  /** Everything one merge keeps. */
  lemma MergeStep(u: Charset, ps: seq<DataPart>, chosen: seq<DataPart>, level: nat, w: map<nat, nat>, flushes: nat, next: nat, p: DataPart)
    requires AllExact(u, ps) && Weighted(ps, w, flushes, next) && Oldest(ps, level, chosen)
    requires |chosen| == COMPACT_TRIGGER || (level == 0 && chosen != [])
    requires Exact(u, p) && p.own && p.id == next && p.level == level + 1 && multiset(RowsOf(p)) == multiset(AllRows(chosen))
    ensures AllExact(u, Without(ps, Ids(chosen)) + [p])
    ensures Weighted(Without(ps, Ids(chosen)) + [p], w[next := Sum(chosen, WeightOf(w))], flushes, next + 1)
    ensures multiset(AllRows(Without(ps, Ids(chosen)) + [p])) == multiset(AllRows(ps))
    ensures OwnCount(Without(ps, Ids(chosen)) + [p]) + |chosen| == OwnCount(ps) + 1
  {
    hide AllExact, Exact, RowsOf, AllRows, Without, DistinctIds, Sum, WeightOf, OwnCount, Heavy, AtLevel;
    ExactRest(u, ps, Ids(chosen), p);
    MergeWeighted(ps, chosen, w, flushes, next, p);
    MergeKeepsRows(ps, chosen, p);
    MergeOwnCount(ps, chosen, p);
  }

  /** The heap merge of the chosen parts, written as one part. */
  method MergeChosen(u: Charset, id: nat, level: nat, chosen: seq<DataPart>) returns (p: DataPart)
    requires AllExact(u, chosen) && chosen != []
    ensures Exact(u, p) && multiset(RowsOf(p)) == multiset(AllRows(chosen)) && p.own && p.id == id && p.level == level
  {
    hide Exact, SortedByTime, RowsOf, AllExact, AllRows;
    MergeReady(u, chosen);
    var rows := MergeRows.MergeEntries(BlocksOf(chosen));
    FlatIsAllRows(chosen);
    SomeRows(u, chosen);
    assert |rows| == |multiset(rows)| == |multiset(AllRows(chosen))| == |AllRows(chosen)|;
    InTimeOrder(rows);
    p := MergedPart(u, id, level, rows);
  }

  lemma ReturnedRows(u: Charset, parts: seq<DataPart>, mem: seq<Entry>, from: int, to: int, term: Text, result: seq<Entry>, e: Entry)
    requires AllExact(u, parts)
    requires multiset(result) == multiset(Picked(ScannedRows(u, parts, term) + mem, from, to, term))
    ensures Agrees(u) && StandsIn(u, term, e.data) ==> multiset(result)[e] == if Matches(e, from, to, term) then multiset(AllRows(parts) + mem)[e] else 0
    ensures Agrees(u) && Encodes(u) && u.plain(term) && StandsIn(u, term, e.data) ==> (Matches(e, from, to, term) <==> from <= e.ts <= to)
    ensures e in result ==> Matches(e, from, to, term)
  {
    hide Picked, ScannedRows, AllRows, AllExact, Agrees, Encodes, Matches, StandsIn;
    PickedCount(ScannedRows(u, parts, term) + mem, from, to, term, e);
    if Agrees(u) { DelimitedRowsReturned(u, parts, mem, from, to, term, result, e); }
  }

  function MaxLevel(ps: seq<DataPart>): nat
  {
    if ps == [] then 0
    else
      var m := MaxLevel(ps[..|ps| - 1]);
      if ps[|ps| - 1].own && ps[|ps| - 1].level > m then ps[|ps| - 1].level else m
  }

  lemma {:induction false} MaxLevelBounds(ps: seq<DataPart>, i: nat)
    requires i < |ps| && ps[i].own
    ensures ps[i].level <= MaxLevel(ps)
  {
    if i < |ps| - 1 { MaxLevelBounds(ps[..|ps| - 1], i); }
  }

  datatype Op = Rows(es: seq<Entry>) | PeerPart(p: DataPart) | FlushTick(sealOk: bool, restOk: bool) | CompactTick(bad: set<nat>) | Forced(bad: set<nat>)

  ghost predicate Adoptable(u: Charset, op: Op) { op.PeerPart? ==> Exact(u, op.p) && !op.p.own }

  function RowsIn(op: Op): seq<Entry> { if op.Rows? then op.es else [] }

  /** The rows written by a run of operations. */
  function Written(ops: seq<Op>): seq<Entry>
  {
    if ops == [] then [] else Written(ops[..|ops| - 1]) + RowsIn(ops[|ops| - 1])
  }

  lemma NothingWritten()
    ensures Written([]) == [] && AllRows([]) == []
  {}

  lemma WrittenNext(ops: seq<Op>, k: nat)
    requires k < |ops|
    ensures Written(ops[..k + 1]) == Written(ops[..k]) + RowsIn(ops[k])
  {
    assert ops[..k + 1][..k] == ops[..k];
  }

  lemma AllRowsAppend(ps: seq<DataPart>, qs: seq<DataPart>)
    requires |qs| <= 1
    ensures multiset(AllRows(ps + qs)) == multiset(AllRows(ps)) + multiset(AllRows(qs))
  {
    if qs == [] {
      assert ps + qs == ps;
    } else {
      assert qs == [qs[0]] == [] + [qs[0]];
      AllRowsSnoc(ps, qs[0]);
      AllRowsSnoc([], qs[0]);
    }
  }

  lemma AllRowsSnoc(ps: seq<DataPart>, p: DataPart)
    ensures multiset(AllRows(ps + [p])) == multiset(AllRows(ps)) + multiset(RowsOf(p))
  {
    assert (ps + [p])[..|ps|] == ps;
  }

  class Store {
    const u: Charset
    var parts: seq<DataPart>
    var mem: seq<Entry>
    var nextId: nat
    ghost var weight: map<nat, nat> // flushes that went into each own part
    ghost var flushes: nat

    ghost predicate Valid()
      reads this
    {
      AllExact(u, parts) && Weighted(parts, weight, flushes, nextId)
    }

    /** Every row the node holds, as often as it holds it. */
    ghost function Bag(): multiset<Entry>
      reads this
    {
      multiset(AllRows(parts)) + multiset(mem)
    }

    constructor (tables: Charset)
      ensures Valid() && parts == [] && mem == [] && flushes == 0
    {
      u := tables;
      parts, mem, nextId, weight, flushes := [], [], 0, map[], 0;
    }

    method Query(from: int, to: int, term: Text) returns (result: seq<Entry>)
      requires Valid()
      ensures SortedByTime(result)
      ensures multiset(result) == multiset(Picked(ScannedRows(u, parts, u.lowerString(term)) + mem, from, to, u.lowerString(term)))
      ensures u.lowerString(term) == [] ==> forall e :: multiset(result)[e] == if from <= e.ts <= to then Bag()[e] else 0
      ensures Agrees(u) ==> forall e: Entry :: StandsIn(u, u.lowerString(term), e.data) ==>
                multiset(result)[e] == if Matches(e, from, to, u.lowerString(term)) then Bag()[e] else 0
      ensures Agrees(u) && Encodes(u) && u.plain(u.lowerString(term)) ==> forall e: Entry :: StandsIn(u, u.lowerString(term), e.data) ==>
                multiset(result)[e] == if from <= e.ts <= to then Bag()[e] else 0
      ensures forall e :: e in result ==> Matches(e, from, to, u.lowerString(term))
    {
      hide AllRows, Weighted, AllExact, Picked, ScannedRows, Matches, StandsIn, Agrees, Encodes, SortedByTime;
      result := QueryRows(u, parts, mem, from, to, term);
      var low := u.lowerString(term);
      forall e ensures low == [] ==> multiset(result)[e] == if from <= e.ts <= to then Bag()[e] else 0 {
        if low == [] { EmptyTermAnswer(u, parts, mem, from, to, result, e); }
      }
      forall e: Entry
        ensures Agrees(u) && StandsIn(u, low, e.data) ==> multiset(result)[e] == if Matches(e, from, to, low) then Bag()[e] else 0
        ensures Agrees(u) && Encodes(u) && u.plain(low) && StandsIn(u, low, e.data) ==> (Matches(e, from, to, low) <==> from <= e.ts <= to)
        ensures e in result ==> Matches(e, from, to, low)
      {
        ReturnedRows(u, parts, mem, from, to, low, result, e);
      }
    }

    method Write(es: seq<Entry>)
      requires Valid()
      modifies this`mem
      ensures Valid() && mem == old(mem) + es && Bag() == old(Bag()) + multiset(es)
    {
      hide AllExact, Weighted, AllRows;
      mem := mem + es;
    }

    /** Lists a part another node put into the log, once. */
    method Adopt(p: DataPart) returns (added: bool)
      requires Valid() && Exact(u, p) && !p.own
      modifies this`parts, this`nextId
      ensures Valid()
      ensures added <==> forall i :: 0 <= i < |old(parts)| ==> old(parts)[i].id != p.id
      ensures parts == if added then old(parts) + [p] else old(parts)
      ensures Bag() == if added then old(Bag()) + multiset(RowsOf(p)) else old(Bag())
    {
      hide Exact, Weighted, RowsOf, AllRows;
      added := false;
      var i := 0;
      while i < |parts|
        invariant 0 <= i <= |parts| && forall k :: 0 <= k < i ==> parts[k].id != p.id
      {
        if parts[i].id == p.id { return; }
        i := i + 1;
      }
      AddForeign(parts, weight, flushes, nextId, p);
      AllRowsSnoc(parts, p);
      parts, nextId, added := parts + [p], if p.id < nextId then nextId else p.id + 1, true;
    }

    /** A flush, failing at the seal, failing later, or completing. */
    method Flush(sealOk: bool, restOk: bool) returns (done: bool)
      requires Valid()
      modifies this
      ensures Valid() && Bag() == old(Bag())
      ensures done <==> old(mem) != [] && sealOk && restOk
      ensures !done ==> parts == old(parts) && flushes == old(flushes) && multiset(mem) == multiset(old(mem))
      ensures done ==> mem == [] && flushes == old(flushes) + 1 && |parts| == |old(parts)| + 1 && parts[..|old(parts)|] == old(parts)
      ensures done ==> var p := parts[|parts| - 1]; p.own && p.level == 0 && multiset(RowsOf(p)) == multiset(old(mem))
    {
      hide Exact, SortedByTime, Weighted, RowsOf;
      if mem == [] || !sealOk { return false; }
      var rows := SortByTime(mem);
      assert |rows| == |multiset(rows)| == |mem|;
      if !restOk {
        mem := rows;
        return false;
      }
      var p := FlushedPart(u, nextId, rows);
      AddWeighted(parts, weight, flushes, nextId, p, 1);
      assert (parts + [p])[..|parts|] == parts;
      parts, mem := parts + [p], [];
      weight, flushes, nextId := weight[nextId := 1], flushes + 1, nextId + 1;
      done := true;
    }

    /** One level: its four oldest own parts, or up to four of level 0 when forced, become one part of the next level. */
    method CompactLevel(level: nat, force: bool, ioOk: bool) returns (merged: bool, failed: bool, ghost chosen: seq<DataPart>)
      requires Valid() && (force ==> level == 0)
      modifies this`parts, this`weight, this`nextId
      ensures Valid() && Bag() == old(Bag())
      ensures merged <==> ioOk && |AtLevel(old(parts), level)| >= (if force then 1 else COMPACT_TRIGGER)
      ensures failed <==> !ioOk && |AtLevel(old(parts), level)| >= (if force then 1 else COMPACT_TRIGGER)
      ensures !merged ==> parts == old(parts)
      ensures merged ==> MovedUp(old(parts), parts, level)
      ensures merged ==> Oldest(old(parts), level, chosen) && |parts| > 0 && parts[|parts| - 1].level == level + 1
      ensures merged ==> parts[..|parts| - 1] == Without(old(parts), Ids(chosen))
      ensures merged ==> multiset(RowsOf(parts[|parts| - 1])) == multiset(AllRows(chosen))
      ensures merged && !force ==> OwnCount(parts) < OwnCount(old(parts))
    {
      hide AllExact, Exact, Weighted, AllRows, RowsOf, AtLevel, Without, OwnCount, Sum, MovedUp;
      merged, failed, chosen := false, false, [];
      var levelParts := AtLevel(parts, level);
      if (!force && |levelParts| < COMPACT_TRIGGER) || |levelParts| == 0 { return; }
      var olds := Choose(parts, level);
      if !ioOk {
        failed := true;
        return;
      }
      ExactChosen(u, parts, olds);
      var p := MergeChosen(u, nextId, level + 1, olds);
      MergeStep(u, parts, olds, level, weight, flushes, nextId, p);
      WeightedDistinct(parts, weight, flushes, nextId);
      MergeMovesUp(parts, olds, level, p);
      weight := weight[nextId := Sum(olds, WeightOf(weight))];
      parts, nextId := Without(parts, Ids(olds)) + [p], nextId + 1;
      merged, chosen := true, olds;
    }

    method MaxPartLevel() returns (m: nat)
      ensures m == MaxLevel(parts)
    {
      m := 0;
      var i := 0;
      while i < |parts|
        invariant 0 <= i <= |parts| && m == MaxLevel(parts[..i])
      {
        assert parts[..i + 1][..i] == parts[..i];
        if parts[i].own && parts[i].level > m { m := parts[i].level; }
        i := i + 1;
      }
      assert parts[..i] == parts;
    }

    /**
     The loop over all levels from start on, the highest level read again each round; merges
     at the levels in `bad` fail. It ends: a merge leaves fewer own parts, and without one the
     level draws nearer the highest. Each level that has four parts, or has them once the
     level below was merged into it, passes four on as one.
     */
    method CompactLevels(start: nat, bad: set<nat>) returns (ok: bool)
      requires Valid()
      modifies this`parts, this`weight, this`nextId
      ensures Valid() && Bag() == old(Bag()) && OwnCount(parts) <= OwnCount(old(parts))
      ensures ok <==> forall l :: l in bad && l >= start ==> Found(LevelCounts(old(parts)), start, 0, l) < COMPACT_TRIGGER
      ensures ok ==> forall l: nat :: |AtLevel(parts, l)| == Left(LevelCounts(old(parts)), start, 0, l)
      ensures ok && (exists l :: l >= start && |AtLevel(old(parts), l)| >= COMPACT_TRIGGER) ==> OwnCount(parts) < OwnCount(old(parts))
    {
      hide AllExact, Weighted, AllRows, OwnCount, Oldest, MaxLevel, AtLevel, CameTo, MovedUp, Found, Left;
      ok := true;
      ghost var before := parts;
      ghost var c := LevelCounts(parts);
      CameToStart(parts, start);
      var level := start;
      var top := MaxPartLevel();
      while level <= top
        invariant Valid() && Bag() == old(Bag()) && OwnCount(parts) <= OwnCount(before) && top == MaxLevel(parts) && level >= start
        invariant CameTo(c, start, level, parts)
        invariant forall l :: l in bad && start <= l < level ==> Found(c, start, 0, l) < COMPACT_TRIGGER
        invariant (exists l :: start <= l < level && c(l) >= COMPACT_TRIGGER) ==> OwnCount(parts) < OwnCount(before)
        decreases OwnCount(parts), if level <= top then top - level + 1 else 0
      {
        ghost var was := parts;
        CarriedIsMore(c, start, level);
        var merged, failed;
        ghost var chosen;
        merged, failed, chosen := CompactLevel(level, false, level !in bad);
        if failed {
          CameToBad(c, start, level, was);
          return false;
        }
        CameToNext(c, start, level, was, parts);
        level := level + 1;
        top := MaxPartLevel();
      }
      CameToEnd(c, start, level, parts);
      if l: nat :| l >= start && |AtLevel(before, l)| >= COMPACT_TRIGGER { assert c(l) >= COMPACT_TRIGGER && l < level; }
    }

    /** Compact: level 0 forced, then the levels above. */
    method Compact(bad: set<nat>) returns (ok: bool)
      requires Valid()
      modifies this`parts, this`weight, this`nextId
      ensures Valid() && Bag() == old(Bag())
      ensures ok ==> |AtLevel(parts, 0)| == |AtLevel(old(parts), 0)| - Min(|AtLevel(old(parts), 0)|, COMPACT_TRIGGER)
      ensures ok ==> forall l: nat :: l >= 1 ==> |AtLevel(parts, l)| == Left(LevelCounts(old(parts)), 1, Min(|AtLevel(old(parts), 0)|, 1), l)
      ensures ok <==>
                && (0 in bad ==> AtLevel(old(parts), 0) == [])
                && forall l :: l in bad && l >= 1 ==> Found(LevelCounts(old(parts)), 1, Min(|AtLevel(old(parts), 0)|, 1), l) < COMPACT_TRIGGER
    {
      hide AllExact, Weighted, AllRows, OwnCount, Oldest, AtLevel, Carry;
      ghost var c := LevelCounts(parts);
      var merged, failed;
      ghost var chosen;
      merged, failed, chosen := CompactLevel(0, true, 0 !in bad);
      if failed { return false; }
      ghost var d := LevelCounts(parts);
      forall l: nat | l >= 1 ensures Found(c, 1, Min(c(0), 1), l) == Found(d, 1, 0, l) { CarrySame(c, d, 1, Min(c(0), 1), l); }
      BelowStart(d, 1, 0);
      ok := CompactLevels(1, bad);
    }

    /** One operation; `adopted` is the peer's part, if it was new. */
    method Do(op: Op) returns (ghost adopted: seq<DataPart>)
      requires Valid() && Adoptable(u, op)
      modifies this
      ensures Valid() && Bag() == old(Bag()) + multiset(RowsIn(op)) + multiset(AllRows(adopted))
      ensures adopted == [] || (op.PeerPart? && adopted == [op.p])
      ensures flushes <= old(flushes) + 1
    {
      hide Exact, AllExact, Weighted, AllRows, RowsOf, OwnCount, MaxLevel, Oldest;
      NothingWritten();
      adopted := [];
      match op {
        case Rows(es) => Write(es);
        case PeerPart(p) =>
          var added := Adopt(p);
          if added {
            AllRowsSnoc([], p);
            adopted := [] + [p];
          }
        case FlushTick(sealOk, restOk) => var done := Flush(sealOk, restOk);
        case CompactTick(bad) => var ok := CompactLevels(0, bad);
        case Forced(bad) => var ok := Compact(bad);
      }
    }

    /** What a node does between startup and shutdown, in any order: every row that came in is there once for each time it came. */
    method Serve(ops: seq<Op>) returns (ghost adopted: seq<DataPart>)
      requires Valid() && forall i :: 0 <= i < |ops| ==> Adoptable(u, ops[i])
      modifies this
      ensures Valid() && Bag() == old(Bag()) + multiset(Written(ops)) + multiset(AllRows(adopted))
      ensures forall p :: p in adopted ==> PeerPart(p) in ops
      ensures flushes <= old(flushes) + |ops|
      ensures forall i :: 0 <= i < |parts| && parts[i].own && parts[i].level >= 1 ==> Pow4(parts[i].level - 1) <= old(flushes) + |ops|
    {
      hide Adoptable, RowsIn, AllExact, Weighted, AllRows, Pow4, Written;
      adopted := [];
      var k := 0;
      NothingWritten();
      while k < |ops|
        invariant 0 <= k <= |ops| && Valid()
        invariant Bag() == old(Bag()) + multiset(Written(ops[..k])) + multiset(AllRows(adopted))
        invariant forall p :: p in adopted ==> PeerPart(p) in ops
        invariant flushes <= old(flushes) + k
      {
        WrittenNext(ops, k);
        ghost var new_ := Do(ops[k]);
        AllRowsAppend(adopted, new_);
        adopted := adopted + new_;
        k := k + 1;
      }
      assert ops[..k] == ops;
      forall i | 0 <= i < |parts| && parts[i].own && parts[i].level >= 1 ensures Pow4(parts[i].level - 1) <= flushes {
        LevelIsLogarithmic(parts, weight, flushes, nextId, i);
      }
    }
  }
}
