/** Parts taken together: sums over them, the rows they hold, and what is left when some are replaced. */
module PartBags {
  import opened Prelude
  import opened StringOrder
  import opened Tokens
  import opened TokenSets
  import opened Query
  import HeapMerge
  import MergeRows
  import PartFile

  // ---------- sums ----------

  ghost function Sum(ps: seq<DataPart>, f: DataPart -> nat): nat
  {
    if ps == [] then 0 else Sum(ps[..|ps| - 1], f) + f(ps[|ps| - 1])
  }

  lemma {:induction false} SumAppend(a: seq<DataPart>, b: seq<DataPart>, f: DataPart -> nat)
    ensures Sum(a + b, f) == Sum(a, f) + Sum(b, f)
  {
    if b == [] {
      assert a + b == a;
    } else {
      assert (a + b)[..|a + b| - 1] == a + b[..|b| - 1];
      SumAppend(a, b[..|b| - 1], f);
    }
  }

  lemma SumOne(p: DataPart, f: DataPart -> nat)
    ensures Sum([p], f) == f(p)
  {
    assert [p][..0] == [];
  }

  lemma {:induction false} SumBag(a: seq<DataPart>, b: seq<DataPart>, f: DataPart -> nat)
    requires multiset(a) == multiset(b)
    ensures Sum(a, f) == Sum(b, f)
  {
    if a == [] {
      assert |b| == |multiset(b)| == |multiset(a)| == 0;
    } else {
      var n := |a| - 1;
      var p := a[n];
      assert p in multiset(a);
      var j :| 0 <= j < |b| && b[j] == p;
      assert a == a[..n] + [p];
      assert b == b[..j] + [p] + b[j + 1..];
      assert multiset(b[..j] + b[j + 1..]) == multiset(b) - multiset{p};
      SumBag(a[..n], b[..j] + b[j + 1..], f);
      SumAppend(b[..j], b[j + 1..], f);
      SumAppend(b[..j], [p], f);
      SumAppend(b[..j] + [p], b[j + 1..], f);
      SumOne(p, f);
    }
  }

  /** A bag of parts split in two sums the same. */
  lemma SumSplit(ps: seq<DataPart>, a: seq<DataPart>, b: seq<DataPart>, f: DataPart -> nat)
    requires multiset(ps) == multiset(a) + multiset(b)
    ensures Sum(ps, f) == Sum(a, f) + Sum(b, f)
  {
    assert multiset(a + b) == multiset(ps);
    SumBag(ps, a + b, f);
    SumAppend(a, b, f);
  }

  lemma {:induction false} SumMono(ps: seq<DataPart>, f: DataPart -> nat, i: nat)
    requires i < |ps|
    ensures f(ps[i]) <= Sum(ps, f)
  {
    if i < |ps| - 1 { SumMono(ps[..|ps| - 1], f, i); }
  }

  lemma {:induction false} SumAtLeast(ps: seq<DataPart>, f: DataPart -> nat, least: nat)
    requires forall i :: 0 <= i < |ps| ==> f(ps[i]) >= least
    ensures Sum(ps, f) >= |ps| * least
  {
    if ps != [] {
      SumAtLeast(ps[..|ps| - 1], f, least);
      assert |ps| * least == (|ps| - 1) * least + least;
    }
  }

  lemma {:induction false} SumSame(ps: seq<DataPart>, f: DataPart -> nat, g: DataPart -> nat)
    requires forall i :: 0 <= i < |ps| ==> f(ps[i]) == g(ps[i])
    ensures Sum(ps, f) == Sum(ps, g)
  {
    if ps != [] { SumSame(ps[..|ps| - 1], f, g); }
  }

  // ---------- rows ----------

  ghost function RowCount(e: Entry): DataPart -> nat { p => multiset(RowsOf(p))[e] }

  lemma {:induction false} RowsAreSum(ps: seq<DataPart>, e: Entry)
    ensures multiset(AllRows(ps))[e] == Sum(ps, RowCount(e))
  {
    if ps != [] { RowsAreSum(ps[..|ps| - 1], e); }
  }

  /** Splitting the bag of parts splits the bag of rows. */
  lemma RowsSplit(ps: seq<DataPart>, a: seq<DataPart>, b: seq<DataPart>)
    requires multiset(ps) == multiset(a) + multiset(b)
    ensures multiset(AllRows(ps)) == multiset(AllRows(a)) + multiset(AllRows(b))
  {
    hide Sum, AllRows, RowCount;
    forall e ensures multiset(AllRows(ps))[e] == multiset(AllRows(a))[e] + multiset(AllRows(b))[e] {
      RowsAreSum(ps, e);
      RowsAreSum(a, e);
      RowsAreSum(b, e);
      SumSplit(ps, a, b, RowCount(e));
    }
  }

  // ---------- replacing parts ----------

  ghost predicate DistinctIds(ps: seq<DataPart>) { forall i, j :: 0 <= i < j < |ps| ==> ps[i].id != ps[j].id }

  function Ids(ps: seq<DataPart>): set<nat> { set i | 0 <= i < |ps| :: ps[i].id }

  function Without(ps: seq<DataPart>, ids: set<nat>): seq<DataPart>
  {
    if ps == [] then []
    else Without(ps[..|ps| - 1], ids) + (if ps[|ps| - 1].id in ids then [] else [ps[|ps| - 1]])
  }

  lemma {:induction false} WithoutCount(ps: seq<DataPart>, ids: set<nat>, p: DataPart)
    ensures multiset(Without(ps, ids))[p] == if p.id in ids then 0 else multiset(ps)[p]
  {
    if ps != [] {
      WithoutCount(ps[..|ps| - 1], ids, p);
      assert ps == ps[..|ps| - 1] + [ps[|ps| - 1]];
    }
  }

  lemma {:induction false} DistinctOnce(ps: seq<DataPart>, p: DataPart)
    requires DistinctIds(ps)
    ensures multiset(ps)[p] <= 1
  {
    if ps != [] {
      var n := |ps| - 1;
      DistinctOnce(ps[..n], p);
      assert ps == ps[..n] + [ps[n]];
      assert ps[n] !in ps[..n];
    }
  }

  /** Removing the chosen parts by ID removes exactly them. */
  lemma WithoutChosen(ps: seq<DataPart>, chosen: seq<DataPart>)
    requires DistinctIds(ps) && multiset(chosen) <= multiset(ps)
    ensures multiset(ps) == multiset(Without(ps, Ids(chosen))) + multiset(chosen)
  {
    hide Without;
    var rest := Without(ps, Ids(chosen));
    assert forall p :: p in chosen ==> p.id in Ids(chosen);
    forall p ensures multiset(ps)[p] == multiset(rest)[p] + multiset(chosen)[p] {
      WithoutCount(ps, Ids(chosen), p);
      DistinctOnce(ps, p);
      if p.id in Ids(chosen) && p in ps {
        var i :| 0 <= i < |chosen| && chosen[i].id == p.id;
        assert chosen[i] in multiset(chosen);
        assert chosen[i] in multiset(ps);
        SameId(ps, p, chosen[i]);
      }
    }
  }

  lemma SameId(ps: seq<DataPart>, p: DataPart, q: DataPart)
    requires DistinctIds(ps) && p in ps && q in ps && p.id == q.id
    ensures p == q
  {
    var i :| 0 <= i < |ps| && ps[i] == p;
    var j :| 0 <= j < |ps| && ps[j] == q;
  }

  lemma {:induction false} WithoutMembers(ps: seq<DataPart>, ids: set<nat>)
    ensures forall i :: 0 <= i < |Without(ps, ids)| ==> Without(ps, ids)[i] in ps
    ensures DistinctIds(ps) ==> DistinctIds(Without(ps, ids))
  {
    if ps != [] {
      var n := |ps| - 1;
      WithoutMembers(ps[..n], ids);
      assert forall p :: p in ps[..n] ==> p in ps;
      if DistinctIds(ps) {
        forall i | 0 <= i < |Without(ps[..n], ids)| ensures Without(ps[..n], ids)[i].id != ps[n].id {
          assert Without(ps[..n], ids)[i] in ps[..n];
        }
      }
    }
  }

  // ---------- merging ----------

  function BlocksOf(ps: seq<DataPart>): (r: seq<seq<seq<Entry>>>)
    ensures |r| == |ps| && forall i :: 0 <= i < |ps| ==> r[i] == ps[i].blocks
  {
    seq(|ps|, i requires 0 <= i < |ps| => ps[i].blocks)
  }

  lemma {:induction false} FlatIsAllRows(ps: seq<DataPart>)
    ensures MergeRows.FlatParts(BlocksOf(ps)) == AllRows(ps)
  {
    if ps != [] {
      assert BlocksOf(ps)[..|ps| - 1] == BlocksOf(ps[..|ps| - 1]);
      FlatIsAllRows(ps[..|ps| - 1]);
    }
  }

  /** In a sorted part a position further on is no earlier in time. */
  lemma {:induction false} PositionsByTime(blocks: seq<seq<Entry>>, a: nat, i: nat, b: nat, j: nat)
    requires SortedByTime(Concat(blocks)) && b < |blocks| && j < |blocks[b]|
    requires a < |blocks| && i < |blocks[a]| && (a < b || (a == b && i < j))
    ensures blocks[a][i].ts <= blocks[b][j].ts
  {
    var n := |blocks| - 1;
    var front, all := Concat(blocks[..n]), Concat(blocks);
    assert all == front + blocks[n];
    if b < n {
      assert forall k :: 0 <= k < |front| ==> front[k] == all[k];
      PositionsByTime(blocks[..n], a, i, b, j);
    } else if a == n {
      assert all[|front| + i] == blocks[n][i] && all[|front| + j] == blocks[n][j];
    } else {
      var k := InConcat(blocks[..n], a, i);
      assert all[k] == blocks[a][i] && all[|front| + j] == blocks[n][j];
    }
  }

  lemma {:induction false} InConcat(blocks: seq<seq<Entry>>, a: nat, i: nat) returns (k: nat)
    requires a < |blocks| && i < |blocks[a]|
    ensures k < |Concat(blocks)| && Concat(blocks)[k] == blocks[a][i]
  {
    var n := |blocks| - 1;
    if a == n { k := |Concat(blocks[..n])| + i; } else { k := InConcat(blocks[..n], a, i); }
  }

  lemma MergeReady(u: Charset, ps: seq<DataPart>)
    requires AllExact(u, ps)
    ensures HeapMerge.TimeSorted(BlocksOf(ps))
    ensures forall c :: HeapMerge.InPart(BlocksOf(ps), c) ==> HeapMerge.Reachable(BlocksOf(ps), c)
  {
    hide Capped, Concat, SortedByTime;
    var bs := BlocksOf(ps);
    forall p, a | 0 <= p < |bs| && 0 <= a < |bs[p]| ensures bs[p][a] != [] {
      assert Exact(u, ps[p]);
    }
    HeapMerge.AllReachableIffNoEmptyBlockBefore(bs);
    forall c, d | HeapMerge.Reachable(bs, c) && HeapMerge.Reachable(bs, d) && HeapMerge.Earlier(c, d) ensures c.ts <= d.ts {
      assert Exact(u, ps[c.part]);
      PositionsByTime(bs[c.part], c.block, c.idx, d.block, d.idx);
    }
  }

  // ---------- writing a part ----------

  lemma {:induction false} FlatIsConcat(bs: seq<seq<Entry>>)
    ensures PartFile.Flat(bs) == Concat(bs)
  {
    if bs == [] {
    } else {
      var n := |bs| - 1;
      FlatIsConcat(bs[..n]);
      assert bs == bs[..n] + [bs[n]];
      PartFile.FlatAppend(bs[..n], [bs[n]]);
      assert PartFile.Flat([bs[n]]) == bs[n] + PartFile.Flat([]);
    }
  }

  function TextBlocks(u: Charset, bs: seq<seq<Entry>>): (r: seq<seq<Text>>)
    ensures |r| == |bs| && forall i :: 0 <= i < |bs| ==> r[i] == Texts(u, bs[i])
  {
    seq(|bs|, i requires 0 <= i < |bs| => Texts(u, bs[i]))
  }

  lemma {:induction false} TextsOfBlocks(u: Charset, bs: seq<seq<Entry>>)
    ensures Concat(TextBlocks(u, bs)) == Texts(u, Concat(bs))
  {
    if bs != [] {
      var n := |bs| - 1;
      assert TextBlocks(u, bs)[..n] == TextBlocks(u, bs[..n]);
      TextsOfBlocks(u, bs[..n]);
      assert Texts(u, Concat(bs[..n]) + bs[n]) == Texts(u, Concat(bs[..n])) + Texts(u, bs[n]);
    }
  }

  /** Cuts rows into blocks of the default size, none of them empty. */
  method CutRows(rows: seq<Entry>) returns (blocks: seq<seq<Entry>>)
    ensures Concat(blocks) == rows && forall b :: 0 <= b < |blocks| ==> blocks[b] != []
  {
    blocks := PartFile.CutStream(rows, PartFile.DEFAULT_ROWS);
    PartFile.CutIsPartition(rows, PartFile.DEFAULT_ROWS);
    FlatIsConcat(blocks);
  }
}
