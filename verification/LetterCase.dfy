/** Search ignores ASCII case. */
module LetterCase {
  // Two stores whose rows differ only in the case of ASCII letters answer every query alike:
  // part by part the same tokens are stored, so the same parts are scanned, and row by row
  // the same rows match.

  import opened Prelude
  import opened StringOrder
  import opened Tokens
  import opened TokenSets
  import opened Query

  predicate SameLetter(a: int, b: int)
  {
    a == b || (65 <= a <= 90 && b == a + 32) || (65 <= b <= 90 && a == b + 32)
  }

  predicate SameButCase(s: Text, t: Text) { |s| == |t| && forall i :: 0 <= i < |s| ==> SameLetter(s[i], t[i]) }

  predicate SameRow(e: Entry, f: Entry) { e.ts == f.ts && SameButCase(e.data, f.data) }

  predicate SameRows(xs: seq<Entry>, ys: seq<Entry>) { |xs| == |ys| && forall i :: 0 <= i < |xs| ==> SameRow(xs[i], ys[i]) }

  ghost predicate SameParts(ps: seq<DataPart>, qs: seq<DataPart>)
  {
    |ps| == |qs| && forall i :: 0 <= i < |ps| ==> SameRows(RowsOf(ps[i]), RowsOf(qs[i]))
  }

  /** Decoding turns ASCII bytes into themselves, so it keeps what differs in case only. */
  ghost predicate KeepsCase(u: Charset)
  {
    forall s, t :: SameButCase(s, t) ==> SameButCase(u.decode(s), u.decode(t))
  }

  // ---------- one row ----------

  lemma FoldSame(s: Text, t: Text)
    requires SameButCase(s, t)
    ensures FoldAll(s) == FoldAll(t)
  {
    forall i | 0 <= i < |s| ensures Fold(s[i]) == Fold(t[i]) { assert SameLetter(s[i], t[i]); }
  }

  lemma FoundSame(s: Text, t: Text, term: Text, i: nat)
    requires SameButCase(s, t)
    ensures FoldedAt(s, term, i) <==> FoldedAt(t, term, i)
  {
    if i + |term| <= |s| {
      var a, b := s[i..i + |term|], t[i..i + |term|];
      forall k | 0 <= k < |a| ensures SameLetter(a[k], b[k]) { assert SameLetter(s[i + k], t[i + k]); }
      FoldSame(a, b);
    }
  }

  lemma MatchesSame(e: Entry, f: Entry, from: int, to: int, term: Text)
    requires SameRow(e, f)
    ensures Matches(e, from, to, term) <==> Matches(f, from, to, term)
  {
    forall i: nat ensures FoldedAt(e.data, term, i) <==> FoldedAt(f.data, term, i) { FoundSame(e.data, f.data, term, i); }
  }

  lemma {:induction false} PickedSame(xs: seq<Entry>, ys: seq<Entry>, from: int, to: int, term: Text)
    requires SameRows(xs, ys)
    ensures SameRows(Picked(xs, from, to, term), Picked(ys, from, to, term))
  {
    hide Matches, SameRow;
    if xs != [] {
      var n := |xs| - 1;
      PickedSame(xs[..n], ys[..n], from, to, term);
      MatchesSame(xs[n], ys[n], from, to, term);
    }
  }

  // ---------- which parts are scanned ----------

  lemma {:induction false} TokensSame(u: Charset, xs: seq<Text>, ys: seq<Text>)
    requires Agrees(u) && |xs| == |ys| && forall i :: 0 <= i < |xs| ==> SameButCase(xs[i], ys[i])
    ensures AllTokens(u, xs) == AllTokens(u, ys)
  {
    if xs != [] {
      var n := |xs| - 1;
      TokensSame(u, xs[..n], ys[..n]);
      FoldSame(xs[n], ys[n]);
      FoldInvisible(u, xs[n]);
      FoldInvisible(u, ys[n]);
    }
  }

  lemma KeepsSame(u: Charset, a: seq<Text>, b: seq<Text>, term: Text)
    requires forall t :: t in a <==> t in b
    ensures Keeps(u, a, term) <==> Keeps(u, b, term)
  {
    if a != [] { assert a[0] in b; }
    if b != [] { assert b[0] in a; }
  }

  lemma ScannedSame(u: Charset, p: DataPart, q: DataPart, term: Text)
    requires Agrees(u) && KeepsCase(u) && Exact(u, p) && Exact(u, q) && SameRows(RowsOf(p), RowsOf(q))
    ensures Scanned(u, p, term) <==> Scanned(u, q, term)
  {
    hide Agrees, SortedByTime, Concat, Keeps, SameButCase, AllTokens;
    var xs, ys := Texts(u, RowsOf(p)), Texts(u, RowsOf(q));
    forall i | 0 <= i < |xs| ensures SameButCase(xs[i], ys[i]) { assert SameRow(RowsOf(p)[i], RowsOf(q)[i]); }
    TokensSame(u, xs, ys);
    KeepsSame(u, p.tokens, q.tokens, u.decode(term));
  }

  lemma SameRowsJoin(a: seq<Entry>, b: seq<Entry>, c: seq<Entry>, d: seq<Entry>)
    requires SameRows(a, b) && SameRows(c, d)
    ensures SameRows(a + c, b + d)
  {
    hide SameRow;
  }

  lemma {:induction false} ScannedRowsSame(u: Charset, ps: seq<DataPart>, qs: seq<DataPart>, term: Text)
    requires Agrees(u) && KeepsCase(u) && AllExact(u, ps) && AllExact(u, qs) && SameParts(ps, qs)
    ensures SameRows(ScannedRows(u, ps, term), ScannedRows(u, qs, term))
  {
    if ps != [] {
      hide Agrees, KeepsCase, Exact, Scanned, SameRows, Concat;
      var n := |ps| - 1;
      ScannedRowsSame(u, ps[..n], qs[..n], term);
      ScannedSame(u, ps[n], qs[n], term);
      NoneSame();
      SameRowsJoin(ScannedRows(u, ps[..n], term), ScannedRows(u, qs[..n], term), Offered(u, ps[n], term), Offered(u, qs[n], term));
    } else {
      NoneSame();
    }
  }

  lemma NoneSame()
    ensures SameRows([], [])
  {}

  // ---------- counting rows up to case ----------

  /** How many rows read like e but for case. */
  function Alike(rows: seq<Entry>, e: Entry): nat
  {
    if rows == [] then 0 else Alike(rows[..|rows| - 1], e) + if SameRow(rows[|rows| - 1], e) then 1 else 0
  }

  lemma SameRowLike(e: Entry, f: Entry, g: Entry)
    requires SameRow(e, f)
    ensures SameRow(e, g) <==> SameRow(f, g)
  {
    if |e.data| == |g.data| {
      forall i | 0 <= i < |e.data| ensures SameLetter(e.data[i], g.data[i]) <==> SameLetter(f.data[i], g.data[i]) {
        assert SameLetter(e.data[i], f.data[i]);
      }
    }
  }

  lemma {:induction false} AlikeSame(xs: seq<Entry>, ys: seq<Entry>, e: Entry)
    requires SameRows(xs, ys)
    ensures Alike(xs, e) == Alike(ys, e)
  {
    hide SameRow;
    if xs != [] {
      var n := |xs| - 1;
      AlikeSame(xs[..n], ys[..n], e);
      SameRowLike(xs[n], ys[n], e);
    }
  }

  lemma {:induction false} AlikeAppend(a: seq<Entry>, b: seq<Entry>, e: Entry)
    ensures Alike(a + b, e) == Alike(a, e) + Alike(b, e)
  {
    hide SameRow;
    if b == [] {
      assert a + b == a;
    } else {
      assert (a + b)[..|a + b| - 1] == a + b[..|b| - 1];
      AlikeAppend(a, b[..|b| - 1], e);
    }
  }

  lemma {:induction false} AlikePermuted(a: seq<Entry>, b: seq<Entry>, e: Entry)
    requires multiset(a) == multiset(b)
    ensures Alike(a, e) == Alike(b, e)
    decreases |a|
  {
    hide SameRow;
    if a == [] {
      assert |multiset(b)| == 0;
    } else {
      var n := |a| - 1;
      assert a == a[..n] + [a[n]];
      assert a[n] in multiset(b);
      var k :| 0 <= k < |b| && b[k] == a[n];
      var rest := b[..k] + b[k + 1..];
      assert b == b[..k] + [b[k]] + b[k + 1..];
      assert multiset(a) == multiset(a[..n]) + multiset{a[n]};
      assert multiset(b) == multiset(rest) + multiset{b[k]};
      assert multiset(a[..n]) == multiset(a) - multiset{a[n]} == multiset(rest);
      AlikePermuted(a[..n], rest, e);
      AlikeAppend(b[..k], b[k + 1..], e);
      AlikeAppend(b[..k] + [b[k]], b[k + 1..], e);
      AlikeAppend(b[..k], [b[k]], e);
      AlikeAppend(a[..n], [a[n]], e);
    }
  }

  /**
   Changing the case of ASCII letters in the rows of a store changes no answer: for every
   query, the answers hold as many rows that read like e but for case, whatever e is.
   */
  lemma CaseNeverMatters(u: Charset, ps: seq<DataPart>, mem: seq<Entry>, qs: seq<DataPart>, mem2: seq<Entry>,
                         from: int, to: int, term: Text, a: seq<Entry>, b: seq<Entry>, e: Entry)
    requires Agrees(u) && KeepsCase(u) && AllExact(u, ps) && AllExact(u, qs) && SameParts(ps, qs) && SameRows(mem, mem2)
    requires multiset(a) == multiset(Picked(ScannedRows(u, ps, term) + mem, from, to, term))
    requires multiset(b) == multiset(Picked(ScannedRows(u, qs, term) + mem2, from, to, term))
    ensures Alike(a, e) == Alike(b, e) && |a| == |b|
  {
    hide Agrees, KeepsCase, AllExact, SameParts, ScannedRows, Picked, Alike, SameRow;
    var xs, ys := ScannedRows(u, ps, term) + mem, ScannedRows(u, qs, term) + mem2;
    ScannedRowsSame(u, ps, qs, term);
    SameRowsJoin(ScannedRows(u, ps, term), ScannedRows(u, qs, term), mem, mem2);
    PickedSame(xs, ys, from, to, term);
    var x, y := Picked(xs, from, to, term), Picked(ys, from, to, term);
    AlikeSame(x, y, e);
    AlikePermuted(a, x, e);
    AlikePermuted(b, y, e);
    assert |a| == |multiset(a)| == |x| && |b| == |multiset(b)| == |y|;
  }

  /** A row of the memtable is in the answer exactly when the lowercase term occurs in it in some case, in the time range. */
  lemma MemtableRowFound(u: Charset, ps: seq<DataPart>, mem: seq<Entry>, from: int, to: int, term: Text, a: seq<Entry>, e: Entry)
    requires multiset(a) == multiset(Picked(ScannedRows(u, ps, term) + mem, from, to, term)) && e in mem
    ensures e in a <==> from <= e.ts <= to && exists i: nat :: StandsAt(e.data, term, i)
  {
    hide Picked, ScannedRows;
    var rows := ScannedRows(u, ps, term) + mem;
    PickedCount(rows, from, to, term, e);
    assert e in rows && multiset(rows)[e] > 0;
    forall i: nat ensures FoldedAt(e.data, term, i) <==> StandsAt(e.data, term, i) { FoldedIsStanding(e.data, term, i); }
    assert e in a <==> e in multiset(a);
    if term == [] { assert StandsAt(e.data, term, 0); }
  }
}
