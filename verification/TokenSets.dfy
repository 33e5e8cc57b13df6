/** Token sets and pruning. */
module TokenSets {
  // The capped token set of a part, its three builders, and pruning by it.

  import opened Prelude
  import opened StringOrder
  import opened Tokens

  function AllTokens(u: Charset, rows: seq<Text>): seq<Text>
  {
    if rows == [] then [] else AllTokens(u, rows[..|rows| - 1]) + Tokenize(u, rows[|rows| - 1])
  }

  /** The distinct tokens in the order they are first met. */
  function FirstSeen(ts: seq<Text>): seq<Text>
  {
    if ts == [] then []
    else
      var f := FirstSeen(ts[..|ts| - 1]);
      if ts[|ts| - 1] in f then f else f + [ts[|ts| - 1]]
  }

  function Cap(f: seq<Text>): seq<Text> { if |f| <= MAX_TOKENS then f else f[..MAX_TOKENS] }

  /** The stored set: the first MAX_TOKENS distinct tokens in ascending order, and whether there were more. */
  ghost predicate Capped(tokens: seq<Text>, truncated: bool, ts: seq<Text>)
  {
    && StrictlySorted(tokens)
    && (forall t :: t in tokens <==> t in Cap(FirstSeen(ts)))
    && (truncated <==> |FirstSeen(ts)| > MAX_TOKENS)
  }

  lemma {:induction false} FirstSeenHas(ts: seq<Text>, t: Text)
    ensures t in FirstSeen(ts) <==> t in ts
  {
    if ts != [] {
      FirstSeenHas(ts[..|ts| - 1], t);
      assert ts == ts[..|ts| - 1] + [ts[|ts| - 1]];
    }
  }

  lemma FirstSeenNext(ts: seq<Text>, t: Text)
    ensures FirstSeen(ts + [t]) == if t in FirstSeen(ts) then FirstSeen(ts) else FirstSeen(ts) + [t]
  {
    assert (ts + [t])[..|ts|] == ts;
  }

  lemma {:induction false} FirstSeenPrefix(a: seq<Text>, b: seq<Text>)
    ensures FirstSeen(a) <= FirstSeen(a + b)
  {
    if b == [] {
      assert a + b == a;
    } else {
      var n := |b| - 1;
      assert a + b == a + b[..n] + [b[n]];
      FirstSeenPrefix(a, b[..n]);
      FirstSeenNext(a + b[..n], b[n]);
    }
  }

  lemma {:induction false} AllTokensAppend(u: Charset, a: seq<Text>, b: seq<Text>)
    ensures AllTokens(u, a + b) == AllTokens(u, a) + AllTokens(u, b)
  {
    if b == [] {
      assert a + b == a;
    } else {
      assert (a + b)[..|a + b| - 1] == a + b[..|b| - 1];
      AllTokensAppend(u, a, b[..|b| - 1]);
    }
  }

  lemma RowsNext(u: Charset, rows: seq<Text>, i: nat)
    requires i < |rows|
    ensures AllTokens(u, rows[..i + 1]) == AllTokens(u, rows[..i]) + Tokenize(u, rows[i])
    ensures AllTokens(u, rows) == AllTokens(u, rows[..i + 1]) + AllTokens(u, rows[i + 1..])
  {
    assert rows[..i + 1][..i] == rows[..i];
    assert rows == rows[..i + 1] + rows[i + 1..];
    AllTokensAppend(u, rows[..i + 1], rows[i + 1..]);
  }

  lemma FlatNext(u: Charset, blocks: seq<seq<Text>>, b: nat)
    requires b < |blocks|
    ensures AllTokens(u, Concat(blocks[..b + 1])) == AllTokens(u, Concat(blocks[..b])) + AllTokens(u, blocks[b])
  {
    assert blocks[..b + 1][..b] == blocks[..b];
    AllTokensAppend(u, Concat(blocks[..b]), blocks[b]);
  }

  lemma {:induction false} FlatSplit(u: Charset, blocks: seq<seq<Text>>, b: nat)
    requires b <= |blocks|
    ensures AllTokens(u, Concat(blocks[..b])) <= AllTokens(u, Concat(blocks))
    decreases |blocks| - b
  {
    if b == |blocks| {
      assert blocks[..b] == blocks;
    } else {
      FlatNext(u, blocks, b);
      FlatSplit(u, blocks, b + 1);
    }
  }

  // ---------- the flush and part-walk builders ----------

  /** Adds the tokens of one row to what is collected; full when a new one does not fit. */
  method AddRow(u: Charset, row: Text, out0: seq<Text>, ghost met: seq<Text>) returns (out: seq<Text>, full: bool)
    requires out0 == FirstSeen(met) && |out0| <= MAX_TOKENS
    ensures !full ==> out == FirstSeen(met + Tokenize(u, row)) && |out| <= MAX_TOKENS
    ensures full ==> |out| == MAX_TOKENS && out < FirstSeen(met + Tokenize(u, row))
  {
    hide Tokenize, FirstSeen;
    out, full := out0, false;
    var ts := Tokenize(u, row);
    assert met + ts[..0] == met;
    var i := 0;
    while i < |ts|
      invariant 0 <= i <= |ts| && out == FirstSeen(met + ts[..i]) && |out| <= MAX_TOKENS
    {
      assert met + ts[..i + 1] == met + ts[..i] + [ts[i]];
      FirstSeenNext(met + ts[..i], ts[i]);
      if ts[i] !in out {
        if |out| == MAX_TOKENS {
          FirstSeenPrefix(met + ts[..i + 1], ts[i + 1..]);
          assert met + ts[..i + 1] + ts[i + 1..] == met + ts;
          return out, true;
        }
        out := out + [ts[i]];
      }
      i := i + 1;
    }
    assert ts[..i] == ts;
  }

  /** A full collection is the cap of everything. */
  lemma FullIsCapped(out: seq<Text>, part: seq<Text>, all: seq<Text>)
    requires |out| == MAX_TOKENS && out < FirstSeen(part) && part <= all
    ensures |FirstSeen(all)| > MAX_TOKENS && Cap(FirstSeen(all)) == out
  {
    hide FirstSeen;
    assert all == part + all[|part|..];
    FirstSeenPrefix(part, all[|part|..]);
  }

  method Finish(out: seq<Text>, truncated: bool, ghost all: seq<Text>) returns (tokens: seq<Text>)
    requires out == Cap(FirstSeen(all)) && (truncated <==> |FirstSeen(all)| > MAX_TOKENS)
    ensures Capped(tokens, truncated, all)
  {
    tokens := SortStrings(set t | t in out);
  }

  /** The same over a list of rows, stopping at the first token that does not fit. */
  method AddRows(u: Charset, rows: seq<Text>, out0: seq<Text>, ghost met: seq<Text>) returns (out: seq<Text>, full: bool)
    requires out0 == FirstSeen(met) && |out0| <= MAX_TOKENS
    ensures !full ==> out == FirstSeen(met + AllTokens(u, rows)) && |out| <= MAX_TOKENS
    ensures full ==> |out| == MAX_TOKENS && out < FirstSeen(met + AllTokens(u, rows))
  {
    hide Tokenize, FirstSeen;
    out, full := out0, false;
    var i := 0;
    assert met + AllTokens(u, rows[..0]) == met;
    while i < |rows|
      invariant 0 <= i <= |rows| && !full && out == FirstSeen(met + AllTokens(u, rows[..i])) && |out| <= MAX_TOKENS
    {
      RowsNext(u, rows, i);
      ghost var now := met + AllTokens(u, rows[..i + 1]);
      assert met + AllTokens(u, rows[..i]) + Tokenize(u, rows[i]) == now;
      out, full := AddRow(u, rows[i], out, met + AllTokens(u, rows[..i]));
      if full {
        FirstSeenPrefix(now, AllTokens(u, rows[i + 1..]));
        assert now + AllTokens(u, rows[i + 1..]) == met + AllTokens(u, rows);
        return;
      }
      i := i + 1;
    }
    assert rows[..i] == rows;
  }

  method BuildTokenSet(u: Charset, rows: seq<Text>) returns (tokens: seq<Text>, truncated: bool)
    ensures Capped(tokens, truncated, AllTokens(u, rows))
  {
    hide Capped, FirstSeen;
    EmptyFirst();
    assert [] + AllTokens(u, rows) == AllTokens(u, rows);
    var out, full := AddRows(u, rows, [], []);
    if full { FullIsCapped(out, AllTokens(u, rows), AllTokens(u, rows)); }
    tokens := Finish(out, full, AllTokens(u, rows));
    truncated := full;
  }

  /** The blocks that could be read; the others are skipped. */
  function ReadableBlocks(blocks: seq<Option<seq<Text>>>): seq<seq<Text>>
  {
    if blocks == [] then []
    else ReadableBlocks(blocks[..|blocks| - 1]) + (if blocks[|blocks| - 1].Some? then [blocks[|blocks| - 1].value] else [])
  }

  lemma {:induction false} ReadableSplit(blocks: seq<Option<seq<Text>>>, b: nat)
    requires b <= |blocks|
    ensures ReadableBlocks(blocks[..b]) <= ReadableBlocks(blocks)
    decreases |blocks|
  {
    if b == |blocks| {
      assert blocks[..b] == blocks;
    } else {
      var init := blocks[..|blocks| - 1];
      assert init[..b] == blocks[..b];
      ReadableSplit(init, b);
    }
  }

  /** Reading one more block: what is collected so far is a prefix of the whole. */
  lemma ReadableNext(u: Charset, blocks: seq<Option<seq<Text>>>, b: nat)
    requires b < |blocks| && blocks[b].Some?
    ensures AllTokens(u, Concat(ReadableBlocks(blocks[..b + 1])))
         == AllTokens(u, Concat(ReadableBlocks(blocks[..b]))) + AllTokens(u, blocks[b].value)
    ensures AllTokens(u, Concat(ReadableBlocks(blocks[..b + 1]))) <= AllTokens(u, Concat(ReadableBlocks(blocks)))
  {
    hide AllTokens, Concat;
    assert blocks[..b + 1][..b] == blocks[..b];
    var some, all := ReadableBlocks(blocks[..b + 1]), ReadableBlocks(blocks);
    ReadableSplit(blocks, b + 1);
    assert all[..|some|] == some;
    FlatSplit(u, all, |some|);
    FlatNext(u, some, |some| - 1);
    assert some[..|some|] == some && some[..|some| - 1] == ReadableBlocks(blocks[..b]);
  }

  method BuildTokenSetFromPart(u: Charset, blocks: seq<Option<seq<Text>>>) returns (tokens: seq<Text>, truncated: bool)
    ensures Capped(tokens, truncated, AllTokens(u, Concat(ReadableBlocks(blocks))))
  {
    hide Capped, FirstSeen, Concat, AllTokens;
    ghost var all := AllTokens(u, Concat(ReadableBlocks(blocks)));
    EmptyFirst();
    EmptyFlat(u);
    var out, full := [], false;
    var b := 0;
    while b < |blocks|
      invariant 0 <= b <= |blocks| && |out| <= MAX_TOKENS
      invariant out == FirstSeen(AllTokens(u, Concat(ReadableBlocks(blocks[..b]))))
    {
      assert blocks[..b + 1][..b] == blocks[..b];
      if blocks[b].Some? {
        ReadableNext(u, blocks, b);
        out, full := AddRows(u, blocks[b].value, out, AllTokens(u, Concat(ReadableBlocks(blocks[..b]))));
        if full {
          FullIsCapped(out, AllTokens(u, Concat(ReadableBlocks(blocks[..b + 1]))), all);
          tokens := Finish(out, true, all);
          return tokens, true;
        }
      } else {
        assert ReadableBlocks(blocks[..b + 1]) == ReadableBlocks(blocks[..b]);
      }
      b := b + 1;
    }
    assert blocks[..b] == blocks;
    tokens := Finish(out, false, all);
    truncated := false;
  }

  lemma EmptyFlat(u: Charset)
    ensures AllTokens(u, Concat([])) == []
  {}

  lemma EmptyFirst()
    ensures FirstSeen([]) == []
  {}

  // ---------- the compaction builder ----------

  /** Goes on after the cap and only notes that something was left out. */
  method MergeRow(u: Charset, row: Text, out0: seq<Text>, truncated0: bool, ghost met: seq<Text>)
    returns (out: seq<Text>, truncated: bool)
    requires out0 == Cap(FirstSeen(met)) && (truncated0 <==> |FirstSeen(met)| > MAX_TOKENS)
    ensures out == Cap(FirstSeen(met + Tokenize(u, row)))
    ensures truncated <==> |FirstSeen(met + Tokenize(u, row))| > MAX_TOKENS
  {
    hide Tokenize, FirstSeen;
    out, truncated := out0, truncated0;
    var ts := Tokenize(u, row);
    assert met + ts[..0] == met;
    var i := 0;
    while i < |ts|
      invariant 0 <= i <= |ts| && out == Cap(FirstSeen(met + ts[..i]))
      invariant truncated <==> |FirstSeen(met + ts[..i])| > MAX_TOKENS
    {
      assert met + ts[..i + 1] == met + ts[..i] + [ts[i]];
      FirstSeenNext(met + ts[..i], ts[i]);
      ghost var f := FirstSeen(met + ts[..i]);
      assert forall t :: t in out ==> t in f;
      if ts[i] !in out {
        if |out| == MAX_TOKENS { truncated := true; } else { out := out + [ts[i]]; }
      }
      i := i + 1;
    }
    assert ts[..i] == ts;
  }

  method CompactionTokens(u: Charset, blocks: seq<seq<Text>>) returns (tokens: seq<Text>, truncated: bool)
    ensures Capped(tokens, truncated, AllTokens(u, Concat(blocks)))
  {
    hide Tokenize, Capped, FirstSeen;
    EmptyFirst();
    var out: seq<Text> := [];
    truncated := false;
    var b := 0;
    while b < |blocks|
      invariant 0 <= b <= |blocks| && out == Cap(FirstSeen(AllTokens(u, Concat(blocks[..b]))))
      invariant truncated <==> |FirstSeen(AllTokens(u, Concat(blocks[..b])))| > MAX_TOKENS
    {
      ghost var before := AllTokens(u, Concat(blocks[..b]));
      FlatNext(u, blocks, b);
      var rows := blocks[b];
      var i := 0;
      assert before + AllTokens(u, rows[..0]) == before;
      while i < |rows|
        invariant 0 <= i <= |rows| && out == Cap(FirstSeen(before + AllTokens(u, rows[..i])))
        invariant truncated <==> |FirstSeen(before + AllTokens(u, rows[..i]))| > MAX_TOKENS
      {
        RowsNext(u, rows, i);
        ghost var met := before + AllTokens(u, rows[..i]);
        assert met + Tokenize(u, rows[i]) == before + AllTokens(u, rows[..i + 1]);
        out, truncated := MergeRow(u, rows[i], out, truncated, met);
        i := i + 1;
      }
      assert rows[..i] == rows;
      b := b + 1;
    }
    assert blocks[..b] == blocks;
    tokens := Finish(out, truncated, AllTokens(u, Concat(blocks)));
  }

  // ---------- agreement of the builders ----------

  lemma {:induction false} SortedUnique(a: seq<Text>, b: seq<Text>)
    requires StrictlySorted(a) && StrictlySorted(b) && forall t :: t in a <==> t in b
    ensures a == b
  {
    assert b != [] ==> b[0] in b;
    if a != [] {
      assert a[0] in b;
      var j :| 0 <= j < |b| && b[j] == a[0];
      assert b[0] in a;
      var i :| 0 <= i < |a| && a[i] == b[0];
      if j > 0 && i > 0 { LtAsymmetric(b[0], b[j]); }
      TailSame(a, b);
      SortedUnique(a[1..], b[1..]);
      assert a == [a[0]] + a[1..] && b == [b[0]] + b[1..];
    }
  }

  lemma TailSame(a: seq<Text>, b: seq<Text>)
    requires a != [] && b != [] && a[0] == b[0] && StrictlySorted(a) && StrictlySorted(b) && forall t :: t in a <==> t in b
    ensures forall t :: t in a[1..] <==> t in b[1..]
  {
    LtIrreflexive(a[0]);
    forall t ensures t in a[1..] <==> t in b[1..] {
      if t in a[1..] { assert Lt(a[0], t) && t in a && t in b; }
      if t in b[1..] { assert Lt(b[0], t) && t in b && t in a; }
    }
  }

  /** Whatever builder made them, two stored sets of the same rows are equal, flag included. */
  lemma BuildersAgree(x: seq<Text>, xCut: bool, y: seq<Text>, yCut: bool, ts: seq<Text>)
    requires Capped(x, xCut, ts) && Capped(y, yCut, ts)
    ensures x == y && xCut == yCut
  {
    SortedUnique(x, y);
  }

  // ---------- pruning ----------

  /** A part survives a term: nothing to prune by, or every token of the term stored. */
  predicate Keeps(u: Charset, tokens: seq<Text>, term: Text)
  {
    term == [] || tokens == [] || forall i :: 0 <= i < |Tokenize(u, term)| ==> Tokenize(u, term)[i] in tokens
  }

  method BinarySearch(tokens: seq<Text>, t: Text) returns (found: bool)
    requires StrictlySorted(tokens)
    ensures found <==> t in tokens
  {
    var lo, hi := 0, |tokens|;
    while lo < hi
      invariant 0 <= lo <= hi <= |tokens|
      invariant forall i :: 0 <= i < lo ==> Lt(tokens[i], t)
      invariant forall i :: hi <= i < |tokens| ==> !Lt(tokens[i], t)
    {
      var mid := (lo + hi) / 2;
      if Lt(tokens[mid], t) {
        forall i | 0 <= i < mid ensures Lt(tokens[i], t) { LtTransitive(tokens[i], tokens[mid], t); }
        lo := mid + 1;
      } else {
        forall i | mid < i < |tokens| ensures !Lt(tokens[i], t) {
          if Lt(tokens[i], t) { LtTransitive(tokens[mid], tokens[i], t); }
        }
        hi := mid;
      }
    }
    LtIrreflexive(t);
    found := lo < |tokens| && tokens[lo] == t;
    if t in tokens {
      var i :| 0 <= i < |tokens| && tokens[i] == t;
      SortedPositions(tokens, lo, i);
    }
  }

  method HasToken(u: Charset, tokens: seq<Text>, term: Text) returns (keep: bool)
    requires StrictlySorted(tokens)
    ensures keep <==> Keeps(u, tokens, term)
  {
    hide Tokenize, StrictlySorted;
    if term == [] || tokens == [] { return true; }
    var ts := Tokenize(u, term);
    var i := 0;
    while i < |ts|
      invariant 0 <= i <= |ts| && forall k :: 0 <= k < i ==> ts[k] in tokens
    {
      var found := BinarySearch(tokens, ts[i]);
      if !found { return false; }
      i := i + 1;
    }
    return true;
  }

  lemma {:induction false} RowTokens(u: Charset, rows: seq<Text>, t: Text)
    ensures t in AllTokens(u, rows) <==> exists r :: 0 <= r < |rows| && t in Tokenize(u, rows[r])
  {
    hide Tokenize;
    if rows != [] {
      var n := |rows| - 1;
      RowTokens(u, rows[..n], t);
      assert t in AllTokens(u, rows) <==> t in AllTokens(u, rows[..n]) || t in Tokenize(u, rows[n]);
      if t in AllTokens(u, rows[..n]) {
        var r :| 0 <= r < n && t in Tokenize(u, rows[..n][r]);
        assert rows[..n][r] == rows[r];
      }
      forall r | 0 <= r < n && t in Tokenize(u, rows[r]) ensures t in AllTokens(u, rows[..n]) {
        assert rows[..n][r] == rows[r];
      }
    }
  }

  /** An untruncated set holds exactly the tokens of the rows. */
  lemma UntruncatedIsAll(u: Charset, rows: seq<Text>, tokens: seq<Text>, t: Text)
    requires Capped(tokens, false, AllTokens(u, rows))
    ensures t in tokens <==> exists r :: 0 <= r < |rows| && t in Tokenize(u, rows[r])
  {
    hide Tokenize;
    FirstSeenHas(AllTokens(u, rows), t);
    RowTokens(u, rows, t);
  }

  /** Exactly which terms keep a part with an untruncated set: each token of the term is a token of some row. */
  lemma KeptIff(u: Charset, rows: seq<Text>, tokens: seq<Text>, term: Text)
    requires Capped(tokens, false, AllTokens(u, rows)) && tokens != [] && term != []
    ensures Keeps(u, tokens, term) <==>
      forall i :: 0 <= i < |Tokenize(u, term)| ==> exists r :: 0 <= r < |rows| && Tokenize(u, term)[i] in Tokenize(u, rows[r])
  {
    hide Tokenize, Capped;
    var ts := Tokenize(u, term);
    forall i | 0 <= i < |ts| ensures ts[i] in tokens <==> exists r :: 0 <= r < |rows| && ts[i] in Tokenize(u, rows[r]) {
      UntruncatedIsAll(u, rows, tokens, ts[i]);
    }
  }

  /** A row in which the folded term stands delimited is never pruned away. */
  lemma DelimitedKept(u: Charset, rows: seq<Text>, tokens: seq<Text>, r: nat, i: nat, term: Text)
    requires Agrees(u) && Capped(tokens, false, AllTokens(u, rows)) && r < |rows|
    requires FoldedAt(rows[r], term, i) && Delimited(u, rows[r], i, i + |term|)
    ensures Keeps(u, tokens, term)
  {
    hide Tokenize, Capped, Agrees;
    DelimitedTokens(u, rows[r], i, term);
    var ts := Tokenize(u, term);
    forall k | 0 <= k < |ts| ensures ts[k] in tokens {
      assert ts[k] in Tokenize(u, rows[r]);
      UntruncatedIsAll(u, rows, tokens, ts[k]);
    }
  }

  /** Lowercase word characters only. */
  predicate Plain(u: Charset, s: Text)
  {
    AllWord(u, s) && FoldAll(s) == s && LowerAll(u, s) == s
  }

  lemma PlainToken(u: Charset, s: Text)
    requires Plain(u, s) && s != []
    ensures Tokenize(u, s) == [s]
  {
    FieldsOfWord(u, s, []);
    assert [] + s == s;
  }

  /** A word that only starts a longer word matches the row, and the part is pruned. */
  lemma WordPrefixPruned(u: Charset, word: Text, more: Text, tokens: seq<Text>)
    requires word != [] && more != [] && Plain(u, word) && Plain(u, word + more)
    requires Capped(tokens, false, AllTokens(u, [word + more]))
    ensures FoldedAt(word + more, word, 0) && !Keeps(u, tokens, word)
  {
    hide Tokenize, Capped;
    var row := word + more;
    assert row[0..|word|] == word;
    PlainToken(u, word);
    PlainToken(u, row);
    UntruncatedIsAll(u, [row], tokens, word);
    UntruncatedIsAll(u, [row], tokens, row);
    assert row in Tokenize(u, [row][0]);
    assert |row| > |word|;
    assert Tokenize(u, word)[0] == word;
  }
}
