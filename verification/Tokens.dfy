/**
 Text tokens of a part: maximal runs of letters and numbers, lowercased, up to a cap. A
 query term prunes a part when some token of the term is missing.
 */
module Tokens {
  import opened StringOrder

  const MAX_TOKENS := 10_000

  /**
   The Unicode tables: which characters belong to words, and lowercase. decode gives the
   characters of a stored string, and lowerString lowercases a stored string. plain holds of
   the strings that are valid and do not contain the replacement character, which decode
   puts in the place of invalid bytes.
   */
  datatype Charset = Charset(isWord: int -> bool, lower: int -> int, decode: Text -> Text, lowerString: Text -> Text, plain: Text -> bool)

  /** ASCII upper case folded, everything else as it is. */
  function Fold(c: int): int { if 65 <= c <= 90 then c + 32 else c }

  function FoldAll(s: Text): (r: Text)
    ensures |r| == |s| && forall i :: 0 <= i < |s| ==> r[i] == Fold(s[i])
  {
    seq(|s|, i requires 0 <= i < |s| => Fold(s[i]))
  }

  /** What the tables have in common with the ASCII fold. */
  ghost predicate Agrees(u: Charset)
  {
    forall c :: u.isWord(Fold(c)) == u.isWord(c) && u.lower(Fold(c)) == u.lower(c)
  }

  function LowerAll(u: Charset, s: Text): (r: Text)
    ensures |r| == |s| && forall i :: 0 <= i < |s| ==> r[i] == u.lower(s[i])
  {
    seq(|s|, i requires 0 <= i < |s| => u.lower(s[i]))
  }

  // ---------- fields ----------

  function Closed(cur: Text): seq<Text> { if cur == [] then [] else [cur] }

  /** The maximal word runs of s, with cur already read of the current one. */
  function Fields(u: Charset, s: Text, cur: Text): seq<Text>
  {
    if s == [] then Closed(cur)
    else if u.isWord(s[0]) then Fields(u, s[1..], cur + [s[0]])
    else Closed(cur) + Fields(u, s[1..], [])
  }

  lemma {:induction false} FieldsSplit(u: Charset, a: Text, d: int, b: Text, cur: Text)
    requires !u.isWord(d)
    ensures Fields(u, a + [d] + b, cur) == Fields(u, a, cur) + Fields(u, b, [])
  {
    var s := a + [d] + b;
    if a == [] {
      assert s[0] == d && s[1..] == b;
    } else {
      assert s[0] == a[0] && s[1..] == a[1..] + [d] + b;
      if u.isWord(a[0]) { FieldsSplit(u, a[1..], d, b, cur + [a[0]]); } else { FieldsSplit(u, a[1..], d, b, []); }
    }
  }

  predicate AllWord(u: Charset, s: Text) { forall i :: 0 <= i < |s| ==> u.isWord(s[i]) }

  lemma {:induction false} FieldsOfWord(u: Charset, s: Text, cur: Text)
    requires AllWord(u, s)
    ensures Fields(u, s, cur) == Closed(cur + s)
  {
    if s == [] {
      assert cur + s == cur;
    } else {
      FieldsOfWord(u, s[1..], cur + [s[0]]);
      assert cur + [s[0]] + s[1..] == cur + s;
    }
  }

  /** A stretch with a delimiter or an end of the string at each side. */
  predicate Delimited(u: Charset, s: Text, i: nat, j: nat)
  {
    i <= j <= |s| && (i == 0 || !u.isWord(s[i - 1])) && (j == |s| || !u.isWord(s[j]))
  }

  predicate IsRun(u: Charset, s: Text, i: nat, j: nat)
  {
    i < j && Delimited(u, s, i, j) && AllWord(u, s[i..j])
  }

  /** The fields of a delimited stretch are fields of the whole. */
  lemma DelimitedFields(u: Charset, s: Text, i: nat, j: nat)
    requires Delimited(u, s, i, j)
    ensures forall t :: t in Fields(u, s[i..j], []) ==> t in Fields(u, s, [])
  {
    var tail := s[i..];
    if j < |s| {
      assert tail == s[i..j] + [s[j]] + s[j + 1..];
      FieldsSplit(u, s[i..j], s[j], s[j + 1..], []);
    } else {
      assert tail == s[i..j];
    }
    if i > 0 {
      assert s == s[..i - 1] + [s[i - 1]] + tail;
      FieldsSplit(u, s[..i - 1], s[i - 1], tail, []);
    } else {
      assert s == tail;
    }
  }

  /** The fields of a string are exactly its maximal word runs. */
  lemma {:induction false} FieldsAreRuns(u: Charset, s: Text, t: Text)
    ensures t in Fields(u, s, []) <==> exists i: nat, j: nat :: IsRun(u, s, i, j) && s[i..j] == t
    decreases |s|
  {
    if exists i: nat, j: nat :: IsRun(u, s, i, j) && s[i..j] == t {
      var i: nat, j: nat :| IsRun(u, s, i, j) && s[i..j] == t;
      FieldsOfWord(u, t, []);
      assert [] + t == t;
      DelimitedFields(u, s, i, j);
    }
    if t in Fields(u, s, []) {
      if AllWord(u, s) {
        FieldsOfWord(u, s, []);
        assert [] + s == s && s[0..|s|] == s;
        assert IsRun(u, s, 0, |s|);
      } else {
        var d :| 0 <= d < |s| && !u.isWord(s[d]);
        FieldOfSide(u, s, d, t);
      }
    }
  }

  /** A run in front of a delimiter is a run of the whole. */
  lemma RunBefore(u: Charset, s: Text, d: nat, i: nat, j: nat)
    requires d < |s| && !u.isWord(s[d]) && IsRun(u, s[..d], i, j)
    ensures IsRun(u, s, i, j) && s[i..j] == s[..d][i..j]
  {
    assert s[i..j] == s[..d][i..j];
  }

  /** And so is one behind it. */
  lemma RunBehind(u: Charset, s: Text, d: nat, i: nat, j: nat)
    requires d < |s| && !u.isWord(s[d]) && IsRun(u, s[d + 1..], i, j)
    ensures IsRun(u, s, d + 1 + i, d + 1 + j) && s[d + 1 + i..d + 1 + j] == s[d + 1..][i..j]
  {
    assert s[d + 1 + i..d + 1 + j] == s[d + 1..][i..j];
  }

  lemma {:induction false} FieldOfSide(u: Charset, s: Text, d: nat, t: Text)
    requires d < |s| && !u.isWord(s[d]) && t in Fields(u, s, [])
    ensures exists i: nat, j: nat :: IsRun(u, s, i, j) && s[i..j] == t
    decreases |s|, 0
  {
    hide Fields, AllWord;
    var a, b := s[..d], s[d + 1..];
    assert s == a + [s[d]] + b;
    FieldsSplit(u, a, s[d], b, []);
    if t in Fields(u, a, []) {
      FieldsAreRuns(u, a, t);
      var i: nat, j: nat :| IsRun(u, a, i, j) && a[i..j] == t;
      RunBefore(u, s, d, i, j);
    } else {
      FieldsAreRuns(u, b, t);
      var i: nat, j: nat :| IsRun(u, b, i, j) && b[i..j] == t;
      RunBehind(u, s, d, i, j);
    }
  }

  // ---------- tokens ----------

  function LowerEach(u: Charset, fs: seq<Text>): (r: seq<Text>)
    ensures |r| == |fs| && forall i :: 0 <= i < |fs| ==> r[i] == LowerAll(u, fs[i])
  {
    seq(|fs|, i requires 0 <= i < |fs| => LowerAll(u, fs[i]))
  }

  function Tokenize(u: Charset, s: Text): seq<Text> { LowerEach(u, Fields(u, s, [])) }

  lemma {:induction false} FoldedFields(u: Charset, s: Text, cur: Text)
    requires Agrees(u)
    ensures LowerEach(u, Fields(u, FoldAll(s), FoldAll(cur))) == LowerEach(u, Fields(u, s, cur))
  {
    assert LowerAll(u, FoldAll(cur)) == LowerAll(u, cur);
    var f := FoldAll(s);
    if s != [] {
      assert f[0] == Fold(s[0]) && f[1..] == FoldAll(s[1..]);
      assert u.isWord(f[0]) == u.isWord(s[0]);
      if u.isWord(s[0]) {
        assert FoldAll(cur) + [f[0]] == FoldAll(cur + [s[0]]);
        FoldedFields(u, s[1..], cur + [s[0]]);
      } else {
        assert FoldAll([]) == [];
        FoldedFields(u, s[1..], []);
        LowerEachAppend(u, Closed(FoldAll(cur)), Fields(u, f[1..], []));
        LowerEachAppend(u, Closed(cur), Fields(u, s[1..], []));
        assert LowerEach(u, Closed(FoldAll(cur))) == LowerEach(u, Closed(cur));
      }
    }
  }

  lemma LowerEachAppend(u: Charset, a: seq<Text>, b: seq<Text>)
    ensures LowerEach(u, a + b) == LowerEach(u, a) + LowerEach(u, b)
  {}

  /** Folding ASCII case first makes no difference to the tokens. */
  lemma FoldInvisible(u: Charset, s: Text)
    requires Agrees(u)
    ensures Tokenize(u, FoldAll(s)) == Tokenize(u, s)
  {
    FoldedFields(u, s, []);
    assert FoldAll([]) == [];
  }

  /** If the term stands delimited in s, all its tokens are tokens of s. */
  lemma DelimitedTokens(u: Charset, s: Text, i: nat, term: Text)
    requires Agrees(u) && Delimited(u, s, i, i + |term|) && FoldAll(s[i..i + |term|]) == term
    ensures forall t :: t in Tokenize(u, term) ==> t in Tokenize(u, s)
  {
    hide Agrees, Fields, FoldAll;
    var m := s[i..i + |term|];
    FoldInvisible(u, m);
    DelimitedFields(u, s, i, i + |term|);
    var fs, gs := Fields(u, m, []), Fields(u, s, []);
    forall t | t in Tokenize(u, m) ensures t in Tokenize(u, s) {
      var k :| 0 <= k < |fs| && LowerAll(u, fs[k]) == t;
      assert fs[k] in gs;
      var l :| 0 <= l < |gs| && gs[l] == fs[k];
      assert LowerEach(u, gs)[l] == t;
    }
  }

  // ---------- matching ----------

  predicate FoldedAt(s: Text, term: Text, i: nat) { i + |term| <= |s| && FoldAll(s[i..i + |term|]) == term }

  /** The term stands at i, each letter A to Z of s read 32 places further on, as a to z. */
  ghost predicate StandsAt(s: Text, term: Text, i: nat)
  {
    i + |term| <= |s| && forall j :: 0 <= j < |term| ==> term[j] == if 65 <= s[i + j] <= 90 then s[i + j] + 32 else s[i + j]
  }

  lemma FoldedIsStanding(s: Text, term: Text, i: nat)
    ensures FoldedAt(s, term, i) <==> StandsAt(s, term, i)
  {
    if i + |term| <= |s| {
      var m := s[i..i + |term|];
      forall j | 0 <= j < |term| ensures FoldAll(m)[j] == if 65 <= s[i + j] <= 90 then s[i + j] + 32 else s[i + j] {
        assert m[j] == s[i + j];
      }
    }
  }

  /** Whether the lowercase term occurs in s in any ASCII case. */
  method FoldContains(s: Text, term: Text) returns (found: bool)
    ensures found <==> exists i: nat :: StandsAt(s, term, i)
    ensures found <==> exists i: nat :: FoldedAt(s, term, i)
  {
    forall i: nat ensures FoldedAt(s, term, i) <==> StandsAt(s, term, i) { FoldedIsStanding(s, term, i); }
    hide StandsAt;
    var n := |term|;
    if n == 0 { assert s[0..0] == [] && FoldedAt(s, term, 0); return true; }
    if |s| < n { return false; }
    var i := 0;
    while i < |s| - n + 1
      invariant 0 <= i <= |s| - n + 1
      invariant forall k: nat :: k < i ==> !FoldedAt(s, term, k)
    {
      var j := 0;
      while j < n && Fold(s[i + j]) == term[j]
        invariant 0 <= j <= n
        invariant forall k :: 0 <= k < j ==> Fold(s[i + k]) == term[k]
      {
        j := j + 1;
      }
      if j == n {
        assert FoldedAt(s, term, i);
        return true;
      }
      assert !FoldedAt(s, term, i) by { assert FoldAll(s[i..i + n])[j] == Fold(s[i + j]); }
      i := i + 1;
    }
    return false;
  }
}
