/** Strings compared character by character, and sorted lists of them. */
module StringOrder {
  type Text = seq<int> // bytes or code points

  predicate Lt(a: Text, b: Text)
  {
    if b == [] then false
    else if a == [] then true
    else if a[0] != b[0] then a[0] < b[0]
    else Lt(a[1..], b[1..])
  }

  lemma {:induction false} LtIrreflexive(a: Text)
    ensures !Lt(a, a)
  {
    if a != [] { LtIrreflexive(a[1..]); }
  }

  lemma {:induction false} LtTransitive(a: Text, b: Text, c: Text)
    requires Lt(a, b) && Lt(b, c)
    ensures Lt(a, c)
  {
    if a != [] && a[0] == b[0] && b[0] == c[0] { LtTransitive(a[1..], b[1..], c[1..]); }
  }

  lemma {:induction false} LtTotal(a: Text, b: Text)
    requires a != b
    ensures Lt(a, b) || Lt(b, a)
  {
    if a != [] && b != [] && a[0] == b[0] {
      assert a == [a[0]] + a[1..] && b == [b[0]] + b[1..];
      LtTotal(a[1..], b[1..]);
    }
  }

  lemma LtAsymmetric(a: Text, b: Text)
    requires Lt(a, b)
    ensures !Lt(b, a)
  {
    if Lt(b, a) {
      LtTransitive(a, b, a);
      LtIrreflexive(a);
    }
  }

  ghost predicate StrictlySorted(xs: seq<Text>) { forall i, j :: 0 <= i < j < |xs| ==> Lt(xs[i], xs[j]) }

  /** In a strictly sorted table, positions compare like the strings. */
  lemma SortedPositions(xs: seq<Text>, i: nat, j: nat)
    requires StrictlySorted(xs) && i < |xs| && j < |xs|
    ensures Lt(xs[i], xs[j]) <==> i < j
    ensures xs[i] == xs[j] <==> i == j
  {
    if i == j { LtIrreflexive(xs[i]); }
    if j < i { LtAsymmetric(xs[j], xs[i]); LtIrreflexive(xs[i]); }
    if i < j { LtIrreflexive(xs[i]); }
  }

  lemma {:induction false} HasLeast(s: set<Text>) returns (m: Text)
    requires s != {}
    ensures m in s && forall x :: x in s && x != m ==> Lt(m, x)
  {
    var y :| y in s;
    m := y;
    if s != {y} {
      var k := HasLeast(s - {y});
      LtTotal(y, k);
      m := if Lt(k, y) then k else y;
      forall x | x in s && x != m ensures Lt(m, x) {
        if x != y && x != k && m == y { LtTransitive(y, k, x); }
      }
    }
  }

  /** The members in ascending order. */
  method SortStrings(s: set<Text>) returns (xs: seq<Text>)
    ensures StrictlySorted(xs) && |xs| == |s| && forall x :: x in xs <==> x in s
  {
    xs := [];
    var rest := s;
    while rest != {}
      invariant rest <= s && |xs| + |rest| == |s|
      invariant StrictlySorted(xs)
      invariant forall x :: x in xs <==> x in s && x !in rest
      invariant forall i, y :: 0 <= i < |xs| && y in rest ==> Lt(xs[i], y)
      decreases rest
    {
      ghost var least := HasLeast(rest);
      var m :| m in rest && forall x :: x in rest && x != m ==> Lt(m, x);
      xs := xs + [m];
      rest := rest - {m};
    }
  }
}
