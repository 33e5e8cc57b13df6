/**
 The token index on disk: composite keys token + NUL + two-byte ordinal in a sorted set,
 with a table from ordinals to data part IDs. It has to mean a plain set of
 (token, data ID) pairs.
 */
module IndexKeys {
  import opened Prelude
  import opened StringOrder

  datatype IndexEntry = IndexEntry(token: Str, id: Str)

  const MAX_IDS := 65536

  // ---------- composite keys ----------

  predicate NulFree(t: Str) { forall i :: 0 <= i < |t| ==> t[i] != 0 }

  function OrdBytes(o: nat): (r: Str)
    requires o < MAX_IDS
    ensures |r| == 2
  {
    [o / 256, o % 256]
  }

  function OrdOf(hi: int, lo: int): int { hi * 256 + lo }

  function Key(t: Str, o: nat): Str
    requires o < MAX_IDS
  {
    t + [0] + OrdBytes(o)
  }

  /** Tokens decide first, whatever follows their separators. */
  lemma {:induction false} SeparatedOrder(t: Str, x: Str, u: Str, y: Str)
    requires NulFree(t) && NulFree(u)
    ensures Lt(t + [0] + x, u + [0] + y) <==> Lt(t, u) || (t == u && Lt(x, y))
  {
    var a, b := t + [0] + x, u + [0] + y;
    if t == [] {
      assert a[0] == 0 && a[1..] == x;
      if u == [] { assert b[1..] == y; } else { assert b[0] == u[0]; }
    } else if u == [] {
      assert a[0] == t[0] && b[0] == 0;
    } else {
      assert a[0] == t[0] && b[0] == u[0];
      assert a[1..] == t[1..] + [0] + x && b[1..] == u[1..] + [0] + y;
      assert t == [t[0]] + t[1..] && u == [u[0]] + u[1..];
      SeparatedOrder(t[1..], x, u[1..], y);
    }
  }

  lemma OrdOrder(i: nat, j: nat)
    requires i < MAX_IDS && j < MAX_IDS
    ensures Lt(OrdBytes(i), OrdBytes(j)) <==> i < j
  {
    var a, b := OrdBytes(i), OrdBytes(j);
    assert a[1..] == [i % 256] && b[1..] == [j % 256];
    assert a[1..][1..] == [] && b[1..][1..] == [];
    assert Lt(a[1..], b[1..]) <==> i % 256 < j % 256;
  }

  lemma KeyOrder(t: Str, i: nat, u: Str, j: nat)
    requires NulFree(t) && NulFree(u) && i < MAX_IDS && j < MAX_IDS
    ensures Lt(Key(t, i), Key(u, j)) <==> Lt(t, u) || (t == u && i < j)
  {
    SeparatedOrder(t, OrdBytes(i), u, OrdBytes(j));
    OrdOrder(i, j);
  }

  /** The upper end of a range scan cuts behind everything that has the token before it. */
  lemma {:induction false} BelowEnd(u: Str, x: Str, t: Str)
    requires NulFree(t) && NulFree(u)
    ensures Lt(u + [0] + x, t + [1]) <==> Lt(u, t) || u == t
  {
    var a, b := u + [0] + x, t + [1];
    if u == [] {
      assert a[0] == 0;
      if t != [] { assert b[0] == t[0]; }
    } else if t == [] {
      assert a[0] == u[0] && b[0] == 1 && b[1..] == [];
    } else {
      assert a[0] == u[0] && b[0] == t[0];
      assert a[1..] == u[1..] + [0] + x && b[1..] == t[1..] + [1];
      assert t == [t[0]] + t[1..] && u == [u[0]] + u[1..];
      BelowEnd(u[1..], x, t[1..]);
    }
  }

  /** What an iterator over [token NUL, token SOH) yields. */
  predicate InRange(t: Str, k: Str) { !Lt(k, t + [0]) && Lt(k, t + [1]) }

  lemma RangeIsToken(t: Str, u: Str, o: nat)
    requires NulFree(t) && NulFree(u) && o < MAX_IDS
    ensures InRange(t, Key(u, o)) <==> u == t
  {
    SeparatedOrder(u, OrdBytes(o), t, []);
    assert t + [0] + [] == t + [0];
    BelowEnd(u, OrdBytes(o), t);
    if Lt(u, t) { LtAsymmetric(u, t); }
    if u == t { LtIrreflexive(u); }
  }

  function FirstNul(k: Str): (n: nat)
    ensures n <= |k| && (n < |k| ==> k[n] == 0) && forall i :: 0 <= i < n ==> k[i] != 0
  {
    if k == [] || k[0] == 0 then 0 else 1 + FirstNul(k[1..])
  }

  /** The token and the ordinal of a key, if it has the shape of one. */
  function ParseKey(k: Str): Option<(Str, int)>
  {
    var sep := FirstNul(k);
    if sep < |k| && |k| - sep - 1 == 2 then Some((k[..sep], OrdOf(k[sep + 1], k[sep + 2]))) else None
  }

  /** A stored pair can be read back exactly when its token has no NUL of its own. */
  lemma ParseKeyOfKey(t: Str, o: nat)
    requires o < MAX_IDS
    ensures ParseKey(Key(t, o)) == if NulFree(t) then Some((t, o)) else None
  {
    var k := Key(t, o);
    assert k[|t|] == 0 && k[..|t|] == t && k[|t| + 1] == o / 256 && k[|t| + 2] == o % 256;
    assert forall i :: 0 <= i < |t| ==> k[i] == t[i];
    if NulFree(t) {
      assert FirstNul(k) == |t|;
    } else {
      var i :| 0 <= i < |t| && t[i] == 0;
      assert k[i] == 0 && FirstNul(k) <= i;
    }
  }

  /** What parses was put together from what it parses to. */
  lemma KeyOfParsed(k: Str)
    requires ParseKey(k).Some?
    ensures var (t, o) := ParseKey(k).value; NulFree(t) && 0 <= o < MAX_IDS && k == Key(t, o)
  {
    var sep := FirstNul(k);
    assert k == k[..sep] + [0] + [k[sep + 1], k[sep + 2]];
  }

  /** A token compared with a whole key falls below it exactly when it does not exceed the key's token. */
  lemma {:induction false} TokenBelowKey(t: Str, u: Str, x: Str)
    requires NulFree(t) && NulFree(u)
    ensures Lt(t, u + [0] + x) <==> Lt(t, u) || t == u
    ensures Lt(u + [0] + x, t) <==> Lt(u, t)
  {
    var k := u + [0] + x;
    if u == [] {
      assert k[0] == 0;
    } else if t != [] {
      assert k[0] == u[0] && k[1..] == u[1..] + [0] + x;
      assert t == [t[0]] + t[1..] && u == [u[0]] + u[1..];
      TokenBelowKey(t[1..], u[1..], x);
    }
  }

  // ---------- ordinals ----------

  /** The distinct IDs in ascending order. */
  method SortIds(s: set<Str>) returns (xs: seq<Str>)
    ensures StrictlySorted(xs) && |xs| == |s| && forall x :: x in xs <==> x in s
  {
    var all := SortStrings(s);
    assert forall i :: 0 <= i < |all| ==> all[i] in s;
    xs := all;
  }

  method Ordinals(ids: seq<Str>) returns (ord: map<Str, nat>)
    requires StrictlySorted(ids)
    ensures forall x :: x in ord <==> x in ids
    ensures forall i :: 0 <= i < |ids| ==> ids[i] in ord && ord[ids[i]] == i
  {
    ord := map[];
    var i := 0;
    while i < |ids|
      invariant 0 <= i <= |ids|
      invariant forall x :: x in ord <==> x in ids[..i]
      invariant forall k :: 0 <= k < i ==> ids[k] in ord && ord[ids[k]] == k
    {
      assert ids[..i + 1] == ids[..i] + [ids[i]];
      forall k | 0 <= k < i ensures ids[k] != ids[i] { SortedPositions(ids, k, i); }
      ord := ord[ids[i] := i];
      i := i + 1;
    }
    assert ids[..i] == ids;
  }
}
